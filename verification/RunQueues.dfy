/** Scheduling policy: which task each core runs next. */
module RunQueues {
  import opened Bytes
  import opened Arithmetic

  datatype State =
    | Running
    | Ready
    | Sleeping(until: nat)
    | Waiting(event: nat)
    /** Until another task wakes it by id. */
    | Blocked
    /** Returned from its entry point; waiting to be reaped. */
    | Finished

  /** A task, with the `wake` or `interrupt` that came before it could use it. */
  datatype Entry = Entry(state: State, wakePending: bool, interruptPending: bool)

  /** What a run queue holds: tasks by id (none once reaped), and per core the task it runs and its
      idle task. */
  datatype Queue = Queue(tasks: seq<Option<Entry>>, current: seq<Option<nat>>, idle: seq<Option<nat>>,
                         generations: seq<nat>) {
    predicate Started(core: nat) {
      core < |current| && current[core].Some?
    }

    predicate Has(t: nat) { t < |tasks| && tasks[t].Some? }

    function StateOf(t: nat): Option<State> {
      if Has(t) then Some(tasks[t].value.state) else None
    }

    predicate IsIdle(t: nat) { Some(t) in idle }

    ghost predicate IsCurrent(t: nat) { exists core :: 0 <= core < |current| && current[core] == Some(t) }

    function SetState(t: nat, s: State): Queue {
      if Has(t) then this.(tasks := tasks[t := Some(tasks[t].value.(state := s))]) else this
    }

    function Generation(event: nat): nat {
      if event < |generations| then generations[event] else 0
    }

    /** The current task stops being runnable until `until`, unless it was interrupted meanwhile. */
    function Sleep(core: nat, until: nat): Queue
      requires Started(core)
    {
      var t := current[core].value;
      if Has(t) && tasks[t].value.interruptPending then
          this.(tasks := tasks[t := Some(tasks[t].value.(interruptPending := false))])
      else SetState(t, Sleeping(until))
    }

    /** ... or until `event` is notified, unless it was since the task saw generation `seen`. */
    function Wait(core: nat, event: nat, seen: nat): Queue
      requires Started(core)
    {
      var t := current[core].value;
      if Has(t) && tasks[t].value.interruptPending then
          this.(tasks := tasks[t := Some(tasks[t].value.(interruptPending := false))])
      else if Generation(event) == seen then SetState(t, Waiting(event))
      else this
    }

    /** ... or until it is woken, unless it already was. */
    function Block(core: nat): Queue
      requires Started(core)
    {
      var t := current[core].value;
      if Has(t) && tasks[t].value.wakePending then
          this.(tasks := tasks[t := Some(tasks[t].value.(wakePending := false))])
      else SetState(t, Blocked)
    }

    function Finish(core: nat): Queue
      requires Started(core)
    {
      SetState(current[core].value, Finished)
    }

    function Wake(t: nat): Queue {
      if !Has(t) || tasks[t].value.state == Finished then this
      else if tasks[t].value.state == Blocked then SetState(t, Ready)
      else this.(tasks := tasks[t := Some(tasks[t].value.(wakePending := true))])
    }

    function Interrupt(t: nat): Queue {
      if !Has(t) then this
      else match tasks[t].value.state
        case Sleeping(_) => SetState(t, Ready)
        case Waiting(_) => SetState(t, Ready)
        case Running => this.(tasks := tasks[t := Some(tasks[t].value.(interruptPending := true))])
        case Ready => this.(tasks := tasks[t := Some(tasks[t].value.(interruptPending := true))])
        case _ => this
    }

    /** Every task waiting for `event` is ready, and its generation moves on. */
    function Notify(event: nat): Queue {
      this.(tasks := MadeReady(tasks, Waiting(event), 0), generations := Bumped(generations, event))
    }

    /** Sleepers whose time has come are ready. */
    function Tick(now: nat): Queue {
      this.(tasks := MadeReady(tasks, Sleeping(now), now))
    }

    function Add(): Queue { this.(tasks := tasks + [Some(Entry(Ready, false, false))]) }

    /** The code running on `core` becomes its idle task. */
    function Start(core: nat): Queue
      requires core < |current| == |idle|
    {
      var id := |tasks|;
      Queue(tasks + [Some(Entry(Running, false, false))], current[core := Some(id)], idle[core := Some(id)],
            generations)
    }

    /** A task that may be picked for a core that is not running it. */
    predicate Eligible(t: nat, busy: set<nat>) {
      StateOf(t) == Some(Ready) && !IsIdle(t) && t !in busy
    }

    /** The first eligible task from `offset` after `from` on, wrapping around. */
    function FirstReady(from: nat, offset: nat, busy: set<nat>): (r: Option<nat>)
      requires offset <= |tasks| + 1
      ensures r.Some? ==> Eligible(r.value, busy)
      decreases |tasks| + 1 - offset
    {
      if offset > |tasks| || |tasks| == 0 then None
      else
        var t := (from + offset) % |tasks|;
        if Eligible(t, busy) then Some(t) else FirstReady(from, offset + 1, busy)
    }

    predicate KeepsCurrent(core: nat)
      requires Started(core)
    {
      StateOf(current[core].value) == Some(Running) && !IsIdle(current[core].value)
    }

    /** The task `core` runs next. */
    function Next(core: nat, preempt: bool, busy: set<nat>): nat
      requires Started(core) && core < |idle|
    {
      var t := current[core].value;
      if KeepsCurrent(core) && !preempt then t
      else
        var ready := FirstReady(t, 1, busy);
        if ready.Some? then ready.value
        else if KeepsCurrent(core) then t
        else if idle[core].Some? then idle[core].value
        else t
    }

    /** ... and the queue once it does. */
    function Pick(core: nat, preempt: bool, busy: set<nat>): Queue
      requires Started(core) && core < |idle|
    {
      var t, next := current[core].value, Next(core, preempt, busy);
      var left := if next != t && StateOf(t) == Some(Running) then SetState(t, Ready) else this;
      left.(current := current[core := Some(next)]).SetState(next, Running)
    }

    /** A finished task no core is running. */
    ghost predicate IsDone(t: nat) { StateOf(t) == Some(Finished) && !IsCurrent(t) }

    /** The queue with the tasks `ts` forgotten. */
    function Without(ts: set<nat>): Queue {
      this.(tasks := seq(|tasks|, i requires 0 <= i < |tasks| => if i in ts then None else tasks[i]))
    }
  }

  /** The search goes over every task from `offset` on. */
  lemma {:induction false} NoneFrom(q: Queue, from: nat, offset: nat, busy: set<nat>, o: nat)
    requires offset <= o <= |q.tasks| && 0 < |q.tasks| && q.FirstReady(from, offset, busy) == None
    ensures !q.Eligible((from + o) % |q.tasks|, busy)
    decreases |q.tasks| - offset
  {
    if offset < o {
      NoneFrom(q, from, offset + 1, busy, o);
    }
  }

  /** A core runs its idle task only when no other task it could run is ready. */
  lemma IdleOnlyAlone(q: Queue, core: nat, preempt: bool, busy: set<nat>, t: nat)
    requires q.Started(core) && core < |q.idle| && q.IsIdle(q.Next(core, preempt, busy))
    ensures !q.Eligible(t, busy) && !q.KeepsCurrent(core)
  {
    if t < |q.tasks| {
      var from := q.current[core].value;
      var o := Reaches(from, |q.tasks|, t);
      NoneFrom(q, from, 1, busy, o);
    }
  }

  predicate Wakes(s: State, pattern: State, now: nat) {
    s == pattern || (pattern.Sleeping? && s.Sleeping? && s.until <= now)
  }

  function ReadyIf(e: Option<Entry>, pattern: State, now: nat): Option<Entry> {
    if e.Some? && Wakes(e.value.state, pattern, now) then Some(e.value.(state := Ready)) else e
  }

  /** The tasks with those in a state that `pattern` and `now` end made ready. */
  function MadeReady(tasks: seq<Option<Entry>>, pattern: State, now: nat): (r: seq<Option<Entry>>)
    ensures |r| == |tasks| && forall i :: 0 <= i < |tasks| ==> r[i] == ReadyIf(tasks[i], pattern, now)
  {
    seq(|tasks|, i requires 0 <= i < |tasks| => ReadyIf(tasks[i], pattern, now))
  }

  function Bumped(generations: seq<nat>, event: nat): (r: seq<nat>)
    ensures |r| >= |generations| && event < |r|
    ensures forall e: nat ::
              (if e < |r| then r[e] else 0)
                == (if e < |generations| then generations[e] else 0) + (if e == event then 1 else 0)
  {
    var longer := generations + (if |generations| <= event then NoneYet(event + 1 - |generations|) else []);
    longer[event := longer[event] + 1]
  }

  function NoneYet(n: nat): (r: seq<nat>)
    ensures |r| == n && forall i :: 0 <= i < n ==> r[i] == 0
  {
    seq(n, i => 0)
  }

  class RunQueue {
    var tasks: seq<Option<Entry>>
    var current: seq<Option<nat>>
    var idle: seq<Option<nat>>
    var generations: seq<nat>

    function Model(): Queue
      reads this
    {
      Queue(tasks, current, idle, generations)
    }

    /** A queue for `cores` cores, whose only task is the code already running on core 0. */
    constructor (cores: nat)
      requires 0 < cores
      ensures |current| == |idle| == cores && tasks == [Some(Entry(Running, false, false))] && generations == []
      ensures current[0] == Some(0) && forall c :: 0 < c < cores ==> current[c] == None
      ensures forall c :: 0 <= c < cores ==> idle[c] == None
    {
      tasks, generations := [Some(Entry(Running, false, false))], [];
      current := [Some(0)] + seq(cores - 1, i => None);
      idle := seq(cores, i => None);
    }

    /** Makes every task waiting for `event` ready, and moves its generation on. Returns whether any task
        was waiting. */
    method Notify(event: nat) returns (woke: bool)
      modifies this
      ensures Model() == old(Model()).Notify(event)
      ensures woke <==> exists t: nat :: old(Model()).StateOf(t) == Some(Waiting(event))
    {
      if |generations| <= event {
        generations := generations + NoneYet(event + 1 - |generations|);
      }
      generations := generations[event := generations[event] + 1];
      woke := false;
      ghost var was := old(tasks);
      var i := 0;
      while i < |tasks|
        invariant 0 <= i <= |tasks| == |was| && current == old(current) && idle == old(idle)
                  && generations == Bumped(old(generations), event)
        invariant forall j :: 0 <= j < |tasks| ==>
                    tasks[j] == if j < i then ReadyIf(was[j], Waiting(event), 0) else was[j]
        invariant woke <==> exists j :: 0 <= j < i && was[j].Some? && was[j].value.state == Waiting(event)
      {
        if tasks[i].Some? && tasks[i].value.state == Waiting(event) {
          tasks := tasks[i := Some(tasks[i].value.(state := Ready))];
          woke := true;
        }
        i := i + 1;
      }
      assert forall t: nat :: old(Model()).StateOf(t) == Some(Waiting(event)) ==>
               t < |was| && was[t].Some? && was[t].value.state == Waiting(event);
      assert forall j :: 0 <= j < |was| && was[j].Some? && was[j].value.state == Waiting(event) ==>
               old(Model()).StateOf(j) == Some(Waiting(event));
    }

    /** Wakes sleepers whose time has come. */
    method Tick(now: nat)
      modifies this
      ensures Model() == old(Model()).Tick(now)
    {
      ghost var was := old(tasks);
      var i := 0;
      while i < |tasks|
        invariant 0 <= i <= |tasks| == |was| && current == old(current) && idle == old(idle)
                  && generations == old(generations)
        invariant forall j :: 0 <= j < |tasks| ==>
                    tasks[j] == if j < i then ReadyIf(was[j], Sleeping(now), now) else was[j]
      {
        if tasks[i].Some? && tasks[i].value.state.Sleeping? && tasks[i].value.state.until <= now {
          tasks := tasks[i := Some(tasks[i].value.(state := Ready))];
        }
        i := i + 1;
      }
    }

    /** The current task of `core`, taking a pending interrupt if it has one. */
    method TakeInterrupt(core: nat) returns (t: nat, pending: bool)
      requires Model().Started(core)
      modifies this`tasks
      ensures t == current[core].value && pending == (old(Model()).Has(t) && old(tasks)[t].value.interruptPending)
      ensures tasks == if pending then old(tasks)[t := Some(old(tasks)[t].value.(interruptPending := false))]
              else old(tasks)
    {
      t := current[core].value;
      pending := t < |tasks| && tasks[t].Some? && tasks[t].value.interruptPending;
      if pending {
        tasks := tasks[t := Some(tasks[t].value.(interruptPending := false))];
      }
    }

    method Sleep(core: nat, until: nat)
      requires Model().Started(core)
      modifies this`tasks
      ensures Model() == old(Model()).Sleep(core, until)
    {
      var t, interrupted := TakeInterrupt(core);
      if !interrupted {
        SetState(t, Sleeping(until));
      }
    }

    method Wait(core: nat, event: nat, seen: nat)
      requires Model().Started(core)
      modifies this`tasks
      ensures Model() == old(Model()).Wait(core, event, seen)
    {
      var t, interrupted := TakeInterrupt(core);
      if !interrupted && (if event < |generations| then generations[event] else 0) == seen {
        SetState(t, Waiting(event));
      }
    }

    method Block(core: nat)
      requires Model().Started(core)
      modifies this`tasks
      ensures Model() == old(Model()).Block(core)
    {
      var t := current[core].value;
      if t < |tasks| && tasks[t].Some? && tasks[t].value.wakePending {
        tasks := tasks[t := Some(tasks[t].value.(wakePending := false))];
      } else {
        SetState(t, Blocked);
      }
    }

    /** Makes a blocked task ready. Returns whether it was blocked; if not, its next `Block` returns
        straight away. */
    method Wake(t: nat) returns (woke: bool)
      modifies this`tasks
      ensures Model() == old(Model()).Wake(t) && woke == (old(Model()).StateOf(t) == Some(Blocked))
    {
      woke := false;
      if t < |tasks| && tasks[t].Some? {
        if tasks[t].value.state == Blocked {
          tasks := tasks[t := Some(tasks[t].value.(state := Ready))];
          woke := true;
        } else if tasks[t].value.state != Finished {
          tasks := tasks[t := Some(tasks[t].value.(wakePending := true))];
        }
      }
    }

    /** Makes a sleeping or waiting task ready early. Returns whether it was; if it was running or ready,
        its next sleep or wait does not happen. */
    method Interrupt(t: nat) returns (woke: bool)
      modifies this`tasks
      ensures Model() == old(Model()).Interrupt(t)
      ensures woke == (exists s :: old(Model()).StateOf(t) == Some(s) && (s.Sleeping? || s.Waiting?))
    {
      woke := false;
      if t < |tasks| && tasks[t].Some? {
        var s := tasks[t].value.state;
        if s.Sleeping? || s.Waiting? {
          tasks := tasks[t := Some(tasks[t].value.(state := Ready))];
          woke := true;
        } else if s.Running? || s.Ready? {
          tasks := tasks[t := Some(tasks[t].value.(interruptPending := true))];
        }
      }
    }

    method SetState(t: nat, s: State)
      modifies this`tasks
      ensures Model() == old(Model()).SetState(t, s)
    {
      if t < |tasks| && tasks[t].Some? {
        tasks := tasks[t := Some(tasks[t].value.(state := s))];
      }
    }

    /** Chooses the task `core` runs next and marks it running. Tasks in `busy`, which another core is
        still switching away from, are not picked. */
    method PickNext(core: nat, preempt: bool, busy: set<nat>) returns (next: nat)
      requires Model().Started(core) && core < |idle|
      modifies this`tasks, this`current
      ensures next == old(Model()).Next(core, preempt, busy) && Model() == old(Model()).Pick(core, preempt, busy)
    {
      var t := current[core].value;
      ghost var q := Model();
      var runnable := Model().StateOf(t) == Some(Running);
      var keep := runnable && Some(t) !in idle;
      if keep && !preempt {
        next := t;
      } else {
        // Round robin: the first ready task after the current one, wrapping around.
        var offset := 1;
        var found := false;
        next := t;
        while offset <= |tasks| && !found
          invariant 1 <= offset <= |tasks| + 1 && Model() == q
          invariant !found ==> q.FirstReady(t, 1, busy) == q.FirstReady(t, offset, busy)
          invariant found ==> q.FirstReady(t, 1, busy) == Some(next)
          decreases |tasks| + 1 - offset, !found
        {
          var id := (t + offset) % |tasks|;
          if Model().Eligible(id, busy) {
            next, found := id, true;
          } else {
            offset := offset + 1;
          }
        }
        if !found {
          next := if keep then t else if idle[core].Some? then idle[core].value else t;
        }
      }
      if next != t && runnable {
        SetState(t, Ready);
      }
      current := current[core := Some(next)];
      SetState(next, Running);
    }

    /** Finished tasks no core is running. */
    method Done() returns (done: seq<nat>)
      ensures forall t: nat :: t in done <==> Model().IsDone(t)
      ensures forall i, j :: 0 <= i < j < |done| ==> done[i] < done[j]
    {
      done := [];
      var t := 0;
      while t < |tasks|
        invariant 0 <= t <= |tasks|
        invariant forall id: nat :: id in done <==> id < t && Model().IsDone(id)
        invariant forall i, j :: 0 <= i < j < |done| ==> done[i] < done[j]
      {
        if Some(t) !in current && Model().StateOf(t) == Some(Finished) {
          assert forall i :: 0 <= i < |done| ==> done[i] in done && done[i] < t;
          done := done + [t];
        }
        t := t + 1;
      }
    }
  }
}
