/** Switching tasks on several cores: the run queue, the stack each core is on, and the handshake that
    keeps a task from being picked while another core is still on its stack. */
module KernelSwitch {
  import opened Bytes
  import opened RunQueues

  /** Where a core is: in a task; in the handler, having picked another task; or moved onto that task's
      stack but not finished switching. */
  datatype Phase = InTask | InHandler | Moved

  /** Per core: the task it is still leaving, if any, and the task whose stack it is on. */
  datatype Kernel = Kernel(q: Queue, leaving: seq<Option<nat>>, sp: seq<nat>, phase: seq<Phase>) {
    predicate Shaped() { |q.current| == |q.idle| == |leaving| == |sp| == |phase| }

    predicate IsCore(core: nat) { Shaped() && q.Started(core) }

    /** The tasks whose stacks `core` is on, still leaving or about to be on. */
    ghost function Uses(core: nat): set<nat>
      requires IsCore(core)
    {
      {sp[core], q.current[core].value} + (if leaving[core].Some? then {leaving[core].value} else {})
    }

    /** The tasks other cores are still leaving. */
    ghost function Busy(core: nat): set<nat>
      requires Shaped()
    {
      set c | 0 <= c < |leaving| && c != core && leaving[c].Some? :: leaving[c].value
    }

    /* What holds in every state. */

    /** No two cores are on, or leaving, the same stack. */
    ghost predicate Exclusive() {
      Shaped() && forall c: nat, c': nat :: c != c' && IsCore(c) && IsCore(c') ==> Uses(c) !! Uses(c')
    }

    /** A stack in use is not freed. */
    ghost predicate StacksExist() {
      Shaped() && forall c: nat, t :: IsCore(c) && t in Uses(c) ==> q.Has(t)
    }

    predicate PhaseHolds(c: nat)
      requires IsCore(c)
    {
      match phase[c]
      case InTask => sp[c] == q.current[c].value && leaving[c] == None
      case InHandler => leaving[c] == (if sp[c] == q.current[c].value then None else Some(sp[c]))
      case Moved => sp[c] == q.current[c].value && leaving[c] != Some(sp[c])
    }

    ghost predicate PhasesHold() {
      Shaped() && forall c: nat :: IsCore(c) ==> PhaseHolds(c)
    }

    /** A started core has an idle task, which never waits and runs nowhere else. */
    ghost predicate IdleHolds() {
      && Shaped()
      && (forall c: nat :: c < |q.idle| ==> (q.idle[c].Some? <==> q.Started(c)))
      && (forall c: nat :: c < |q.idle| && q.idle[c].Some? ==>
            q.StateOf(q.idle[c].value) == Some(Running) || q.StateOf(q.idle[c].value) == Some(Ready))
      && (forall c: nat, c': nat :: c < |q.idle| && q.idle[c].Some? && IsCore(c') && c != c' ==>
            q.idle[c].value !in Uses(c') && q.idle[c'] != q.idle[c])
    }

    ghost predicate RunningIsCurrent() {
      Shaped() && forall t: nat :: q.StateOf(t) == Some(Running) ==> q.IsCurrent(t)
    }

    ghost predicate Safe() {
      Exclusive() && StacksExist() && PhasesHold() && IdleHolds() && RunningIsCurrent()
    }
  }

  /** The steps cores take. A task that sleeps, waits or blocks has two: the call, and the switch. */
  datatype Step =
    | Sleep(core: nat, until: nat)
    | Wait(core: nat, event: nat, seen: nat)
    | Block(core: nat)
    | Exit(core: nat)
    | Wake(task: nat)
    | Interrupt(task: nat)
    | Notify(event: nat)
    | Tick(now: nat)
    | Spawn
    | StartCore(core: nat)
    | Switch(core: nat, preempt: bool)
    | Move(core: nat)
    | FinishSwitch(core: nat)
  {
    /** A step of a task that gives up its core. */
    predicate Parks() { Sleep? || Wait? || Block? || Exit? }
  }

  predicate Can(k: Kernel, s: Step) {
    k.Shaped() &&
    match s
    case Sleep(c, _) => k.IsCore(c) && k.phase[c] == InTask && !k.q.IsIdle(k.q.current[c].value)
    case Wait(c, _, _) => k.IsCore(c) && k.phase[c] == InTask && !k.q.IsIdle(k.q.current[c].value)
    case Block(c) => k.IsCore(c) && k.phase[c] == InTask && !k.q.IsIdle(k.q.current[c].value)
    case Exit(c) => k.IsCore(c) && k.phase[c] == InTask && !k.q.IsIdle(k.q.current[c].value)
    case StartCore(c) => c < |k.q.current| && !k.q.Started(c)
    case Switch(c, _) => k.IsCore(c) && k.phase[c] == InTask
    case Move(c) => k.IsCore(c) && k.phase[c] == InHandler
    case FinishSwitch(c) => k.IsCore(c) && k.phase[c] == Moved
    case _ => true
  }

  ghost function Reaped(k: Kernel, core: nat, q: Queue): set<nat>
    requires k.IsCore(core)
  {
    set t | 0 <= t < |q.tasks| && q.IsDone(t) && t != k.q.current[core].value && t !in k.Busy(core)
  }

  /** The handler picks the next task, frees finished tasks' stacks and marks the one being left. */
  ghost function DoSwitch(k: Kernel, core: nat, preempt: bool): Kernel
    requires k.IsCore(core)
  {
    var t := k.q.current[core].value;
    var q := k.q.Pick(core, preempt, k.Busy(core));
    var next := q.current[core].value;
    k.(q := q.Without(Reaped(k, core, q)),
       leaving := if next != t then k.leaving[core := Some(t)] else k.leaving,
       phase := k.phase[core := InHandler])
  }

  ghost function Do(k: Kernel, s: Step): Kernel
    requires Can(k, s)
  {
    match s
    case Sleep(c, until) => k.(q := k.q.Sleep(c, until))
    case Wait(c, event, seen) => k.(q := k.q.Wait(c, event, seen))
    case Block(c) => k.(q := k.q.Block(c))
    case Exit(c) => k.(q := k.q.Finish(c))
    case Wake(t) => k.(q := k.q.Wake(t))
    case Interrupt(t) => k.(q := k.q.Interrupt(t))
    case Notify(e) => k.(q := k.q.Notify(e))
    case Tick(now) => k.(q := k.q.Tick(now))
    case Spawn => k.(q := k.q.Add())
    case StartCore(c) =>
      k.(q := k.q.Start(c), leaving := k.leaving[c := None], sp := k.sp[c := |k.q.tasks|],
         phase := k.phase[c := InTask])
    case Switch(c, preempt) => DoSwitch(k, c, preempt)
    case Move(c) => k.(sp := k.sp[c := k.q.current[c].value], phase := k.phase[c := Moved])
    case FinishSwitch(c) => k.(leaving := k.leaving[c := None], phase := k.phase[c := InTask])
  }

  /** The task `core` would switch to. */
  ghost function Picked(k: Kernel, core: nat, preempt: bool): nat
    requires k.IsCore(core)
  {
    k.q.Next(core, preempt, k.Busy(core))
  }

  /** No other core runs the task `core` would switch to. */
  ghost predicate Guarded(k: Kernel, core: nat, preempt: bool)
    requires k.IsCore(core)
  {
    forall c: nat :: c != core && k.IsCore(c) ==> k.q.current[c] != Some(Picked(k, core, preempt))
  }

  /* Steps that only change task states. */

  /** Another queue with the same tasks, on the same cores. */
  ghost predicate SameCores(q: Queue, q': Queue) {
    && q'.current == q.current && q'.idle == q.idle
    && (forall t: nat :: q.Has(t) ==> q'.Has(t))
    && (forall t: nat :: q'.StateOf(t) == Some(Running) ==> q.StateOf(t) == Some(Running))
    && (forall t: nat :: q.IsIdle(t) ==> q'.StateOf(t) == q.StateOf(t))
  }

  lemma SameCoresSafe(k: Kernel, q': Queue)
    requires k.Safe() && SameCores(k.q, q')
    ensures k.(q := q').Safe()
  {
    var k' := k.(q := q');
    assert forall c: nat :: k.IsCore(c) <==> k'.IsCore(c);
    assert forall c: nat :: k.IsCore(c) ==> k'.Uses(c) == k.Uses(c);
    forall t: nat | q'.StateOf(t) == Some(Running) ensures q'.IsCurrent(t) {
      assert k.q.IsCurrent(t);
    }
    forall c: nat | c < |q'.idle| && q'.idle[c].Some?
      ensures q'.StateOf(q'.idle[c].value) == k.q.StateOf(q'.idle[c].value)
    {
      assert k.q.IsIdle(q'.idle[c].value);
    }
  }

  /** Sleeping, waiting, waking and the like leave every core on the stack it is on. */
  lemma StateStepSafe(k: Kernel, s: Step)
    requires k.Safe() && Can(k, s) && !s.StartCore? && !s.Switch? && !s.Move? && !s.FinishSwitch?
    ensures Do(k, s).Safe()
  {
    hide *;
    StateStepSame(k, s);
    SameCoresSafe(k, Do(k, s).q);
    StateStepIs(k, s);
  }

  lemma StateStepIs(k: Kernel, s: Step)
    requires Can(k, s) && !s.StartCore? && !s.Switch? && !s.Move? && !s.FinishSwitch?
    ensures Do(k, s) == k.(q := Do(k, s).q)
  {
  }

  /** Changing one task's entry. */
  lemma EntrySame(q: Queue, t: nat, e: Entry)
    requires q.Has(t) && (e.state == Running ==> q.StateOf(t) == Some(Running))
             && (q.IsIdle(t) ==> q.StateOf(t) == Some(e.state))
    ensures SameCores(q, q.(tasks := q.tasks[t := Some(e)]))
  {
  }

  /** Making tasks ready that were not. */
  lemma ReadySame(q: Queue, pattern: State, now: nat, generations: seq<nat>)
    requires !pattern.Running? && !pattern.Ready?
             && forall t: nat :: q.IsIdle(t) ==> q.StateOf(t) == Some(Running) || q.StateOf(t) == Some(Ready)
    ensures SameCores(q, q.(tasks := MadeReady(q.tasks, pattern, now), generations := generations))
  {
    var q' := q.(tasks := MadeReady(q.tasks, pattern, now), generations := generations);
    forall t: nat | q.Has(t) ensures q'.Has(t) && q'.tasks[t] == ReadyIf(q.tasks[t], pattern, now) {
    }
  }

  lemma QueueStepSame(k: Kernel, s: Step)
    requires Can(k, s) && !s.StartCore? && !s.Switch? && !s.Move? && !s.FinishSwitch?
    requires forall t: nat :: k.q.IsIdle(t) ==> k.q.StateOf(t) == Some(Running) || k.q.StateOf(t) == Some(Ready)
    ensures SameCores(k.q, Do(k, s).q)
  {
    hide SameCores, MadeReady, Bumped;
    var q := k.q;
    SameItself(q);
    match s
    case Sleep(c, until) => CurrentSame(q, q.current[c].value, Sleeping(until));
    case Wait(c, event, seen) => CurrentSame(q, q.current[c].value, Waiting(event));
    case Block(c) => CurrentSame(q, q.current[c].value, Blocked);
    case Exit(c) => CurrentSame(q, q.current[c].value, Finished);
    case Wake(t) => WokenSame(q, t);
    case Interrupt(t) => WokenSame(q, t);
    case Notify(e) => ReadySame(q, Waiting(e), 0, Bumped(q.generations, e));
    case Tick(now) => ReadySame(q, Sleeping(now), now, q.generations);
    case Spawn => AddSame(q);
  }

  lemma SameItself(q: Queue)
    ensures SameCores(q, q)
  {
  }

  lemma AddSame(q: Queue)
    requires forall t: nat :: q.IsIdle(t) ==> q.Has(t)
    ensures SameCores(q, q.Add())
  {
  }

  lemma CurrentSame(q: Queue, t: nat, s: State)
    requires !q.IsIdle(t) && s != Running
    ensures q.Has(t) ==>
              var e := q.tasks[t].value;
              && SameCores(q, q.SetState(t, s))
              && SameCores(q, q.(tasks := q.tasks[t := Some(e.(interruptPending := false))]))
              && SameCores(q, q.(tasks := q.tasks[t := Some(e.(wakePending := false))]))
    ensures !q.Has(t) ==> SameCores(q, q.SetState(t, s))
  {
    hide SameCores;
    SameItself(q);
    if q.Has(t) {
      var e := q.tasks[t].value;
      EntrySame(q, t, e.(state := s));
      EntrySame(q, t, e.(interruptPending := false));
      EntrySame(q, t, e.(wakePending := false));
    }
  }

  lemma WokenSame(q: Queue, t: nat)
    requires q.IsIdle(t) ==> q.StateOf(t) == Some(Running) || q.StateOf(t) == Some(Ready)
    ensures SameCores(q, q.Wake(t)) && SameCores(q, q.Interrupt(t))
  {
    hide SameCores;
    SameItself(q);
    if q.Has(t) {
      var e := q.tasks[t].value;
      EntrySame(q, t, e.(wakePending := true));
      EntrySame(q, t, e.(interruptPending := true));
      if e.state != Running && e.state != Ready {
        EntrySame(q, t, e.(state := Ready));
      }
    }
  }

  lemma StateStepSame(k: Kernel, s: Step)
    requires k.Safe() && Can(k, s) && !s.StartCore? && !s.Switch? && !s.Move? && !s.FinishSwitch?
    ensures SameCores(k.q, Do(k, s).q)
  {
    hide Kernel.Exclusive, Kernel.StacksExist, Kernel.PhasesHold, Kernel.RunningIsCurrent;
    forall t: nat | k.q.IsIdle(t) ensures k.q.StateOf(t) == Some(Running) || k.q.StateOf(t) == Some(Ready) {
      var c :| 0 <= c < |k.q.idle| && k.q.idle[c] == Some(t);
    }
    QueueStepSame(k, s);
  }

  /** `k'` is `k` but for where `core` is. */
  ghost predicate SameElsewhere(k: Kernel, k': Kernel, core: nat) {
    && k.Shaped() && k'.Shaped() && |k.q.current| == |k'.q.current|
    && forall c: nat :: c < |k.q.current| && c != core ==>
         k'.q.current[c] == k.q.current[c] && k'.leaving[c] == k.leaving[c] && k'.sp[c] == k.sp[c]
           && k'.phase[c] == k.phase[c]
  }

  lemma ElsewhereSame(k: Kernel, k': Kernel, core: nat, c: nat)
    requires SameElsewhere(k, k', core) && c != core
    ensures k'.IsCore(c) == k.IsCore(c)
            && (k.IsCore(c) ==> k'.Uses(c) == k.Uses(c) && k'.PhaseHolds(c) == k.PhaseHolds(c))
  {
  }

  /** A core that gets off a stack leaves everything safe. */
  lemma GetsOff(k: Kernel, k': Kernel, core: nat)
    requires k.Safe() && SameElsewhere(k, k', core) && k'.q == k.q && k.IsCore(core)
    requires k'.Uses(core) <= k.Uses(core) && k'.PhaseHolds(core)
    ensures k'.Safe()
  {
    forall c: nat | c != core
      ensures k'.IsCore(c) == k.IsCore(c)
              && (k.IsCore(c) ==> k'.Uses(c) == k.Uses(c) && k'.PhaseHolds(c) == k.PhaseHolds(c))
    {
      ElsewhereSame(k, k', core, c);
    }
  }

  lemma MoveSafe(k: Kernel, core: nat)
    requires k.Safe() && Can(k, Move(core))
    ensures Do(k, Move(core)).Safe()
  {
    hide Kernel.Exclusive, Kernel.StacksExist, Kernel.IdleHolds, Kernel.RunningIsCurrent;
    assert k.PhaseHolds(core);
    GetsOff(k, Do(k, Move(core)), core);
  }

  lemma FinishSafe(k: Kernel, core: nat)
    requires k.Safe() && Can(k, FinishSwitch(core))
    ensures Do(k, FinishSwitch(core)).Safe()
  {
    hide Kernel.Exclusive, Kernel.StacksExist, Kernel.IdleHolds, Kernel.RunningIsCurrent;
    assert k.PhaseHolds(core);
    GetsOff(k, Do(k, FinishSwitch(core)), core);
  }

  lemma StartSafe(k: Kernel, core: nat)
    requires k.Safe() && Can(k, StartCore(core))
    ensures Do(k, StartCore(core)).Safe()
  {
    var k' := Do(k, StartCore(core));
    StartIs(k, core);
    StartUses(k, k', core);
    StartRunning(k, k', core);
  }

  lemma StartIs(k: Kernel, core: nat)
    requires Can(k, StartCore(core))
    ensures var k' := Do(k, StartCore(core));
            && SameElsewhere(k, k', core) && k'.IsCore(core) && k'.PhaseHolds(core) && k'.Uses(core) == {|k.q.tasks|}
            && k'.q == k.q.Start(core)
  {
  }

  lemma StartUses(k: Kernel, k': Kernel, core: nat)
    requires k.Safe() && SameElsewhere(k, k', core) && !k.IsCore(core) && k'.IsCore(core) && k'.PhaseHolds(core)
             && k'.Uses(core) == {|k.q.tasks|}
    requires k'.q == k.q.Start(core)
    ensures k'.Exclusive() && k'.StacksExist() && k'.PhasesHold() && k'.IdleHolds()
  {
    forall c: nat | c != core
      ensures k'.IsCore(c) == k.IsCore(c)
              && (k.IsCore(c) ==> k'.Uses(c) == k.Uses(c) && k'.PhaseHolds(c) == k.PhaseHolds(c))
    {
      ElsewhereSame(k, k', core, c);
    }
    forall c: nat | k.IsCore(c) ensures |k.q.tasks| !in k.Uses(c) {
      assert !k.q.Has(|k.q.tasks|);
    }
    forall c: nat, c': nat | c != c' && k'.IsCore(c) && k'.IsCore(c') ensures k'.Uses(c) !! k'.Uses(c') {
      assert c == core || c' == core || k.Uses(c) !! k.Uses(c');
    }
    assert forall t: nat :: k.q.Has(t) ==> k'.q.Has(t);
  }

  lemma StartRunning(k: Kernel, k': Kernel, core: nat)
    requires k.Safe() && SameElsewhere(k, k', core) && core < |k.q.current| && !k.IsCore(core)
             && k'.q == k.q.Start(core)
    ensures k'.RunningIsCurrent()
  {
    assert k'.q.current[core] == Some(|k.q.tasks|);
    forall t: nat | k'.q.StateOf(t) == Some(Running) ensures k'.q.IsCurrent(t) {
      if t != |k.q.tasks| {
        assert k.q.StateOf(t) == Some(Running);
        var c :| 0 <= c < |k.q.current| && k.q.current[c] == Some(t);
        assert k'.q.current[c] == Some(t);
      }
    }
  }

  /* Switching. */

  /** What a core switches to is a ready task no core is leaving, the task it runs, or its idle task. */
  lemma PickedIs(k: Kernel, core: nat, preempt: bool)
    requires k.Safe() && k.IsCore(core)
    ensures var t := Picked(k, core, preempt);
            || (k.q.StateOf(t) == Some(Ready) && t !in k.Busy(core) && !k.q.IsIdle(t))
            || (t == k.q.current[core].value && k.q.StateOf(t) == Some(Running))
            || Some(t) == k.q.idle[core]
  {
  }

  /** Sp, current and leaving tell all a core uses. */
  lemma UsesAre(k: Kernel, c: nat)
    requires k.Safe() && k.IsCore(c)
    ensures k.Uses(c) == {k.q.current[c].value} + (if k.leaving[c].Some? then {k.leaving[c].value} else {})
    ensures forall core :: core != c && k.leaving[c].Some? ==> k.leaving[c].value in k.Busy(core)
  {
    assert k.PhaseHolds(c);
  }

  /** Picking a task that no other core runs keeps it off the stacks other cores use. */
  lemma PickedApart(k: Kernel, core: nat, preempt: bool, c: nat)
    requires k.Safe() && k.IsCore(core) && Guarded(k, core, preempt) && k.IsCore(c) && c != core
    ensures Picked(k, core, preempt) !in k.Uses(c)
  {
    hide Queue.Next, Queue.FirstReady;
    PickedIs(k, core, preempt);
    UsesAre(k, c);
    var t := Picked(k, core, preempt);
    if Some(t) != k.q.idle[core] && t == k.q.current[core].value {
      assert k.Uses(core) !! k.Uses(c);
    }
  }

  /** The queue a switch leaves. */
  lemma PickIs(k: Kernel, core: nat, preempt: bool)
    requires k.IsCore(core)
    ensures var t, next, q := k.q.current[core].value, Picked(k, core, preempt), k.q.Pick(core, preempt, k.Busy(core));
            && q.current == k.q.current[core := Some(next)] && q.idle == k.q.idle && |q.tasks| == |k.q.tasks|
            && (forall u: nat :: q.Has(u) <==> k.q.Has(u))
            && (forall u: nat :: u != t && u != next ==> q.StateOf(u) == k.q.StateOf(u))
            && (k.q.Has(next) ==> q.StateOf(next) == Some(Running))
            && (t != next ==> q.StateOf(t) == if k.q.StateOf(t) == Some(Running) then Some(Ready) else k.q.StateOf(t))
  {
    hide Queue.Next;
  }

  /** ... once finished tasks are reaped: none that any core uses. */
  lemma ReapedApart(k: Kernel, core: nat, preempt: bool, t: nat)
    requires k.Safe() && k.IsCore(core) && k.phase[core] == InTask
    requires t in Reaped(k, core, k.q.Pick(core, preempt, k.Busy(core)))
    ensures t != k.q.current[core].value && t != Picked(k, core, preempt)
            && (forall c: nat :: k.IsCore(c) ==> t !in k.Uses(c))
    ensures k.q.StateOf(t) == Some(Finished)
  {
    hide Queue.Next, Queue.Pick;
    PickIs(k, core, preempt);
    var q := k.q.Pick(core, preempt, k.Busy(core));
    assert q.current[core] == Some(Picked(k, core, preempt));
    forall c: nat | k.IsCore(c) ensures t !in k.Uses(c) {
      UsesAre(k, c);
      if c != core {
        assert q.current[c] == k.q.current[c];
      } else {
        assert k.PhaseHolds(core);
      }
    }
  }

  /** The state a switch leaves, compared to the one before. */
  lemma SwitchIs(k: Kernel, core: nat, preempt: bool)
    requires k.Safe() && Can(k, Switch(core, preempt))
    ensures var k', t, next := DoSwitch(k, core, preempt), k.q.current[core].value, Picked(k, core, preempt);
            && SameElsewhere(k, k', core) && k'.IsCore(core) && k'.PhaseHolds(core) && k'.Uses(core) == {t, next}
            && k'.q.current[core] == Some(next) && k'.q.idle == k.q.idle
  {
    hide Queue.Next, Queue.Pick, Kernel.Exclusive, Kernel.StacksExist, Kernel.IdleHolds, Kernel.RunningIsCurrent,
      Reaped;
    PickIs(k, core, preempt);
    assert k.PhaseHolds(core);
  }

  /** States of tasks after a switch. */
  lemma SwitchStates(k: Kernel, core: nat, preempt: bool, u: nat)
    requires k.Safe() && Can(k, Switch(core, preempt))
    ensures var q', t, next := DoSwitch(k, core, preempt).q, k.q.current[core].value, Picked(k, core, preempt);
            && (q'.Has(u) ==> k.q.Has(u))
            && (k.q.Has(u) && (u == t || u == next || k.q.StateOf(u) != Some(Finished)) ==> q'.Has(u))
            && (forall c: nat :: k.IsCore(c) && u in k.Uses(c) && k.q.Has(u) ==> q'.Has(u))
            && (q'.Has(u) ==>
                q'.StateOf(u)
                  == (if u == next then Some(Running) else if u == t && k.q.StateOf(t) == Some(Running) then Some(Ready)
                      else k.q.StateOf(u)))
  {
    hide Queue.Next, Queue.Pick, Kernel.Exclusive, Kernel.StacksExist, Kernel.IdleHolds, Kernel.RunningIsCurrent,
      Kernel.PhasesHold;
    PickIs(k, core, preempt);
    var q := k.q.Pick(core, preempt, k.Busy(core));
    if u in Reaped(k, core, q) {
      ReapedApart(k, core, preempt, u);
    }
  }

  lemma GuardedExclusive(k: Kernel, k': Kernel, core: nat, preempt: bool)
    requires k.Safe() && k.IsCore(core) && Guarded(k, core, preempt) && SameElsewhere(k, k', core) && k'.IsCore(core)
    requires k'.Uses(core) == {k.q.current[core].value, Picked(k, core, preempt)}
    ensures k'.Exclusive()
  {
    hide Queue.Next, Kernel.StacksExist, Kernel.IdleHolds, Kernel.RunningIsCurrent, Kernel.PhasesHold, Guarded;
    forall c: nat | c != core && k'.IsCore(c)
      ensures k.IsCore(c) && k'.Uses(c) == k.Uses(c) && k'.Uses(core) !! k.Uses(c)
    {
      ElsewhereSame(k, k', core, c);
      PickedApart(k, core, preempt, c);
      assert k.Uses(core) !! k.Uses(c);
    }
    forall c: nat, c': nat | c != c' && k'.IsCore(c) && k'.IsCore(c') ensures k'.Uses(c) !! k'.Uses(c') {
      assert c == core || c' == core || k.Uses(c) !! k.Uses(c');
    }
  }

  lemma SwitchStacks(k: Kernel, core: nat, preempt: bool)
    requires k.Safe() && Can(k, Switch(core, preempt))
    ensures DoSwitch(k, core, preempt).StacksExist() && DoSwitch(k, core, preempt).PhasesHold()
  {
    hide Queue.Next, Queue.Pick, DoSwitch, Kernel.Exclusive, Kernel.RunningIsCurrent, Picked, Kernel.PhaseHolds;
    var k' := DoSwitch(k, core, preempt);
    SwitchIs(k, core, preempt);
    PickedExists(k, core, preempt);
    forall c: nat, t | k'.IsCore(c) && t in k'.Uses(c) ensures k'.q.Has(t) {
      SwitchStates(k, core, preempt, t);
      if c != core {
        ElsewhereSame(k, k', core, c);
      } else {
        assert k.q.current[core].value in k.Uses(core);
      }
    }
    forall c: nat | k'.IsCore(c) ensures k'.PhaseHolds(c) {
      if c != core {
        ElsewhereSame(k, k', core, c);
      }
    }
  }

  lemma PickedExists(k: Kernel, core: nat, preempt: bool)
    requires k.Safe() && k.IsCore(core)
    ensures k.q.Has(Picked(k, core, preempt))
  {
    hide Queue.Next, Queue.FirstReady;
    PickedIs(k, core, preempt);
  }

  lemma SwitchIdle(k: Kernel, core: nat, preempt: bool)
    requires k.Safe() && Can(k, Switch(core, preempt))
    ensures DoSwitch(k, core, preempt).IdleHolds()
  {
    hide Queue.Next, Queue.Pick, DoSwitch, Kernel.Exclusive, Kernel.RunningIsCurrent, Picked, Kernel.PhaseHolds,
      Kernel.StacksExist;
    var k' := DoSwitch(k, core, preempt);
    SwitchIs(k, core, preempt);
    PickedIs(k, core, preempt);
    forall c: nat | c < |k'.q.idle| && k'.q.idle[c].Some?
      ensures k'.q.StateOf(k'.q.idle[c].value) == Some(Running) || k'.q.StateOf(k'.q.idle[c].value) == Some(Ready)
    {
      SwitchStates(k, core, preempt, k.q.idle[c].value);
    }
    forall c: nat, c': nat | c < |k'.q.idle| && k'.q.idle[c].Some? && k'.IsCore(c') && c != c'
      ensures k'.q.idle[c].value !in k'.Uses(c') && k'.q.idle[c'] != k'.q.idle[c]
    {
      assert k.q.IsIdle(k.q.idle[c].value);
      if c' != core {
        ElsewhereSame(k, k', core, c');
      } else {
        assert k.q.current[core].value in k.Uses(core);
      }
    }
  }

  lemma SwitchRunning(k: Kernel, core: nat, preempt: bool)
    requires k.Safe() && Can(k, Switch(core, preempt))
    ensures DoSwitch(k, core, preempt).RunningIsCurrent()
  {
    hide Queue.Next, Queue.Pick, DoSwitch, Kernel.Exclusive, Kernel.IdleHolds, Picked, Kernel.PhaseHolds,
      Kernel.StacksExist;
    var k' := DoSwitch(k, core, preempt);
    SwitchIs(k, core, preempt);
    forall u: nat | k'.q.StateOf(u) == Some(Running) ensures k'.q.IsCurrent(u) {
      SwitchStates(k, core, preempt, u);
      if u == Picked(k, core, preempt) {
        assert k'.q.current[core] == Some(u);
      } else {
        var c :| 0 <= c < |k.q.current| && k.q.current[c] == Some(u);
        assert k'.q.current[c] == Some(u);
      }
    }
  }

  /** A switch is safe exactly when no other core runs the task picked. */
  lemma SwitchSafe(k: Kernel, core: nat, preempt: bool)
    requires k.Safe() && Can(k, Switch(core, preempt))
    ensures Do(k, Switch(core, preempt)).Safe() <==> Guarded(k, core, preempt)
    ensures Do(k, Switch(core, preempt)).Exclusive() <==> Guarded(k, core, preempt)
  {
    hide Queue.Next, Queue.Pick, DoSwitch, Kernel.IdleHolds, Kernel.RunningIsCurrent, Kernel.StacksExist,
      Kernel.PhasesHold, Picked;
    var k' := DoSwitch(k, core, preempt);
    SwitchIs(k, core, preempt);
    SwitchStacks(k, core, preempt);
    SwitchIdle(k, core, preempt);
    SwitchRunning(k, core, preempt);
    if Guarded(k, core, preempt) {
      GuardedExclusive(k, k', core, preempt);
    } else {
      var c: nat :| c != core && k.IsCore(c) && k.q.current[c] == Some(Picked(k, core, preempt));
      ElsewhereSame(k, k', core, c);
      assert Picked(k, core, preempt) in k'.Uses(c) && Picked(k, core, preempt) in k'.Uses(core);
    }
  }

  /* Runs. */

  /** One core, running task 0; its idle task, 1, is ready. */
  function Booted(cores: nat): Kernel
    requires 0 < cores
  {
    Kernel(Queue([Some(Entry(Running, false, false)), Some(Entry(Ready, false, false))], [Some(0)] + Nobody(cores - 1),
                 [Some(1)] + Nobody(cores - 1), []),
           Nobody(cores), Zeroes(cores), AllInTask(cores))
  }

  function Nobody(n: nat): (r: seq<Option<nat>>)
    ensures |r| == n && forall i :: 0 <= i < n ==> r[i] == None
  {
    seq(n, i => None)
  }

  function Zeroes(n: nat): (r: seq<nat>)
    ensures |r| == n && forall i :: 0 <= i < n ==> r[i] == 0
  {
    seq(n, i => 0)
  }

  function AllInTask(n: nat): (r: seq<Phase>)
    ensures |r| == n && forall i :: 0 <= i < n ==> r[i] == InTask
  {
    seq(n, i => InTask)
  }

  /** On every core, the current task is running. */
  ghost predicate Calm(k: Kernel) {
    k.Shaped() && forall c: nat :: k.IsCore(c) ==> k.q.StateOf(k.q.current[c].value) == Some(Running)
  }

  lemma BootedSafe(cores: nat)
    requires 0 < cores
    ensures Booted(cores).Safe() && Calm(Booted(cores))
  {
    var k := Booted(cores);
    assert forall c: nat :: k.IsCore(c) ==> c == 0;
    assert k.Uses(0) == {0};
    assert k.q.current[0] == Some(0);
  }

  /** Every step but an unguarded switch is safe. */
  lemma StepSafe(k: Kernel, s: Step)
    requires k.Safe() && Can(k, s) && (s.Switch? ==> Guarded(k, s.core, s.preempt))
    ensures Do(k, s).Safe()
  {
    hide Kernel.Safe, Do, Guarded;
    match s
    case StartCore(c) => StartSafe(k, c);
    case Switch(c, preempt) => SwitchSafe(k, c, preempt);
    case Move(c) => MoveSafe(k, c);
    case FinishSwitch(c) => FinishSafe(k, c);
    case _ => StateStepSafe(k, s);
  }

  /** States `ks`, each reached from the one before by one of the steps `ss`. */
  ghost predicate IsRun(ks: seq<Kernel>, ss: seq<Step>) {
    |ks| == |ss| + 1 && forall i :: 0 <= i < |ss| ==> Can(ks[i], ss[i]) && ks[i + 1] == Do(ks[i], ss[i])
  }

  ghost predicate AllGuarded(ks: seq<Kernel>, ss: seq<Step>)
    requires IsRun(ks, ss)
  {
    forall i :: 0 <= i < |ss| && ss[i].Switch? ==> Guarded(ks[i], ss[i].core, ss[i].preempt)
  }

  /** In every run whose switches are guarded, no two cores are ever on or leaving the same stack, and no
      stack in use is freed. */
  lemma {:induction false} GuardedRunsSafe(ks: seq<Kernel>, ss: seq<Step>, n: nat)
    requires IsRun(ks, ss) && AllGuarded(ks, ss) && ks[0].Safe() && n <= |ss|
    ensures ks[n].Safe()
  {
    hide Kernel.Safe, Can, Do, Guarded;
    if n > 0 {
      GuardedRunsSafe(ks, ss, n - 1);
      StepSafe(ks[n - 1], ss[n - 1]);
    }
  }

  /* Runs in which a task gives up its core in one step. */

  /** A task's sleeping, waiting, blocking or exiting is one step with the switch that follows. */
  ghost predicate Merged(k: Kernel, s: Step, k': Kernel) {
    Can(k, s) && k' == if s.Parks() then DoSwitch(Parked(k, s), s.core, true) else Do(k, s)
  }

  /** The state between a task's giving up its core and the switch. */
  ghost function Parked(k: Kernel, s: Step): (k': Kernel)
    requires s.Parks() && Can(k, s)
    ensures k'.IsCore(s.core) && k'.phase == k.phase && k'.q.current == k.q.current
  {
    Do(k, s)
  }

  /** If every other core's task is running, a switch is guarded. */
  lemma CalmGuards(k: Kernel, core: nat, preempt: bool)
    requires k.Safe() && k.IsCore(core)
    requires forall c: nat :: c != core && k.IsCore(c) ==> k.q.StateOf(k.q.current[c].value) == Some(Running)
    ensures Guarded(k, core, preempt)
  {
    hide Queue.Next, Queue.FirstReady, Kernel.StacksExist, Kernel.RunningIsCurrent, Kernel.PhasesHold;
    PickedIs(k, core, preempt);
    var t := Picked(k, core, preempt);
    forall c: nat | c != core && k.IsCore(c) ensures k.q.current[c] != Some(t) {
      assert k.Uses(core) !! k.Uses(c);
    }
  }

  lemma SwitchCalm(k: Kernel, core: nat, preempt: bool)
    requires k.Safe() && Can(k, Switch(core, preempt))
    requires forall c: nat :: c != core && k.IsCore(c) ==> k.q.StateOf(k.q.current[c].value) == Some(Running)
    ensures Calm(DoSwitch(k, core, preempt))
  {
    hide Queue.Next, Queue.Pick, DoSwitch, Kernel.IdleHolds, Kernel.RunningIsCurrent, Kernel.PhasesHold, Picked;
    var k' := DoSwitch(k, core, preempt);
    SwitchIs(k, core, preempt);
    CalmGuards(k, core, preempt);
    PickedExists(k, core, preempt);
    forall c: nat | k'.IsCore(c) ensures k'.q.StateOf(k'.q.current[c].value) == Some(Running) {
      SwitchStates(k, core, preempt, k'.q.current[c].value);
      if c != core {
        ElsewhereSame(k, k', core, c);
        assert k.Uses(core) !! k.Uses(c);
      }
    }
  }

  /** Steps other than switches leave running tasks running, but for the one that gives up its core. */
  lemma StaysRunning(k: Kernel, s: Step, t: nat)
    requires Can(k, s) && !s.Switch? && k.q.StateOf(t) == Some(Running)
             && (s.Parks() ==> k.q.current[s.core] != Some(t))
    ensures Do(k, s).q.StateOf(t) == Some(Running)
  {
    hide Bumped;
  }

  /** Merged steps keep everything safe, and every core's task running. */
  lemma MergedSafe(k: Kernel, s: Step, k': Kernel)
    requires k.Safe() && Calm(k) && Merged(k, s, k')
    ensures k'.Safe() && Calm(k')
  {
    hide Kernel.Safe, Do, DoSwitch, Guarded;
    if s.Parks() {
      var p := Parked(k, s);
      ParkedIs(k, s);
      StateStepSafe(k, s);
      ParkedCalm(k, s);
      CalmGuards(p, s.core, true);
      SwitchSafe(p, s.core, true);
      SwitchCalm(p, s.core, true);
      SwitchStepIs(p, s.core, true);
    } else if s.Switch? {
      CalmGuards(k, s.core, s.preempt);
      SwitchSafe(k, s.core, s.preempt);
      SwitchCalm(k, s.core, s.preempt);
      SwitchStepIs(k, s.core, s.preempt);
    } else {
      StepSafe(k, s);
      OtherCalm(k, s);
    }
  }

  lemma SwitchStepIs(k: Kernel, core: nat, preempt: bool)
    requires Can(k, Switch(core, preempt))
    ensures Do(k, Switch(core, preempt)) == DoSwitch(k, core, preempt)
  {
    hide DoSwitch;
  }

  lemma ParkedIs(k: Kernel, s: Step)
    requires s.Parks() && Can(k, s)
    ensures Parked(k, s) == Do(k, s) && Can(Parked(k, s), Switch(s.core, true))
  {
  }

  lemma ParkedCalm(k: Kernel, s: Step)
    requires k.Safe() && Calm(k) && s.Parks() && Can(k, s)
    ensures var p := Parked(k, s);
            forall c: nat :: c != s.core && p.IsCore(c) ==> p.q.StateOf(p.q.current[c].value) == Some(Running)
  {
    hide Do, Kernel.StacksExist, Kernel.RunningIsCurrent, Kernel.PhasesHold, Kernel.IdleHolds;
    var p := Parked(k, s);
    forall c: nat | c != s.core && p.IsCore(c) ensures p.q.StateOf(p.q.current[c].value) == Some(Running) {
      assert k.IsCore(c) && k.IsCore(s.core);
      assert k.Uses(s.core) !! k.Uses(c);
      StaysRunning(k, s, k.q.current[c].value);
      ParkedIs(k, s);
    }
  }

  lemma OtherCalm(k: Kernel, s: Step)
    requires Calm(k) && Can(k, s) && !s.Parks() && !s.Switch?
    ensures Calm(Do(k, s))
  {
    hide Bumped;
    var k' := Do(k, s);
    forall c: nat | k'.IsCore(c) ensures k'.q.StateOf(k'.q.current[c].value) == Some(Running) {
      if !(s.StartCore? && c == s.core) {
        assert k.IsCore(c);
        StaysRunning(k, s, k.q.current[c].value);
      }
    }
  }

  /** In every run of merged steps from boot, no two cores are ever on or leaving the same stack, and no
      stack in use is freed. */
  lemma {:induction false} MergedRunsSafe(cores: nat, ks: seq<Kernel>, ss: seq<Step>, n: nat)
    requires 0 < cores && |ks| == |ss| + 1 && ks[0] == Booted(cores) && n <= |ss|
    requires forall i :: 0 <= i < |ss| ==> Merged(ks[i], ss[i], ks[i + 1])
    ensures ks[n].Exclusive() && ks[n].StacksExist() && ks[n].Safe() && Calm(ks[n])
  {
    hide Kernel.Exclusive, Kernel.StacksExist, Kernel.PhasesHold, Kernel.IdleHolds, Kernel.RunningIsCurrent, Merged,
      Calm;
    if n == 0 {
      BootedSafe(cores);
    } else {
      MergedRunsSafe(cores, ks, ss, n - 1);
      MergedSafe(ks[n - 1], ss[n - 1], ks[n]);
    }
  }

  /** A blocked task stays blocked until it is woken, whatever else happens. */
  lemma BlockedUntilWoken(k: Kernel, s: Step, t: nat)
    requires k.Safe() && Can(k, s) && k.q.StateOf(t) == Some(Blocked) && s != Wake(t)
             && (s.Parks() ==> k.q.current[s.core] != Some(t))
    ensures Do(k, s).q.StateOf(t) == Some(Blocked)
  {
    hide Bumped, DoSwitch, Kernel.Exclusive, Kernel.StacksExist, Kernel.PhasesHold, Kernel.RunningIsCurrent;
    if s.Switch? {
      PickedIs(k, s.core, s.preempt);
      SwitchStates(k, s.core, s.preempt, t);
      SwitchStepIs(k, s.core, s.preempt);
    }
  }

  /* Without merging. */

  /** The first core's task blocks; before its core switches, it is woken, and the second core picks it. */
  const RACE: seq<Step> := [StartCore(1), Block(0), Wake(0), Switch(1, true)]

  /** Task 0 is ready while still the first core's current task. */
  function Raced(): Kernel {
    Kernel(Queue([Some(Entry(Ready, false, false)), Some(Entry(Ready, false, false)),
                  Some(Entry(Running, false, false))],
                 [Some(0), Some(2)], [Some(1), Some(2)], []),
           [None, None], [0, 2], [InTask, InTask])
  }

  /** With both cores started. */
  function BothStarted(): Kernel {
    Kernel(Queue([Some(Entry(Running, false, false)), Some(Entry(Ready, false, false)),
                  Some(Entry(Running, false, false))],
                 [Some(0), Some(2)], [Some(1), Some(2)], []),
           [None, None], [0, 2], [InTask, InTask])
  }

  lemma RaceStarts()
    ensures Can(Booted(2), StartCore(1)) && Do(Booted(2), StartCore(1)) == BothStarted() && BothStarted().Safe()
  {
    hide Kernel.Safe;
    BootedSafe(2);
    var k := Booted(2);
    assert Can(k, StartCore(1));
    StartSafe(k, 1);
    assert k.q.Start(1) == BothStarted().q;
    assert k.leaving[1 := None] == [None, None] && k.sp[1 := 2] == [0, 2] && k.phase[1 := InTask] == [InTask, InTask];
  }

  lemma RaceGoesOn()
    ensures Can(BothStarted(), Block(0)) && Can(Do(BothStarted(), Block(0)), Wake(0))
    ensures Do(Do(BothStarted(), Block(0)), Wake(0)) == Raced() && Raced().Safe()
  {
    hide Kernel.Safe;
    RaceStarts();
    var k := BothStarted();
    assert k.q.IsIdle(0) == false;
    StateStepSafe(k, Block(0));
    var blocked := Do(k, Block(0));
    StateStepSafe(blocked, Wake(0));
    assert Do(blocked, Wake(0)).q.tasks == Raced().q.tasks;
  }

  lemma RacePicks()
    ensures Raced().IsCore(1) && Raced().IsCore(0) && Picked(Raced(), 1, true) == 0
  {
    var k := Raced();
    assert k.q.StateOf(0) == Some(Ready) && !k.q.IsIdle(0) && 0 !in k.Busy(1);
    assert k.q.FirstReady(2, 1, k.Busy(1)) == Some(0);
  }

  /** A run that splits a wait from its switch can put two cores on one stack. */
  lemma SplitRunsRace()
    ensures exists ks: seq<Kernel> :: IsRun(ks, RACE) && ks[0] == Booted(2) && !ks[4].Exclusive()
  {
    hide Kernel.Safe, Kernel.Exclusive, Do, Booted, Picked, Raced, BothStarted;
    RaceStarts();
    RaceGoesOn();
    RacePicks();
    var k3 := Raced();
    RaceUnguarded();
    SwitchSafe(k3, 1, true);
    var ks := [Booted(2), BothStarted(), Do(BothStarted(), Block(0)), k3, Do(k3, Switch(1, true))];
    assert IsRun(ks, RACE);
  }

  lemma RaceUnguarded()
    ensures Can(Raced(), Switch(1, true)) && !Guarded(Raced(), 1, true)
  {
    hide Picked;
    RacePicks();
    assert Raced().q.current[0] == Some(0);
  }
}
