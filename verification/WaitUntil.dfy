/** Waiting for a condition: no notification is lost between a task's looking and its waiting. */
module WaitUntil {
  import opened Bytes
  import opened RunQueues
  import KernelSwitch

  /** Where a task is in its wait: it saw generation `seen`, then found its condition false, then gave up
      its core. */
  datatype At =
    | Elsewhere
    | Looked(event: nat, seen: nat)
    | Tested(event: nat, seen: nat)
    | Parked(event: nat, seen: nat)

  /** The run queue, where tasks are, the tasks whose condition holds now, and the notifications still to
      come for changes already made. */
  datatype World = World(q: Queue, at: map<nat, At>, ready: set<nat>, pending: map<nat, nat>) {
    function AtOf(t: nat): At { if t in at then at[t] else Elsewhere }

    function Pending(event: nat): nat { if event in pending then pending[event] else 0 }
  }

  datatype Step =
    /** The task on `core` reads the event's generation. */
    | Look(core: nat, event: nat)
    /** ... tests its condition. */
    | Test(core: nat)
    /** ... and, its condition false, waits unless the generation has moved on. */
    | Wait(core: nat)
    /** Someone changes what conditions on `event` depend on, and will notify it. */
    | Change(event: nat, ready: set<nat>)
    /** Someone makes conditions false. */
    | Undo(ready: set<nat>)
    | Notify(event: nat)
    /** Anything else the scheduler does. */
    | Other(step: KernelSwitch.Step, k: KernelSwitch.Kernel)

  ghost predicate IsOn(w: World, core: nat, t: nat) {
    w.q.Started(core) && w.q.current[core] == Some(t) && w.q.StateOf(t) == Some(Running)
  }

  ghost predicate Next(w: World, s: Step, w': World) {
    match s
    case Look(core, event) =>
      exists t :: IsOn(w, core, t) && (w.AtOf(t).Elsewhere? || w.AtOf(t).Parked?)
          && w' == w.(at := w.at[t := Looked(event, w.q.Generation(event))])
    case Test(core) =>
      exists t :: IsOn(w, core, t) && w.AtOf(t).Looked? &&
        w' == w.(at := w.at[t := if t in w.ready then Elsewhere else Tested(w.AtOf(t).event, w.AtOf(t).seen)])
    case Wait(core) =>
      exists t :: IsOn(w, core, t) && w.AtOf(t).Tested? &&
        w' == w.(q := w.q.Wait(core, w.AtOf(t).event, w.AtOf(t).seen),
                 at := w.at[t := Parked(w.AtOf(t).event, w.AtOf(t).seen)])
    case Change(event, ready) =>
      && (forall t :: t in ready && t !in w.ready && !w.AtOf(t).Elsewhere? ==> w.AtOf(t).event == event)
      && w' == w.(ready := ready, pending := w.pending[event := w.Pending(event) + 1])
    case Undo(ready) => ready <= w.ready && w' == w.(ready := ready)
    case Notify(event) =>
      w.Pending(event) > 0 && w' == w.(q := w.q.Notify(event), pending := w.pending[event := w.Pending(event) - 1])
    case Other(step, k) =>
      !step.Wait? && !step.Notify? && KernelSwitch.Can(k, step) && k.q == w.q
        && w' == w.(q := KernelSwitch.Do(k, step).q)
  }

  /** A task that waits has seen the last notification there was; if its condition holds, another is
      still to come. The same goes for one about to wait that would. */
  predicate Kept(w: World, t: nat) {
    var at, state := w.AtOf(t), w.q.StateOf(t);
    && (!at.Elsewhere? ==> at.seen <= w.q.Generation(at.event))
    && (at.Tested? && at.seen == w.q.Generation(at.event) && t in w.ready ==> w.Pending(at.event) > 0)
    && (state.Some? && state.value.Waiting? ==>
          var e := state.value.event;
          at == Parked(e, w.q.Generation(e)) && (t in w.ready ==> w.Pending(e) > 0))
  }

  ghost predicate NothingLost(w: World) {
    forall t: nat :: Kept(w, t)
  }

  /** Scheduler steps that are no wait and no notification start no wait and move no generation. */
  lemma OthersAreQuiet(k: KernelSwitch.Kernel, s: KernelSwitch.Step, t: nat, e: nat)
    requires KernelSwitch.Can(k, s) && !s.Wait? && !s.Notify?
    ensures KernelSwitch.Do(k, s).q.generations == k.q.generations
    ensures KernelSwitch.Do(k, s).q.StateOf(t) == Some(Waiting(e)) ==> k.q.StateOf(t) == Some(Waiting(e))
  {
    hide Queue.Next, Bumped, KernelSwitch.Reaped;
    if s.Switch? {
      KernelSwitch.PickIs(k, s.core, s.preempt);
    }
  }

  lemma NotifyIs(q: Queue, event: nat, t: nat, e: nat)
    ensures q.Notify(event).Generation(e) == q.Generation(e) + if e == event then 1 else 0
    ensures q.Notify(event).StateOf(t) == Some(Waiting(e)) <==> q.StateOf(t) == Some(Waiting(e)) && e != event
  {
  }

  lemma LookKeeps(w: World, t: nat, event: nat)
    requires NothingLost(w) && w.q.StateOf(t) == Some(Running)
    ensures NothingLost(w.(at := w.at[t := Looked(event, w.q.Generation(event))]))
  {
    var w' := w.(at := w.at[t := Looked(event, w.q.Generation(event))]);
    forall u: nat ensures Kept(w', u) {
      assert Kept(w, u) && (u != t ==> w'.AtOf(u) == w.AtOf(u));
    }
  }

  lemma TestKeeps(w: World, t: nat)
    requires NothingLost(w) && w.q.StateOf(t) == Some(Running) && w.AtOf(t).Looked?
    ensures NothingLost(w.(at :=
                           w.at[t := if t in w.ready then Elsewhere else Tested(w.AtOf(t).event, w.AtOf(t).seen)]))
  {
    var w' := w.(at := w.at[t := if t in w.ready then Elsewhere else Tested(w.AtOf(t).event, w.AtOf(t).seen)]);
    forall u: nat ensures Kept(w', u) {
      assert Kept(w, u) && (u != t ==> w'.AtOf(u) == w.AtOf(u));
    }
  }

  lemma WaitKeeps(w: World, core: nat, t: nat)
    requires NothingLost(w) && IsOn(w, core, t) && w.AtOf(t).Tested?
    ensures NothingLost(w.(q := w.q.Wait(core, w.AtOf(t).event, w.AtOf(t).seen),
                           at := w.at[t := Parked(w.AtOf(t).event, w.AtOf(t).seen)]))
  {
    var w' := w.(q := w.q.Wait(core, w.AtOf(t).event, w.AtOf(t).seen),
                 at := w.at[t := Parked(w.AtOf(t).event, w.AtOf(t).seen)]);
    forall u: nat ensures Kept(w', u) {
      assert Kept(w, u) && (u != t ==> w'.AtOf(u) == w.AtOf(u) && w'.q.StateOf(u) == w.q.StateOf(u));
      assert forall e :: w'.q.Generation(e) == w.q.Generation(e);
    }
  }

  lemma NotifyKeeps(w: World, event: nat)
    requires NothingLost(w) && w.Pending(event) > 0
    ensures NothingLost(w.(q := w.q.Notify(event), pending := w.pending[event := w.Pending(event) - 1]))
  {
    hide Queue.Notify, Queue.Generation;
    var w' := w.(q := w.q.Notify(event), pending := w.pending[event := w.Pending(event) - 1]);
    forall u: nat ensures Kept(w', u) {
      assert Kept(w, u) && w'.AtOf(u) == w.AtOf(u);
      var at, state := w.AtOf(u), w'.q.StateOf(u);
      if !at.Elsewhere? {
        NotifyIs(w.q, event, u, at.event);
      }
      if state.Some? && state.value.Waiting? {
        NotifyIs(w.q, event, u, state.value.event);
      }
    }
  }

  lemma OthersKeep(w: World, q': Queue)
    requires NothingLost(w) && q'.generations == w.q.generations
    requires forall t: nat, e :: q'.StateOf(t) == Some(Waiting(e)) ==> w.q.StateOf(t) == Some(Waiting(e))
    ensures NothingLost(w.(q := q'))
  {
    var w' := w.(q := q');
    forall u: nat ensures Kept(w', u) {
      assert Kept(w, u) && w'.AtOf(u) == w.AtOf(u) && forall e :: w'.Pending(e) == w.Pending(e);
      assert forall e :: q'.Generation(e) == w.q.Generation(e);
    }
  }

  lemma OthersNothingLost(w: World, step: KernelSwitch.Step, k: KernelSwitch.Kernel)
    requires NothingLost(w) && !step.Wait? && !step.Notify? && KernelSwitch.Can(k, step) && k.q == w.q
    ensures NothingLost(w.(q := KernelSwitch.Do(k, step).q))
  {
    hide KernelSwitch.Do, KernelSwitch.Can, NothingLost;
    var q' := KernelSwitch.Do(k, step).q;
    OthersAreQuiet(k, step, 0, 0);
    forall t: nat, e: nat | q'.StateOf(t) == Some(Waiting(e)) ensures w.q.StateOf(t) == Some(Waiting(e)) {
      OthersAreQuiet(k, step, t, e);
    }
    OthersKeep(w, q');
  }

  lemma ChangeKeeps(w: World, event: nat, ready: set<nat>)
    requires NothingLost(w)
             && forall t :: t in ready && t !in w.ready && !w.AtOf(t).Elsewhere? ==> w.AtOf(t).event == event
    ensures NothingLost(w.(ready := ready, pending := w.pending[event := w.Pending(event) + 1]))
  {
    var w' := w.(ready := ready, pending := w.pending[event := w.Pending(event) + 1]);
    forall u: nat ensures Kept(w', u) {
      assert Kept(w, u) && w'.AtOf(u) == w.AtOf(u);
    }
  }

  /** Every step keeps it so. */
  lemma NothingIsLost(w: World, s: Step, w': World)
    requires NothingLost(w) && Next(w, s, w')
    ensures NothingLost(w')
  {
    hide NothingLost, Queue.Generation, Queue.Wait, Queue.Notify, KernelSwitch.Do, KernelSwitch.Can;
    match s
    case Look(core, event) =>
      var t :| IsOn(w, core, t) && w' == w.(at := w.at[t := Looked(event, w.q.Generation(event))]);
      LookKeeps(w, t, event);
    case Test(core) =>
      var t :| IsOn(w, core, t) && w.AtOf(t).Looked?
        && w' == w.(at := w.at[t := if t in w.ready then Elsewhere else Tested(w.AtOf(t).event, w.AtOf(t).seen)]);
      TestKeeps(w, t);
    case Wait(core) =>
      var t :| IsOn(w, core, t) && w.AtOf(t).Tested? &&
               w' == w.(q := w.q.Wait(core, w.AtOf(t).event, w.AtOf(t).seen),
                        at := w.at[t := Parked(w.AtOf(t).event, w.AtOf(t).seen)]);
      WaitKeeps(w, core, t);
    case Change(event, ready) => ChangeKeeps(w, event, ready);
    case Undo(ready) => UndoKeeps(w, ready);
    case Notify(event) => NotifyKeeps(w, event);
    case Other(step, k) => OthersNothingLost(w, step, k);
  }

  lemma UndoKeeps(w: World, ready: set<nat>)
    requires NothingLost(w) && ready <= w.ready
    ensures NothingLost(w.(ready := ready))
  {
    forall u: nat ensures Kept(w.(ready := ready), u) {
      assert Kept(w, u) && w.(ready := ready).AtOf(u) == w.AtOf(u);
    }
  }

  /** No wake-up is lost in any run: as long as a task waits although its condition holds, a notification
      of its event is still to come. */
  lemma {:induction false} NoLostWakeUp(ws: seq<World>, ss: seq<Step>, n: nat, t: nat, e: nat)
    requires |ws| == |ss| + 1 && n <= |ss| && (forall i :: 0 <= i < |ss| ==> Next(ws[i], ss[i], ws[i + 1]))
    requires ws[0].at == map[] && forall u: nat, e' :: ws[0].q.StateOf(u) != Some(Waiting(e'))
    ensures NothingLost(ws[n])
    ensures ws[n].q.StateOf(t) == Some(Waiting(e)) && t in ws[n].ready ==> ws[n].Pending(e) > 0
  {
    hide Next;
    if n > 0 {
      NoLostWakeUp(ws, ss, n - 1, t, e);
      NothingIsLost(ws[n - 1], ss[n - 1], ws[n]);
    }
    assert Kept(ws[n], t);
  }
}
