/** Sleeping mutexes: who holds one and who waits, and how ownership and wake-ups are handed over between
    tasks on any number of cores. */
module Mutexes {
  import opened Bytes
  import opened RunQueues
  import KernelSwitch

  datatype Acquire = Acquired | Queued

  datatype LockError = AlreadyHeld | NotOwner

  datatype Answer<T> = Done(value: T) | Refused(error: LockError)

  /** Who holds a lock, and who waits for it, in order. */
  datatype Lock = Lock(owner: Option<nat>, waiters: seq<nat>)

  const FREE := Lock(None, [])

  class LockState {
    var owner: Option<nat>
    var waiters: seq<nat>

    function Model(): Lock
      reads this
    {
      Lock(owner, waiters)
    }

    constructor ()
      ensures Model() == FREE
    {
      owner, waiters := None, [];
    }

    method TryLock(task: nat) returns (r: Answer<Acquire>)
      modifies this
      ensures old(owner) == None ==> r == Done(Acquired) && Model() == Lock(Some(task), old(waiters))
      ensures old(owner) == Some(task) ==> r == Refused(AlreadyHeld) && Model() == old(Model())
      ensures old(owner).Some? && old(owner) != Some(task) ==>
              r == Done(Queued) && Model() == Lock(old(owner), old(waiters) + [task])
    {
      if owner.None? {
        owner := Some(task);
        return Done(Acquired);
      } else if owner.value == task {
        return Refused(AlreadyHeld);
      }
      waiters := waiters + [task];
      return Done(Queued);
    }

    /** Releases the lock, handing it straight to the longest waiter, which is returned so it can be
        woken. */
    method Unlock(task: nat) returns (r: Answer<Option<nat>>)
      modifies this
      ensures old(owner) != Some(task) ==> r == Refused(NotOwner) && Model() == old(Model())
      ensures old(owner) == Some(task) ==> r == Done(owner) && Model() == HandedOver(old(Model()))
    {
      if owner != Some(task) {
        return Refused(NotOwner);
      }
      if waiters == [] {
        owner := None;
      } else {
        owner, waiters := Some(waiters[0]), waiters[1..];
      }
      return Done(owner);
    }
  }

  function HandedOver(l: Lock): Lock {
    if l.waiters == [] then FREE else Lock(Some(l.waiters[0]), l.waiters[1..])
  }

  /** Where a task is in its locking: queued for a lock, having gone to block for it, or having released
      one and about to wake the task it was handed to. */
  datatype At =
    | Free
    | Queueing(lock: nat)
    | Blocking(lock: nat)
    | Waking(next: nat)

  /** The run queue, the locks, where tasks are, which task is in which critical section, and per lock the
      tasks in the order they came and in the order they were granted it. */
  datatype World = World(q: Queue, locks: map<nat, Lock>, at: map<nat, At>, inside: set<(nat, nat)>,
                         arrivals: map<nat, seq<nat>>, grants: map<nat, seq<nat>>) {
    function LockOf(l: nat): Lock { if l in locks then locks[l] else FREE }
    function AtOf(t: nat): At { if t in at then at[t] else Free }
    function Arrived(l: nat): seq<nat> { if l in arrivals then arrivals[l] else [] }
    function Granted(l: nat): seq<nat> { if l in grants then grants[l] else [] }

    /** A wake-up that came before the task blocked. */
    predicate Pending(t: nat) { q.Has(t) && q.tasks[t].value.wakePending }
    predicate IsBlocked(t: nat) { q.StateOf(t) == Some(Blocked) }
    predicate Alive(t: nat) { q.Has(t) && q.StateOf(t) != Some(Finished) }
    ghost predicate HasWaker(t: nat) { exists u :: AtOf(u) == Waking(t) }

    predicate IsOn(core: nat, t: nat) { q.Started(core) && q.current[core] == Some(t) && q.StateOf(t) == Some(Running) }
  }

  datatype Step =
    | TryLock(core: nat, lock: nat)
    | Block(core: nat)
    | Return(core: nat)
    | Unlock(core: nat, lock: nat)
    | Wake(core: nat)
    /** Anything else the scheduler does; only mutexes block and wake. */
    | Other(step: KernelSwitch.Step, k: KernelSwitch.Kernel)

  ghost predicate Locks(w: World, t: nat, l: nat, w': World) {
    var lock := w.LockOf(l);
    && w.AtOf(t) == Free && lock.owner != Some(t)
    && w' == if lock.owner.None?
             then w.(locks := w.locks[l := lock.(owner := Some(t))], inside := w.inside + {(t, l)},
                     arrivals := w.arrivals[l := w.Arrived(l) + [t]], grants := w.grants[l := w.Granted(l) + [t]])
             else w.(locks := w.locks[l := lock.(waiters := lock.waiters + [t])], at := w.at[t := Queueing(l)],
                     arrivals := w.arrivals[l := w.Arrived(l) + [t]])
  }

  ghost predicate Unlocks(w: World, t: nat, l: nat, w': World) {
    var lock := w.LockOf(l);
    && w.AtOf(t) == Free && (t, l) in w.inside
    && w' == w.(locks := w.locks[l := HandedOver(lock)], inside := w.inside - {(t, l)},
                at := if lock.waiters == [] then w.at else w.at[t := Waking(lock.waiters[0])],
                grants := if lock.waiters == [] then w.grants else w.grants[l := w.Granted(l) + [lock.waiters[0]]])
  }

  ghost predicate Next(w: World, s: Step, w': World) {
    match s
    case TryLock(core, l) => exists t :: w.IsOn(core, t) && Locks(w, t, l, w')
    case Block(core) =>
      exists t :: w.IsOn(core, t) && w.AtOf(t).Queueing?
          && w' == w.(q := w.q.Block(core), at := w.at[t := Blocking(w.AtOf(t).lock)])
    case Return(core) =>
      exists t :: w.IsOn(core, t) && w.AtOf(t).Blocking?
          && w' == w.(at := w.at[t := Free], inside := w.inside + {(t, w.AtOf(t).lock)})
    case Unlock(core, l) => exists t :: w.IsOn(core, t) && Unlocks(w, t, l, w')
    case Wake(core) =>
      exists t :: w.IsOn(core, t) && w.AtOf(t).Waking? && w' == w.(q := w.q.Wake(w.AtOf(t).next), at := w.at[t := Free])
    case Other(step, k) =>
      && !step.Block? && !step.Wake? && k.Safe() && KernelSwitch.Can(k, step) && k.q == w.q
      && (step.Parks() ==> w.AtOf(k.q.current[step.core].value) == Free)
      && w' == w.(q := KernelSwitch.Do(k, step).q)
  }

  /** A task still in a lock's queue has had no wake-up. Once the lock is its own it has exactly one: on
      its way, come early, or used to end its block. A task that is not waiting has none. */
  ghost predicate TaskHolds(w: World, t: nat) {
    match w.AtOf(t)
    case Queueing(l) =>
      && w.Alive(t) && !w.IsBlocked(t)
      && (if t in w.LockOf(l).waiters then w.LockOf(l).owner != Some(t) && !w.Pending(t) && !w.HasWaker(t)
          else w.LockOf(l).owner == Some(t) && (w.Pending(t) <==> !w.HasWaker(t)))
    case Blocking(l) =>
      && w.Alive(t) && !w.Pending(t)
      && (if t in w.LockOf(l).waiters then w.LockOf(l).owner != Some(t) && w.IsBlocked(t) && !w.HasWaker(t)
          else w.LockOf(l).owner == Some(t) && (w.IsBlocked(t) <==> w.HasWaker(t)))
    case _ => !w.Pending(t) && !w.HasWaker(t) && !w.IsBlocked(t)
  }

  ghost predicate LockHolds(w: World, l: nat) {
    var lock := w.LockOf(l);
    && (lock.owner == None ==> lock.waiters == [])
    && (forall i, j :: 0 <= i < j < |lock.waiters| ==> lock.waiters[i] != lock.waiters[j])
    && (forall t :: t in lock.waiters ==> w.AtOf(t) == Queueing(l) || w.AtOf(t) == Blocking(l))
    && w.Arrived(l) == w.Granted(l) + lock.waiters
    && (lock.owner.Some? ==> w.Granted(l) != [] && w.Granted(l)[|w.Granted(l)| - 1] == lock.owner.value)
  }

  ghost predicate InsideHolds(w: World, t: nat, l: nat) {
    (t, l) in w.inside ==> w.LockOf(l).owner == Some(t) && w.AtOf(t) != Queueing(l) && w.AtOf(t) != Blocking(l)
  }

  ghost predicate Holds(w: World) {
    && (forall t: nat :: TaskHolds(w, t))
    && (forall l: nat :: LockHolds(w, l))
    && (forall t: nat, l: nat :: InsideHolds(w, t, l))
    && (forall t: nat, u: nat, n :: w.AtOf(t) == Waking(n) && w.AtOf(u) == Waking(n) ==> t == u)
  }

  /** At most one task is in each critical section. */
  lemma MutualExclusion(w: World, t: nat, u: nat, l: nat)
    requires Holds(w) && (t, l) in w.inside && (u, l) in w.inside
    ensures t == u
  {
    assert InsideHolds(w, t, l) && InsideHolds(w, u, l);
  }

  /** A task's block returns only once the lock is its own. */
  lemma ReturnsOwner(w: World, core: nat, t: nat)
    requires Holds(w) && w.IsOn(core, t) && w.AtOf(t).Blocking?
    ensures w.LockOf(w.AtOf(t).lock).owner == Some(t)
  {
    assert TaskHolds(w, t);
  }

  /* Every step keeps it so. */

  /** A step that starts and ends no waking. */
  ghost predicate SameWakers(w: World, w': World) {
    forall u: nat :: w.AtOf(u).Waking? || w'.AtOf(u).Waking? ==> w'.AtOf(u) == w.AtOf(u)
  }

  lemma WakersSame(w: World, w': World, t: nat)
    requires SameWakers(w, w')
    ensures w'.HasWaker(t) == w.HasWaker(t)
  {
  }

  lemma AcquireKeeps(w: World, t: nat, l: nat, w': World)
    requires Holds(w) && Locks(w, t, l, w') && w.LockOf(l).owner.None?
    ensures Holds(w')
  {
    hide TaskHolds, LockHolds;
    assert forall u: nat :: w'.AtOf(u) == w.AtOf(u);
    forall u: nat ensures TaskHolds(w', u) {
      AcquireTask(w, t, l, w', u);
    }
    forall m: nat ensures LockHolds(w', m) {
      AcquireLock(w, t, l, w', m);
    }
    forall u: nat, m: nat ensures InsideHolds(w', u, m) {
      assert InsideHolds(w, u, m);
    }
  }

  lemma AcquireTask(w: World, t: nat, l: nat, w': World, u: nat)
    requires Holds(w) && Locks(w, t, l, w') && w.LockOf(l).owner.None?
    ensures TaskHolds(w', u)
  {
    hide LockHolds;
    assert forall u: nat :: w'.AtOf(u) == w.AtOf(u);
    WakersSame(w, w', u);
    assert TaskHolds(w, u);
    NobodyWaits(w, l);
  }

  lemma NobodyWaits(w: World, l: nat)
    requires Holds(w) && w.LockOf(l).owner.None?
    ensures w.LockOf(l).waiters == []
  {
    assert LockHolds(w, l);
  }

  lemma AcquireLock(w: World, t: nat, l: nat, w': World, m: nat)
    requires Holds(w) && Locks(w, t, l, w') && w.LockOf(l).owner.None?
    ensures LockHolds(w', m)
  {
    hide TaskHolds, InsideHolds;
    assert LockHolds(w, m) && LockHolds(w, l);
    assert forall u: nat :: w'.AtOf(u) == w.AtOf(u);
  }

  lemma QueueKeeps(w: World, core: nat, t: nat, l: nat, w': World)
    requires Holds(w) && Locks(w, t, l, w') && w.LockOf(l).owner.Some? && w.IsOn(core, t)
    ensures Holds(w')
  {
    hide TaskHolds, LockHolds;
    assert forall u: nat :: u != t ==> w'.AtOf(u) == w.AtOf(u);
    forall u: nat ensures TaskHolds(w', u) {
      QueueTask(w, core, t, l, w', u);
    }
    forall m: nat ensures LockHolds(w', m) {
      QueueLock(w, t, l, w', m);
    }
    forall u: nat, m: nat ensures InsideHolds(w', u, m) {
      assert InsideHolds(w, u, m);
    }
  }

  lemma QueueTask(w: World, core: nat, t: nat, l: nat, w': World, u: nat)
    requires Holds(w) && Locks(w, t, l, w') && w.LockOf(l).owner.Some? && w.IsOn(core, t)
    ensures TaskHolds(w', u)
  {
    hide LockHolds;
    assert forall u: nat :: u != t ==> w'.AtOf(u) == w.AtOf(u);
    WakersSame(w, w', u);
    assert TaskHolds(w, u);
    assert u in w'.LockOf(l).waiters <==> u in w.LockOf(l).waiters || u == t;
  }

  lemma QueueLock(w: World, t: nat, l: nat, w': World, m: nat)
    requires Holds(w) && Locks(w, t, l, w') && w.LockOf(l).owner.Some?
    ensures LockHolds(w', m)
  {
    hide TaskHolds, InsideHolds;
    assert LockHolds(w, m) && LockHolds(w, l);
    assert forall u: nat :: u != t ==> w'.AtOf(u) == w.AtOf(u);
    var lock := w.LockOf(m);
    assert t !in w.LockOf(m).waiters;
    if m == l {
      assert w'.Arrived(l) == w.Granted(l) + lock.waiters + [t] == w'.Granted(l) + w'.LockOf(l).waiters;
    }
  }

  lemma BlockKeeps(w: World, core: nat, t: nat)
    requires Holds(w) && w.IsOn(core, t) && w.AtOf(t).Queueing?
    ensures Holds(w.(q := w.q.Block(core), at := w.at[t := Blocking(w.AtOf(t).lock)]))
  {
    hide LockHolds;
    var w' := w.(q := w.q.Block(core), at := w.at[t := Blocking(w.AtOf(t).lock)]);
    assert forall u: nat :: u != t ==>
             w'.AtOf(u) == w.AtOf(u) && w'.q.Has(u) == w.q.Has(u) && (w.q.Has(u) ==> w'.q.tasks[u] == w.q.tasks[u]);
    forall u: nat ensures TaskHolds(w', u) {
      WakersSame(w, w', u);
      assert TaskHolds(w, u);
    }
    forall m: nat ensures LockHolds(w', m) {
      WaitsAt(w, t, m);
      MovedLock(w, w', t, m);
    }
    forall u: nat, m: nat ensures InsideHolds(w', u, m) {
      assert InsideHolds(w, u, m);
    }
  }

  /** Locks stay as they are while their waiters go on waiting. */
  lemma MovedLock(w: World, w': World, t: nat, m: nat)
    requires LockHolds(w, m) && w'.locks == w.locks && w'.arrivals == w.arrivals && w'.grants == w.grants
    requires forall u: nat :: u != t ==> w'.AtOf(u) == w.AtOf(u)
    requires t in w.LockOf(m).waiters ==> w'.AtOf(t) == Queueing(m) || w'.AtOf(t) == Blocking(m)
    ensures LockHolds(w', m)
  {
  }

  lemma ReturnKeeps(w: World, core: nat, t: nat)
    requires Holds(w) && w.IsOn(core, t) && w.AtOf(t).Blocking?
    ensures Holds(w.(at := w.at[t := Free], inside := w.inside + {(t, w.AtOf(t).lock)}))
  {
    hide LockHolds;
    var w' := w.(at := w.at[t := Free], inside := w.inside + {(t, w.AtOf(t).lock)});
    assert forall u: nat :: u != t ==> w'.AtOf(u) == w.AtOf(u);
    assert TaskHolds(w, t);
    forall u: nat ensures TaskHolds(w', u) {
      WakersSame(w, w', u);
      assert TaskHolds(w, u);
    }
    forall m: nat ensures LockHolds(w', m) {
      WaitsAt(w, t, m);
      MovedLock(w, w', t, m);
    }
    forall u: nat, m: nat ensures InsideHolds(w', u, m) {
      assert InsideHolds(w, u, m);
    }
  }

  lemma WaitsAt(w: World, t: nat, m: nat)
    requires Holds(w)
    ensures t in w.LockOf(m).waiters ==> w.AtOf(t) == Queueing(m) || w.AtOf(t) == Blocking(m)
  {
    assert LockHolds(w, m);
  }

  lemma WakeKeeps(w: World, t: nat)
    requires Holds(w) && w.q.StateOf(t) == Some(Running) && w.AtOf(t).Waking?
    ensures Holds(w.(q := w.q.Wake(w.AtOf(t).next), at := w.at[t := Free]))
  {
    hide LockHolds;
    var n := w.AtOf(t).next;
    var w' := w.(q := w.q.Wake(n), at := w.at[t := Free]);
    assert forall u: nat :: u != t ==> w'.AtOf(u) == w.AtOf(u);
    assert forall u: nat :: u != n ==> w'.q.Has(u) == w.q.Has(u) && (w.q.Has(u) ==> w'.q.tasks[u] == w.q.tasks[u]);
    assert TaskHolds(w, n) && w.HasWaker(n);
    forall u: nat ensures TaskHolds(w', u) {
      assert TaskHolds(w, u);
      WakerGone(w, w', t, u);
    }
    forall m: nat ensures LockHolds(w', m) {
      WaitsAt(w, t, m);
      MovedLock(w, w', t, m);
    }
    forall u: nat, m: nat ensures InsideHolds(w', u, m) {
      assert InsideHolds(w, u, m);
    }
  }

  lemma WakerGone(w: World, w': World, t: nat, u: nat)
    requires Holds(w) && w.AtOf(t).Waking? && !w'.AtOf(t).Waking? && forall x: nat :: x != t ==> w'.AtOf(x) == w.AtOf(x)
    ensures w'.HasWaker(u) <==> w.HasWaker(u) && u != w.AtOf(t).next
  {
    hide TaskHolds, LockHolds, InsideHolds;
    if w'.HasWaker(u) {
      var x: nat :| w'.AtOf(x) == Waking(u);
      assert w.AtOf(x) == Waking(u);
    }
    if w.HasWaker(u) && u != w.AtOf(t).next {
      var x: nat :| w.AtOf(x) == Waking(u);
      assert w'.AtOf(x) == Waking(u);
    }
  }

  /** Releasing a lock nobody waits for. */
  lemma ReleaseKeeps(w: World, t: nat, l: nat, w': World)
    requires Holds(w) && Unlocks(w, t, l, w') && w.LockOf(l).waiters == []
    ensures Holds(w')
  {
    hide LockHolds;
    assert InsideHolds(w, t, l);
    assert forall u: nat :: w'.AtOf(u) == w.AtOf(u);
    forall u: nat ensures TaskHolds(w', u) {
      WakersSame(w, w', u);
      assert TaskHolds(w, u);
    }
    forall m: nat ensures LockHolds(w', m) {
      ReleaseLock(w, t, l, w', m);
    }
    forall u: nat, m: nat ensures InsideHolds(w', u, m) {
      assert InsideHolds(w, u, m);
    }
  }

  lemma ReleaseLock(w: World, t: nat, l: nat, w': World, m: nat)
    requires Holds(w) && Unlocks(w, t, l, w') && w.LockOf(l).waiters == []
    ensures LockHolds(w', m)
  {
    hide TaskHolds;
    assert LockHolds(w, m);
    assert forall u: nat :: w'.AtOf(u) == w.AtOf(u);
  }

  /** Handing a lock to its longest waiter. */
  lemma HandOverKeeps(w: World, core: nat, t: nat, l: nat, w': World)
    requires Holds(w) && Unlocks(w, t, l, w') && w.LockOf(l).waiters != [] && w.IsOn(core, t)
    ensures Holds(w')
  {
    hide TaskHolds, LockHolds;
    var n := w.LockOf(l).waiters[0];
    assert forall u: nat :: u != t ==> w'.AtOf(u) == w.AtOf(u);
    HeirWaits(w, l);
    forall u: nat ensures TaskHolds(w', u) {
      HandOverTask(w, core, t, l, w', u);
    }
    forall m: nat ensures LockHolds(w', m) {
      HandOverLock(w, t, l, w', m);
    }
    forall u: nat, m: nat ensures InsideHolds(w', u, m) {
      assert InsideHolds(w, u, m) && InsideHolds(w, t, l);
    }
    forall u: nat, v: nat, x | w'.AtOf(u) == Waking(x) && w'.AtOf(v) == Waking(x) ensures u == v {
      assert x == n ==> !w.HasWaker(n);
      assert u != t ==> w.AtOf(u) == Waking(x);
      assert v != t ==> w.AtOf(v) == Waking(x);
    }
  }

  lemma HeirWaits(w: World, l: nat)
    requires Holds(w) && w.LockOf(l).waiters != []
    ensures var n := w.LockOf(l).waiters[0];
            && (w.AtOf(n) == Queueing(l) || w.AtOf(n) == Blocking(l)) && !w.HasWaker(n) && !w.Pending(n)
               && w.LockOf(l).owner != Some(n)
            && n !in w.LockOf(l).waiters[1..]
  {
    var waiters := w.LockOf(l).waiters;
    var n := waiters[0];
    assert LockHolds(w, l) && n in waiters;
    assert TaskHolds(w, n);
  }

  lemma HandOverTask(w: World, core: nat, t: nat, l: nat, w': World, u: nat)
    requires Holds(w) && Unlocks(w, t, l, w') && w.LockOf(l).waiters != [] && w.IsOn(core, t)
    ensures TaskHolds(w', u)
  {
    hide LockHolds, InsideHolds;
    var waiters := w.LockOf(l).waiters;
    var n := waiters[0];
    HeirWaits(w, l);
    assert TaskHolds(w, u) && TaskHolds(w, t);
    assert u in waiters <==> u == n || u in waiters[1..] by { assert waiters == [n] + waiters[1..]; }
    WakerComes(w, w', t, n, u);
    OwnerInside(w, t, l);
  }

  lemma OwnerInside(w: World, t: nat, l: nat)
    requires Holds(w) && (t, l) in w.inside
    ensures w.LockOf(l).owner == Some(t)
  {
    assert InsideHolds(w, t, l);
  }

  lemma WakerComes(w: World, w': World, t: nat, n: nat, u: nat)
    requires !w.AtOf(t).Waking? && w'.AtOf(t) == Waking(n) && forall x: nat :: x != t ==> w'.AtOf(x) == w.AtOf(x)
    ensures w'.HasWaker(u) <==> w.HasWaker(u) || u == n
  {
    if w'.HasWaker(u) {
      var x: nat :| w'.AtOf(x) == Waking(u);
      assert x == t || w.AtOf(x) == Waking(u);
    }
    if w.HasWaker(u) {
      var x: nat :| w.AtOf(x) == Waking(u);
      assert w'.AtOf(x) == Waking(u);
    }
  }

  lemma HandOverLock(w: World, t: nat, l: nat, w': World, m: nat)
    requires Holds(w) && Unlocks(w, t, l, w') && w.LockOf(l).waiters != []
    ensures LockHolds(w', m)
  {
    hide TaskHolds, InsideHolds;
    assert LockHolds(w, m) && LockHolds(w, l);
    var waiters := w.LockOf(l).waiters;
    assert forall u: nat :: u != t ==> w'.AtOf(u) == w.AtOf(u);
    assert t !in w.LockOf(m).waiters;
    if m == l {
      assert waiters == [waiters[0]] + waiters[1..];
      assert w'.Arrived(l) == w.Granted(l) + [waiters[0]] + waiters[1..] == w'.Granted(l) + w'.LockOf(l).waiters;
    }
  }

  /** What scheduler steps other than blocking and waking leave of a task. */
  lemma OthersLeave(k: KernelSwitch.Kernel, s: KernelSwitch.Step, t: nat)
    requires k.Safe() && KernelSwitch.Can(k, s) && !s.Block? && !s.Wake? && k.q.Has(t)
    ensures var q' := KernelSwitch.Do(k, s).q;
            && (k.q.StateOf(t) != Some(Finished) && !(s.Parks() && k.q.current[s.core] == Some(t)) ==>
                q'.Has(t) && q'.StateOf(t) != Some(Finished))
            && (q'.Has(t) ==> q'.tasks[t].value.wakePending == k.q.tasks[t].value.wakePending)
            && (q'.StateOf(t) == Some(Blocked) ==> k.q.StateOf(t) == Some(Blocked))
            && (k.q.StateOf(t) == Some(Blocked) && !(s.Parks() && k.q.current[s.core] == Some(t)) ==>
                q'.StateOf(t) == Some(Blocked))
  {
    hide Bumped, KernelSwitch.DoSwitch, KernelSwitch.Kernel.Safe;
    if s.Switch? {
      SwitchLeaves(k, s.core, s.preempt, t);
      KernelSwitch.SwitchStepIs(k, s.core, s.preempt);
    }
  }

  lemma SwitchLeaves(k: KernelSwitch.Kernel, core: nat, preempt: bool, t: nat)
    requires k.Safe() && KernelSwitch.Can(k, KernelSwitch.Switch(core, preempt)) && k.q.Has(t)
    ensures var q' := KernelSwitch.DoSwitch(k, core, preempt).q;
            && (k.q.StateOf(t) != Some(Finished) ==> q'.Has(t) && q'.StateOf(t) != Some(Finished))
            && (q'.Has(t) ==> q'.tasks[t].value.wakePending == k.q.tasks[t].value.wakePending)
            && (q'.StateOf(t) == Some(Blocked) <==> k.q.StateOf(t) == Some(Blocked))
  {
    hide Queue.Next, KernelSwitch.Reaped, KernelSwitch.Kernel.Exclusive, KernelSwitch.Kernel.StacksExist,
      KernelSwitch.Kernel.PhasesHold, KernelSwitch.Kernel.RunningIsCurrent;
    KernelSwitch.SwitchStates(k, core, preempt, t);
    KernelSwitch.PickedIs(k, core, preempt);
  }

  lemma OthersKeep(w: World, k: KernelSwitch.Kernel, s: KernelSwitch.Step)
    requires Holds(w) && !s.Block? && !s.Wake? && k.Safe() && KernelSwitch.Can(k, s) && k.q == w.q
    requires s.Parks() ==> w.AtOf(k.q.current[s.core].value) == Free
    ensures Holds(w.(q := KernelSwitch.Do(k, s).q))
  {
    hide LockHolds, KernelSwitch.Do, KernelSwitch.Can, KernelSwitch.Kernel.Safe;
    var w' := w.(q := KernelSwitch.Do(k, s).q);
    assert forall u: nat :: w'.AtOf(u) == w.AtOf(u);
    forall u: nat ensures TaskHolds(w', u) {
      WakersSame(w, w', u);
      assert TaskHolds(w, u);
      if w.q.Has(u) {
        OthersLeave(k, s, u);
      } else {
        NewTask(k, s, u);
      }
    }
    forall m: nat ensures LockHolds(w', m) {
      WaitsAt(w, 0, m);
      MovedLock(w, w', 0, m);
    }
    forall u: nat, m: nat ensures InsideHolds(w', u, m) {
      assert InsideHolds(w, u, m);
    }
  }

  /** New tasks are not blocked, and have not been woken. */
  lemma NewTask(k: KernelSwitch.Kernel, s: KernelSwitch.Step, t: nat)
    requires k.Safe() && KernelSwitch.Can(k, s) && !k.q.Has(t)
    ensures var q' := KernelSwitch.Do(k, s).q;
            q'.Has(t) ==> !q'.tasks[t].value.wakePending && q'.StateOf(t) != Some(Blocked)
  {
    hide Bumped, Queue.Next, KernelSwitch.Reaped, KernelSwitch.Kernel.Safe;
    if s.Switch? {
      KernelSwitch.SwitchStates(k, s.core, s.preempt, t);
    }
  }

  lemma StepKeeps(w: World, s: Step, w': World)
    requires Holds(w) && Next(w, s, w')
    ensures Holds(w')
  {
    hide Holds, KernelSwitch.Do, KernelSwitch.Can, KernelSwitch.Kernel.Safe, Queue.Block, Queue.Wake;
    match s
    case TryLock(core, l) =>
      var t: nat :| w.IsOn(core, t) && Locks(w, t, l, w');
      if w.LockOf(l).owner.None? {
        AcquireKeeps(w, t, l, w');
      } else {
        QueueKeeps(w, core, t, l, w');
      }
    case Block(core) =>
      var t: nat :| w.IsOn(core, t) && w.AtOf(t).Queueing?
        && w' == w.(q := w.q.Block(core), at := w.at[t := Blocking(w.AtOf(t).lock)]);
      BlockKeeps(w, core, t);
    case Return(core) =>
      var t: nat :| w.IsOn(core, t) && w.AtOf(t).Blocking?
        && w' == w.(at := w.at[t := Free], inside := w.inside + {(t, w.AtOf(t).lock)});
      ReturnKeeps(w, core, t);
    case Unlock(core, l) =>
      var t: nat :| w.IsOn(core, t) && Unlocks(w, t, l, w');
      if w.LockOf(l).waiters == [] {
        ReleaseKeeps(w, t, l, w');
      } else {
        HandOverKeeps(w, core, t, l, w');
      }
    case Wake(core) =>
      var t: nat :| w.IsOn(core, t) && w.AtOf(t).Waking?
        && w' == w.(q := w.q.Wake(w.AtOf(t).next), at := w.at[t := Free]);
      WakeKeeps(w, t);
    case Other(step, k) => OthersKeep(w, k, step);
  }

  ghost predicate Starts(w: World) {
    && w.locks == map[] && w.at == map[] && w.inside == {} && w.arrivals == map[] && w.grants == map[]
    && forall t: nat :: !w.Pending(t) && !w.IsBlocked(t)
  }

  /** In every run of any tasks and locks: at most one task is in each critical section, a block returns
      only to the owner, every task is granted a lock in the order it came, and has had exactly one wake-up
      for it. */
  lemma {:induction false} RunsHold(ws: seq<World>, ss: seq<Step>, n: nat)
    requires |ws| == |ss| + 1 && Starts(ws[0]) && n <= |ss|
             && forall i :: 0 <= i < |ss| ==> Next(ws[i], ss[i], ws[i + 1])
    ensures Holds(ws[n])
    ensures forall t: nat, u: nat, l: nat :: (t, l) in ws[n].inside && (u, l) in ws[n].inside ==> t == u
    ensures forall l :: ws[n].Arrived(l) == ws[n].Granted(l) + ws[n].LockOf(l).waiters
  {
    hide Next;
    if n > 0 {
      RunsHold(ws, ss, n - 1);
      StepKeeps(ws[n - 1], ss[n - 1], ws[n]);
    }
    forall t: nat, u: nat, l: nat | (t, l) in ws[n].inside && (u, l) in ws[n].inside ensures t == u {
      MutualExclusion(ws[n], t, u, l);
    }
    forall l: nat ensures ws[n].Arrived(l) == ws[n].Granted(l) + ws[n].LockOf(l).waiters {
      assert LockHolds(ws[n], l);
    }
  }
}
