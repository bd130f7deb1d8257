/**
 * ReferenceQueueCleaner: the process-wide reclamation scheduler.
 *
 * A CleanerRef is a weak reference to a script-visible value plus a clean()
 * action. Constructing one registers it in the live set `cRefs` (starting the
 * worker and installing the shutdown hook the first time); `clear()` removes it
 * from the live set, clears the referent and runs clean(); the worker thread
 * takes references the collector enqueued, removes them from the live set and
 * runs clean(); the shutdown hook drains the live set.
 *
 * Garbage collection and threads are replaced by explicit events: the
 * collector finding a referent unreachable (ReferentUnreachable), one pass of
 * the worker's loop (WorkerStep), the worker being interrupted, the JVM
 * running the hook. clean() is abstract in the scheduler: every invocation is
 * recorded in `cleanLog`, and the effect of each kind of cleaner is modelled
 * beside that kind (lock_dir_cleaner, LockCleaner, the Windows lock_dir_object).
 */
module ReferenceQueueCleaner {
  import opened Wrappers

  /** Identity of a CleanerRef: refs compare and hash by identity, so an id is the ref. */
  type RefId = nat

  /** Message of the IllegalStateException thrown when registering during shutdown. */
  const ShuttingDown := "JVM is shutting down."

  /** The scheduler's static state. */
  datatype SchedState = SchedState(
    live: set<RefId>,        // cRefs
    pending: set<RefId>,     // refs whose referent is still set: neither collected nor cleared
    queue: seq<RefId>,       // cleanerQueue: refs the collector enqueued, oldest first
    init: bool,              // a worker is running
    shutdown: bool,          // the shutdown hook has started
    hookInstalled: bool,     // shutdownHook != null
    hookRegistrations: nat,  // calls of Runtime.addShutdownHook
    workersStarted: nat,     // workers handed to an executor
    cleanLog: seq<RefId>,    // every clean() invocation, in order
    nextRef: RefId)          // every ref allocated so far is below this

  /** The invariant every reachable scheduler state keeps. */
  ghost predicate Inv(s: SchedState) {
    && (forall r :: r in s.live ==> r < s.nextRef)
    && (forall r :: r in s.pending ==> r < s.nextRef)
    && (forall i :: 0 <= i < |s.queue| ==> s.queue[i] < s.nextRef && s.queue[i] !in s.pending)
    && (forall i, j :: 0 <= i < j < |s.queue| ==> s.queue[i] != s.queue[j])
    && s.hookRegistrations == (if s.hookInstalled then 1 else 0)
    && (s.init ==> s.hookInstalled)
  }

  /** The state before any class of the library is loaded. */
  const Initial := SchedState({}, {}, [], false, false, false, 0, 0, [], 0)

  lemma InitialInv()
    ensures Inv(Initial)
  {
  }

  /**
   * `init()`: when not yet initialised, start a worker, install the shutdown
   * hook if there is none yet, and set `init`; otherwise nothing.
   */
  function Initialised(s: SchedState): (s': SchedState)
    ensures s'.init && (Inv(s) ==> s'.hookInstalled)
    ensures s.init ==> s' == s
    ensures !s.init ==> s'.workersStarted == s.workersStarted + 1
    ensures s.hookInstalled ==> s'.hookRegistrations == s.hookRegistrations
    ensures Inv(s) ==> Inv(s') && s'.hookRegistrations == 1
    ensures s'.live == s.live && s'.pending == s.pending && s'.queue == s.queue
    ensures s'.cleanLog == s.cleanLog && s'.nextRef == s.nextRef && s'.shutdown == s.shutdown
  {
    if s.init then s
    else s.(init := true,
            workersStarted := s.workersStarted + 1,
            hookInstalled := true,
            hookRegistrations := if s.hookInstalled then s.hookRegistrations else s.hookRegistrations + 1)
  }

  /**
   * The CleanerRef constructor: initialise if needed; during shutdown throw
   * IllegalStateException without joining the live set; otherwise add a fresh
   * ref to the live set.
   */
  function Registered(s: SchedState): (res: (Result<RefId, string>, SchedState))
    ensures res.1.init
    ensures res.0.Failure? <==> s.shutdown
    ensures res.0.Failure? ==> res.0.error == ShuttingDown && res.1 == Initialised(s)
    ensures res.0.Success? ==> res.0.value == s.nextRef && res.1.nextRef == res.0.value + 1
    ensures res.0.Success? ==> res.1.live == s.live + {res.0.value} && res.1.pending == s.pending + {res.0.value}
    ensures res.1.queue == s.queue && res.1.cleanLog == s.cleanLog && res.1.shutdown == s.shutdown
    ensures res.1.nextRef >= s.nextRef
    ensures Inv(s) ==> Inv(res.1)
  {
    var s1 := Initialised(s);
    if s1.shutdown then (Failure(ShuttingDown), s1)
    else
      var r := s1.nextRef;
      (Success(r), s1.(live := s1.live + {r}, pending := s1.pending + {r}, nextRef := r + 1))
  }

  /**
   * `CleanerRef.clear()`: leave the live set, clear the referent (so the
   * collector will never enqueue the ref) and invoke clean(), whose exceptions
   * are swallowed. clean() runs on every call; only the cleaners themselves
   * make a second call harmless.
   */
  function Cleared(s: SchedState, r: RefId): (s': SchedState)
    ensures r !in s'.live && r !in s'.pending
    ensures s'.cleanLog == s.cleanLog + [r]
    ensures s'.live == s.live - {r} && s'.pending == s.pending - {r}
    ensures s'.queue == s.queue && s'.init == s.init && s'.shutdown == s.shutdown && s'.nextRef == s.nextRef
    ensures s'.hookInstalled == s.hookInstalled && s'.workersStarted == s.workersStarted
    ensures Inv(s) ==> Inv(s')
  {
    s.(live := s.live - {r}, pending := s.pending - {r}, cleanLog := s.cleanLog + [r])
  }

  /**
   * The collector finds the referent of `r` unreachable and enqueues `r`; a
   * referent already collected or cleared is not enqueued again.
   */
  function Enqueued(s: SchedState, r: RefId): (s': SchedState)
    ensures r !in s'.pending
    ensures r in s.pending ==> s'.queue == s.queue + [r]
    ensures r !in s.pending ==> s' == s
    ensures s'.live == s.live && s'.cleanLog == s.cleanLog && s'.nextRef == s.nextRef
    ensures Inv(s) ==> Inv(s')
  {
    if r in s.pending then s.(pending := s.pending - {r}, queue := s.queue + [r]) else s
  }

  /**
   * One pass of the worker's loop: take the oldest enqueued ref, remove it from
   * the live set and invoke its clean() (exceptions swallowed). With nothing
   * enqueued the worker stays blocked and nothing changes.
   */
  function Dequeued(s: SchedState): (res: (Option<RefId>, SchedState))
    ensures s.queue == [] <==> res.0.None?
    ensures res.0.None? ==> res.1 == s
    ensures res.0.Some? ==> res.0.value == s.queue[0] && res.1.queue == s.queue[1..]
    ensures res.0.Some? ==> res.1.live == s.live - {res.0.value} && res.1.cleanLog == s.cleanLog + [res.0.value]
    ensures res.1.pending == s.pending && res.1.init == s.init && res.1.shutdown == s.shutdown
    ensures res.1.nextRef == s.nextRef
    ensures Inv(s) ==> Inv(res.1)
  {
    if s.queue == [] then (None, s)
    else
      var r := s.queue[0];
      (Some(r), s.(queue := s.queue[1..], live := s.live - {r}, cleanLog := s.cleanLog + [r]))
  }

  /**
   * The worker is interrupted while waiting: `init` drops back to false and the
   * live set is emptied without cleaning anything.
   */
  function Interrupted(s: SchedState): (s': SchedState)
    ensures !s'.init && s'.live == {}
    ensures s'.cleanLog == s.cleanLog && s'.queue == s.queue && s'.pending == s.pending
    ensures Inv(s) ==> Inv(s')
  {
    s.(init := false, live := {})
  }

  /**
   * After `clear()` the collector can no longer enqueue the ref. `clear()`
   * does not take a ref out of the queue, so a ref that was already enqueued
   * still reaches the worker; one that was not is never handed to it.
   */
  lemma ClearedNeverEnqueued(s: SchedState, r: RefId)
    ensures Enqueued(Cleared(s, r), r) == Cleared(s, r)
    ensures r in s.queue ==> r in Cleared(s, r).queue
  {
  }

  /** The collector enqueuing the refs of `found`, one after another. */
  function EnqueuedAll(s: SchedState, found: seq<RefId>): (s': SchedState)
    decreases |found|
  {
    if found == [] then s else EnqueuedAll(Enqueued(s, found[0]), found[1..])
  }

  /**
   * A ref cleared before it was enqueued stays out of the worker's queue
   * whatever the collector finds unreachable afterwards.
   */
  lemma {:induction false} ClearedStaysOutOfQueue(s: SchedState, r: RefId, found: seq<RefId>)
    requires r !in s.queue
    ensures r !in EnqueuedAll(Cleared(s, r), found).queue
  {
    ClearedOutOfReach(Cleared(s, r), r, found);
  }

  /** A ref outside both the pending set and the queue stays out of the queue. */
  lemma {:induction false} ClearedOutOfReach(s: SchedState, r: RefId, found: seq<RefId>)
    requires r !in s.pending && r !in s.queue
    ensures r !in EnqueuedAll(s, found).queue
    decreases |found|
  {
    if found != [] {
      ClearedOutOfReach(Enqueued(s, found[0]), r, found[1..]);
    }
  }

  /**
   * The collection path of one tracked handle, as the library's cleaner test
   * exercises it: a ref registered while the worker runs, whose referent then
   * becomes unreachable, is taken by the worker's next pass; afterwards the live
   * set is what it was before the registration and clean() has run on it once.
   */
  lemma CollectedRefLeavesLiveSet(s: SchedState)
    requires Inv(s) && s.init && !s.shutdown && s.queue == []
    ensures var (reg, s1) := Registered(s);
            reg.Success? &&
            var (taken, s3) := Dequeued(Enqueued(s1, reg.value));
            taken == Some(reg.value) && s3.live == s.live &&
            s3.cleanLog == s.cleanLog + [reg.value] && s3.queue == []
  {
    var (reg, s1) := Registered(s);
    var r := reg.value;
    assert r !in s.live;
    var s2 := Enqueued(s1, r);
    assert s2.queue == [r];
    var (taken, s3) := Dequeued(s2);
    assert s3.live == (s.live + {r}) - {r};
  }

  /** No ref appears twice. */
  predicate Distinct(xs: seq<RefId>) {
    forall i, j :: 0 <= i < j < |xs| ==> xs[i] != xs[j]
  }

  /** `refs.addAll(cRefs)`: the refs of a set as a list, each once, in some order. */
  method Snapshot(s: set<RefId>) returns (xs: seq<RefId>)
    ensures |xs| == |s| && Distinct(xs)
    ensures forall r :: r in xs <==> r in s
  {
    xs := [];
    var rest := s;
    while rest != {}
      invariant rest <= s && |xs| + |rest| == |s| && Distinct(xs)
      invariant forall r :: r in xs <==> r in s && r !in rest
      decreases rest
    {
      var r :| r in rest;
      xs := xs + [r];
      rest := rest - {r};
    }
  }

  /** The scheduler's static fields, as one object. */
  class Scheduler {
    var live: set<RefId>
    var pending: set<RefId>
    var queue: seq<RefId>
    var init: bool
    var shutdown: bool
    var hookInstalled: bool
    var hookRegistrations: nat
    var workersStarted: nat
    var cleanLog: seq<RefId>
    var nextRef: RefId

    ghost function State(): SchedState
      reads this
    {
      SchedState(live, pending, queue, init, shutdown, hookInstalled, hookRegistrations,
                 workersStarted, cleanLog, nextRef)
    }

    ghost predicate Valid()
      reads this
    {
      Inv(State())
    }

    constructor ()
      ensures Valid() && State() == Initial
    {
      live, pending, queue := {}, {}, [];
      init, shutdown, hookInstalled := false, false, false;
      hookRegistrations, workersStarted := 0, 0;
      cleanLog, nextRef := [], 0;
    }

    method Init()
      requires Valid()
      modifies this
      ensures Valid() && State() == Initialised(old(State()))
    {
      if init {
        return;
      }
      workersStarted := workersStarted + 1;
      if !hookInstalled {
        hookInstalled := true;
        hookRegistrations := hookRegistrations + 1;
      }
      init := true;
    }

    /** The CleanerRef constructor; the new ref is the result's value. */
    method Register() returns (r: Result<RefId, string>)
      requires Valid()
      modifies this
      ensures Valid() && (r, State()) == Registered(old(State()))
    {
      if !init {
        Init();
      }
      if shutdown {
        return Failure(ShuttingDown);
      }
      r := Success(nextRef);
      live := live + {nextRef};
      pending := pending + {nextRef};
      nextRef := nextRef + 1;
    }

    /** `CleanerRef.clear()` as far as the scheduler sees it. */
    method Clear(r: RefId)
      requires Valid()
      modifies this
      ensures Valid() && State() == Cleared(old(State()), r)
    {
      live := live - {r};
      pending := pending - {r};
      cleanLog := cleanLog + [r];
    }

    /** The collector finds the referent of `r` unreachable. */
    method ReferentUnreachable(r: RefId)
      requires Valid()
      modifies this
      ensures Valid() && State() == Enqueued(old(State()), r)
    {
      if r in pending {
        pending := pending - {r};
        queue := queue + [r];
      }
    }

    /** One pass of the worker's loop; it runs only while a worker exists. */
    method WorkerStep() returns (r: Option<RefId>)
      requires Valid() && init
      modifies this
      ensures Valid() && (r, State()) == Dequeued(old(State()))
    {
      if queue == [] {
        return None;
      }
      r := Some(queue[0]);
      live := live - {queue[0]};
      cleanLog := cleanLog + [queue[0]];
      queue := queue[1..];
    }

    /** The worker is interrupted while waiting for the queue. */
    method WorkerInterrupted()
      requires Valid() && init
      modifies this
      ensures Valid() && State() == Interrupted(old(State()))
    {
      init := false;
      live := {};
    }

    /**
     * `CleanerShutdownHook.run()`: set `shutdown`, copy the live set into a
     * list and empty it, then clear every ref of the list. Each previously
     * live ref is cleaned exactly once, in the list's order.
     */
    method RunShutdownHook()
      requires Valid()
      modifies this
      ensures Valid() && shutdown && live == {}
      ensures |cleanLog| == |old(cleanLog)| + |old(live)|
      ensures cleanLog[..|old(cleanLog)|] == old(cleanLog)
      ensures var added := cleanLog[|old(cleanLog)|..];
              Distinct(added) && (forall r :: r in added <==> r in old(live))
      ensures State() == old(State()).(shutdown := true, live := {}, pending := old(pending) - old(live),
                                       cleanLog := cleanLog)
    {
      shutdown := true;
      var refs := Snapshot(live);
      live := {};
      var i := 0;
      while i < |refs|
        invariant 0 <= i <= |refs|
        invariant Valid() && shutdown && live == {}
        invariant cleanLog == old(cleanLog) + refs[..i]
        invariant pending == old(pending) - (set j | 0 <= j < i :: refs[j])
        invariant State() == old(State()).(shutdown := true, live := {}, pending := pending, cleanLog := cleanLog)
      {
        Clear(refs[i]);
        i := i + 1;
      }
      assert refs[..i] == refs;
      assert (set j | 0 <= j < i :: refs[j]) == old(live);
      assert cleanLog[|old(cleanLog)|..] == refs;
    }
  }
}
