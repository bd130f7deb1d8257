/**
 * Whole-library runs over the models: a script takes a directory lock or a
 * file lock, drops or frees it, and the collector, the worker and the
 * shutdown hook do their part. Each method builds its own scheduler, so the
 * outcome depends only on its inputs.
 */
module Scenarios {
  import opened Wrappers
  import opened LuaValues
  import opened ReferenceQueueCleaner
  import opened LuajLFSCommon
  import LuajLFSJSE
  import LuajLFSWindows

  /**
   * `lfs.lock_dir` followed by the handle becoming garbage: one ref is live
   * while the handle is reachable, none once the worker has taken it, and the
   * marker file is gone.
   */
  method LockDirCollected(dir: Path) returns (o: Outcome, liveWhileHeld: nat, liveAfterCollect: nat, disk: set<Path>)
    ensures o.Returned? && o.v.Userdata?
    ensures liveWhileHeld == 1 && liveAfterCollect == 0
    ensures LockFile(dir) !in disk
  {
    var sched := new Scheduler();
    var cleaner;
    o, disk, cleaner := LuajLFSJSE.LockDir(sched, {}, dir, None);
    liveWhileHeld := |sched.live|;
    sched.ReferentUnreachable(cleaner.id);
    var taken := sched.WorkerStep();
    if taken == Some(cleaner.id) {
      disk := cleaner.Clean(disk, false);
    }
    liveAfterCollect := |sched.live|;
  }

  /**
   * Freeing a directory lock twice: clean() runs on both calls, the marker
   * is deleted by the first, and the second leaves the disk as it is, even a
   * marker that another process created in between.
   */
  method DirLockFreedTwice(dir: Path) returns (afterFirst: set<Path>, afterSecond: set<Path>, cleans: nat)
    ensures LockFile(dir) !in afterFirst
    ensures afterSecond == afterFirst + {LockFile(dir)}
    ensures cleans == 2
  {
    var sched := new Scheduler();
    var o, disk, cleaner := LuajLFSJSE.LockDir(sched, {}, dir, None);
    afterFirst := cleaner.Clear(sched, disk, false);
    afterSecond := cleaner.Clear(sched, afterFirst + {LockFile(dir)}, false);
    cleans := |sched.cleanLog|;
  }

  /**
   * `lock_dir` while the JVM shuts down: the cleaner cannot register, the
   * script sees the IllegalStateException, and the marker it created stays.
   */
  method LockDirDuringShutdown(dir: Path) returns (o: Outcome, disk: set<Path>)
    ensures o == Raised(ShuttingDown)
    ensures LockFile(dir) in disk
  {
    var sched := new Scheduler();
    sched.RunShutdownHook();
    var cleaner;
    o, disk, cleaner := LuajLFSJSE.LockDir(sched, {}, dir, None);
  }

  /**
   * A second `lock_dir` on a directory whose marker exists fails with
   * "File exists" and registers nothing.
   */
  method LockDirTwice(dir: Path) returns (first: Outcome, second: Outcome, live: nat)
    ensures first.Returned? && first.v.Userdata?
    ensures second == Returned(ErrFileExists)
    ensures live == 1
  {
    var sched := new Scheduler();
    var disk, c1, c2;
    first, disk, c1 := LuajLFSJSE.LockDir(sched, {}, dir, None);
    second, disk, c2 := LuajLFSJSE.LockDir(sched, disk, dir, None);
    live := |sched.live|;
  }

  /**
   * On Windows `free` closes the marker's handle directly; when the handle is
   * later collected, the worker runs the cleaner, whose second free is a
   * no-op, so a marker another process created meanwhile survives.
   */
  method WinFreeThenCollected(dir: Path, handle: nat, formatMessage: Int32 -> string)
    returns (afterFree: set<Path>, afterCollect: set<Path>, live: nat)
    ensures LockFile(dir) !in afterFree
    ensures afterCollect == afterFree + {LockFile(dir)}
    ensures live == 0
  {
    var sched := new Scheduler();
    var o, open, marker, cleaner := LuajLFSWindows.LockDir(sched, {}, dir, true, None, formatMessage, handle);
    afterFree := marker.Free(open, false);
    sched.ReferentUnreachable(cleaner.id);
    var taken := sched.WorkerStep();
    afterCollect := afterFree + {LockFile(dir)};
    if taken == Some(cleaner.id) {
      afterCollect := cleaner.marker.Free(afterCollect, false);
    }
    live := |sched.live|;
  }

  /** A `tryLock` that always hands out the lock. */
  function Granted(q: LuajLFSJSE.TryLockRequest): LuajLFSJSE.TryLockOutcome {
    LuajLFSJSE.Acquired
  }

  /** A fresh registry after one granted lock of a range: ref 0 holds lock 0. */
  method LockedOnce(channel: LuajLFSJSE.ChannelId, start: Long, len: Long) returns (reg: LuajLFSJSE.Registry)
    ensures fresh(reg) && fresh(reg.sched) && reg.Valid()
    ensures var key := LuajLFSJSE.LockKey(channel, start, len);
            && reg.table == map[key := 0] && reg.cleaners == map[0 := LuajLFSJSE.LockEntry(key, 0)]
            && reg.released == {} && reg.nextLock == 1
    ensures reg.sched.State() == SchedState({0}, {0}, [], true, false, true, 1, 1, [], 1)
  {
    var sched := new Scheduler();
    reg := new LuajLFSJSE.Registry(sched);
    var o := reg.Acquire(Some(channel), start, len, false, Granted);
  }

  /** `LockedOnce`, then the same range locked again: ref 1 with lock 1 displaces ref 0. */
  method Relocked(channel: LuajLFSJSE.ChannelId, start: Long, len: Long, shared: bool)
    returns (reg: LuajLFSJSE.Registry, second: Outcome)
    ensures fresh(reg) && fresh(reg.sched) && reg.Valid()
    ensures second == Returned(True)
    ensures var key := LuajLFSJSE.LockKey(channel, start, len);
            && reg.table == map[key := 1]
            && reg.cleaners == map[0 := LuajLFSJSE.LockEntry(key, 0), 1 := LuajLFSJSE.LockEntry(key, 1)]
            && reg.released == {0} && reg.nextLock == 2
    ensures reg.sched.State() == SchedState({1}, {1}, [], true, false, true, 1, 1, [0], 2)
  {
    reg := LockedOnce(channel, start, len);
    second := reg.Acquire(Some(channel), start, len, shared, Granted);
  }

  /**
   * Locking the same range twice replaces the first lock, whose cleaner
   * releases it; unlocking the range releases the second; a further unlock
   * finds nothing.
   */
  method RelockThenUnlock(channel: LuajLFSJSE.ChannelId, start: Long, len: Long)
    returns (second: Outcome, releasedOnRelock: set<LuajLFSJSE.LockId>,
             unlock: Outcome, releasedOnUnlock: set<LuajLFSJSE.LockId>, again: Outcome)
    ensures second == Returned(True)
    ensures releasedOnRelock == {0}
    ensures unlock == Returned(True) && releasedOnUnlock == {0, 1}
    ensures again == Returned(LuajLFSJSE.ErrUnlocked)
  {
    var reg;
    reg, second := Relocked(channel, start, len, true);
    releasedOnRelock := reg.released;
    unlock := reg.Unlock(Some(channel), start, len);
    releasedOnUnlock := reg.released;
    again := reg.Unlock(Some(channel), start, len);
  }

  /** `LockedOnce`, then the collector finds the lock's handle unreachable and enqueues ref 0. */
  method LockedOnceEnqueued(channel: LuajLFSJSE.ChannelId, start: Long, len: Long)
    returns (reg: LuajLFSJSE.Registry)
    ensures fresh(reg) && fresh(reg.sched) && reg.Valid()
    ensures var key := LuajLFSJSE.LockKey(channel, start, len);
            && reg.table == map[key := 0] && reg.cleaners == map[0 := LuajLFSJSE.LockEntry(key, 0)]
            && reg.released == {} && reg.nextLock == 1
    ensures reg.sched.State() == SchedState({0}, {}, [0], true, false, true, 1, 1, [], 1)
  {
    reg := LockedOnce(channel, start, len);
    reg.sched.ReferentUnreachable(0);
  }

  /** `LockedOnceEnqueued`, then the same range locked again before the worker runs. */
  method RelockedWhileEnqueued(channel: LuajLFSJSE.ChannelId, start: Long, len: Long)
    returns (reg: LuajLFSJSE.Registry)
    ensures fresh(reg) && fresh(reg.sched) && reg.Valid()
    ensures var key := LuajLFSJSE.LockKey(channel, start, len);
            && reg.table == map[key := 1]
            && reg.cleaners == map[0 := LuajLFSJSE.LockEntry(key, 0), 1 := LuajLFSJSE.LockEntry(key, 1)]
            && reg.released == {0} && reg.nextLock == 2
    ensures reg.sched.State() == SchedState({1}, {1}, [0], true, false, true, 1, 1, [0], 2)
  {
    reg := LockedOnceEnqueued(channel, start, len);
    var o := reg.Acquire(Some(channel), start, len, false, Granted);
  }

  /**
   * A lock whose handle the collector has already enqueued when the script
   * locks the same range again: the worker's late clean() of the old cleaner
   * releases only the old lock and leaves the newer entry, which a later
   * unlock still finds.
   */
  method StaleCleanerKeepsNewerLock(channel: LuajLFSJSE.ChannelId, start: Long, len: Long)
    returns (taken: Option<RefId>, released: set<LuajLFSJSE.LockId>, unlock: Outcome)
    ensures taken == Some(0)
    ensures released == {0}
    ensures unlock == Returned(True)
  {
    var reg := RelockedWhileEnqueued(channel, start, len);
    taken := reg.WorkerStep();
    released := reg.released;
    unlock := reg.Unlock(Some(channel), start, len);
  }
}
