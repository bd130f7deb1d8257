/**
 * LuajLFSJSE: the pure-JVM driver. Record locks go through FileChannel.tryLock
 * and are kept alive by a process-wide table from lock keys to the cleaner
 * refs that own them; `lock_dir` creates its marker with createNewFile.
 */
module LuajLFSJSE {
  import opened Wrappers
  import opened LuaValues
  import opened ReferenceQueueCleaner
  import opened LuajLFSCommon

  const ErrUnlocked := Err(Some("The lock is not held by this process"))

  // ---------------------------------------------------------------------
  // LockKey
  // ---------------------------------------------------------------------

  /** Identity of a FileChannel object. */
  type ChannelId = nat

  /** Identity of a FileLock handed out by tryLock. */
  type LockId = nat

  datatype LockKey = LockKey(channel: ChannelId, start: Long, len: Long)

  /** `LockKey.equals`: the same channel object and the same range. */
  predicate KeyEquals(a: LockKey, b: LockKey) {
    a.start == b.start && a.len == b.len && a.channel == b.channel
  }

  /** Key equality is value equality of the model's keys. */
  lemma KeyEqualsIsIdentity(a: LockKey, b: LockKey)
    ensures KeyEquals(a, b) <==> a == b
  {
  }

  /** Bitwise exclusive or of two naturals, taken one bit at a time from the lowest. */
  function Xor(a: nat, b: nat): (r: nat)
    decreases a + b
  {
    if a == 0 then b
    else if b == 0 then a
    else 2 * Xor(a / 2, b / 2) + (if a % 2 == b % 2 then 0 else 1)
  }

  /** The number whose lowest `n` bits are set. */
  function Ones(n: nat): (m: nat)
  {
    if n == 0 then 0 else 2 * Ones(n - 1) + 1
  }

  /** The all-ones word of 32 bits, unfolded four bits at a time. */
  lemma Ones32()
    ensures Ones(32) == 0xFFFF_FFFF
  {
    assert Ones(4) == 0xF;
    assert Ones(8) == 0xFF;
    assert Ones(12) == 0xFFF;
    assert Ones(16) == 0xFFFF;
    assert Ones(20) == 0xF_FFFF;
    assert Ones(24) == 0xFF_FFFF;
    assert Ones(28) == 0xFFF_FFFF;
  }

  /** Xor with an all-ones word complements every bit. */
  lemma {:induction false} XorOnes(a: nat, n: nat)
    requires a <= Ones(n)
    ensures Xor(a, Ones(n)) == Ones(n) - a
    decreases n
  {
    if a != 0 && n != 0 {
      XorOnes(a / 2, n - 1);
    }
  }

  /**
   * `(int) (x ^ (x >>> 32))`: fold a long into an int. The low 32 bits of the
   * result are the low word of `x` xor its high word.
   */
  function FoldLong(x: Long): (r: Int32)
  {
    var u := x % 0x1_0000_0000_0000_0000;
    ToInt32(Xor(u % 0x1_0000_0000, u / 0x1_0000_0000))
  }

  /**
   * A long in the int range folds to itself when it is non-negative and to its
   * complement `-x - 1` when it is negative (the high word is all zeros or all
   * ones).
   */
  lemma FoldIntRange(x: Long)
    requires MinInt <= x <= MaxInt
    ensures FoldLong(x) == if x >= 0 then x else -x - 1
  {
    if x < 0 {
      var u := x % 0x1_0000_0000_0000_0000;
      assert u == 0x1_0000_0000_0000_0000 + x;
      assert u / 0x1_0000_0000 == 0xFFFF_FFFF;
      assert u % 0x1_0000_0000 == 0x1_0000_0000 + x;
      Ones32();
      XorOnes(0x1_0000_0000 + x, 32);
    }
  }

  /**
   * `LockKey.hashCode` in Java's wrapping int arithmetic; `channelHash` is the
   * channel's identity hash code.
   */
  function KeyHash(k: LockKey, channelHash: Int32): Int32
  {
    var result := channelHash;
    var r1 := ToInt32(31 * result + FoldLong(k.start));
    ToInt32(31 * r1 + FoldLong(k.len))
  }

  /** Two ints that are congruent modulo 2^32 narrow to the same int. */
  lemma ToInt32Congruent(a: int, b: int)
    requires (a - b) % 0x1_0000_0000 == 0
    ensures ToInt32(a) == ToInt32(b)
  {
    assert a % 0x1_0000_0000 == b % 0x1_0000_0000 by {
      var q := (a - b) / 0x1_0000_0000;
      assert a == b + q * 0x1_0000_0000;
    }
  }

  /** Narrowing an operand of `c * y + z` first does not change the narrowed result. */
  lemma NarrowOperand(c: int, y: int, z: int)
    ensures ToInt32(c * ToInt32(y) + z) == ToInt32(c * y + z)
  {
    var d := ToInt32(y) - y;
    var q := d / 0x1_0000_0000;
    assert d == q * 0x1_0000_0000;
    assert c * d == (c * q) * 0x1_0000_0000;
    assert (c * ToInt32(y) + z) - (c * y + z) == c * d;
    ToInt32Congruent(c * ToInt32(y) + z, c * y + z);
  }

  /**
   * The hash of a key is the polynomial `31^2 * channelHash + 31 * fold(start)
   * + fold(len)` taken modulo 2^32: narrowing the intermediate sum changes
   * nothing. For a range whose start and length fit a non-negative int, the
   * folds are the numbers themselves.
   */
  lemma {:induction false} KeyHashPolynomial(k: LockKey, channelHash: Int32)
    ensures KeyHash(k, channelHash) == ToInt32(961 * channelHash + 31 * FoldLong(k.start) + FoldLong(k.len))
    ensures 0 <= k.start <= MaxInt && 0 <= k.len <= MaxInt ==>
              KeyHash(k, channelHash) == ToInt32(961 * channelHash + 31 * k.start + k.len)
  {
    var y := 31 * channelHash + FoldLong(k.start);
    NarrowOperand(31, y, FoldLong(k.len));
    assert 31 * y + FoldLong(k.len) == 961 * channelHash + 31 * FoldLong(k.start) + FoldLong(k.len);
    if 0 <= k.start <= MaxInt && 0 <= k.len <= MaxInt {
      FoldIntRange(k.start);
      FoldIntRange(k.len);
    }
  }

  /**
   * The congruence the table relies on: `hashCode` reads exactly the fields
   * `equals` compares, so equal keys hash alike for any identity hash of
   * channels.
   */
  lemma EqualKeysEqualHashes(a: LockKey, b: LockKey, channelHash: ChannelId -> Int32)
    requires KeyEquals(a, b)
    ensures KeyHash(a, channelHash(a.channel)) == KeyHash(b, channelHash(b.channel))
  {
  }

  // ---------------------------------------------------------------------
  // The lock table
  // ---------------------------------------------------------------------

  /** What tryLock is asked. */
  datatype TryLockRequest = TryLockRequest(channel: ChannelId, start: Long, len: Long, shared: bool)

  /**
   * What tryLock does: hand out a lock, return null (held by another process),
   * throw OverlappingFileLockException (held by this JVM) or an IOException.
   */
  datatype TryLockOutcome = Acquired | NotAcquired | Overlapping | IoFailure(msg: Option<string>)

  /** A LockCleaner: the key it was filed under and the lock it releases. */
  datatype LockEntry = LockEntry(key: LockKey, lock: LockId)

  /** `map.remove(key, value)`: remove the entry only while it maps to that value. */
  function RemoveIfMapped(table: map<LockKey, RefId>, key: LockKey, r: RefId): (t: map<LockKey, RefId>)
    ensures key in table && table[key] == r ==> t == table - {key}
    ensures !(key in table && table[key] == r) ==> t == table
  {
    if key in table && table[key] == r then table - {key} else table
  }

  /** A cleaner that was replaced cannot remove the entry that replaced it. */
  lemma StaleCleanKeepsNewEntry(table: map<LockKey, RefId>, key: LockKey, stale: RefId, newer: RefId)
    requires stale != newer
    ensures RemoveIfMapped(table[key := newer], key, stale) == table[key := newer]
  {
  }

  /** The lock table of one driver instance and the LockCleaners it allocated. */
  class Registry {
    /** The scheduler every cleaner registers with. */
    const sched: Scheduler
    /** `fileLockTable`: each key to the id of the cleaner that owns its lock. */
    var table: map<LockKey, RefId>
    /** Every LockCleaner allocated, by ref id. */
    var cleaners: map<RefId, LockEntry>
    /** The locks whose release was called. */
    var released: set<LockId>
    /** Locks handed out by tryLock so far: ids below this. */
    var nextLock: LockId

    ghost predicate Valid()
      reads this, sched
    {
      && sched.Valid()
      && (forall k :: k in table ==>
            table[k] in cleaners && cleaners[table[k]].key == k && cleaners[table[k]].lock !in released)
      && (forall r :: r in cleaners ==> r < sched.nextRef && cleaners[r].lock < nextLock)
      && (forall l :: l in released ==> l < nextLock)
      && (forall r1, r2 :: r1 in cleaners && r2 in cleaners && r1 != r2 ==> cleaners[r1].lock != cleaners[r2].lock)
    }

    /** The locks the table keeps alive. */
    ghost function Held(): set<LockId>
      reads this
      requires forall k :: k in table ==> table[k] in cleaners
    {
      set k | k in table :: cleaners[table[k]].lock
    }

    constructor (sched: Scheduler)
      requires sched.Valid()
      ensures Valid() && this.sched == sched && table == map[] && cleaners == map[]
      ensures released == {} && nextLock == 0
    {
      this.sched := sched;
      table := map[];
      cleaners := map[];
      released := {};
      nextLock := 0;
    }

    /** `LockCleaner.clean()`: conditional remove, then release (IOException swallowed). */
    method CleanLock(r: RefId)
      requires Valid() && r in cleaners
      modifies this
      ensures Valid() && cleaners == old(cleaners) && nextLock == old(nextLock)
      ensures table == RemoveIfMapped(old(table), old(cleaners)[r].key, r)
      ensures released == old(released) + {old(cleaners)[r].lock}
    {
      table := RemoveIfMapped(table, cleaners[r].key, r);
      released := released + {cleaners[r].lock};
    }

    /** `clear()` on a LockCleaner: the scheduler forgets it, then its clean() runs. */
    method ClearCleaner(r: RefId)
      requires Valid() && r in cleaners
      modifies this, sched
      ensures Valid() && cleaners == old(cleaners) && nextLock == old(nextLock)
      ensures sched.State() == Cleared(old(sched.State()), r)
      ensures table == RemoveIfMapped(old(table), old(cleaners)[r].key, r)
      ensures released == old(released) + {old(cleaners)[r].lock}
    {
      sched.Clear(r);
      CleanLock(r);
    }

    /**
     * What `lockExclusive`/`lockShared` do once tryLock handed out a lock:
     * allocate its LockCleaner (which throws during shutdown, leaving the lock
     * held by nobody), file it under `key`, and clear the cleaner it replaced.
     */
    method Install(key: LockKey) returns (o: Outcome)
      requires Valid()
      modifies this, sched
      ensures Valid() && nextLock == old(nextLock) + 1 && sched.init && sched.shutdown == old(sched.shutdown)
      ensures old(sched.shutdown) ==>
                o == Raised(ShuttingDown) && table == old(table) && cleaners == old(cleaners) &&
                released == old(released) && sched.State() == Registered(old(sched.State())).1
      ensures !old(sched.shutdown) ==>
                var r := old(sched.nextRef);
                && o == Returned(True)
                && table == old(table)[key := r]
                && cleaners == old(cleaners)[r := LockEntry(key, old(nextLock))]
                && (key !in old(table) ==>
                      released == old(released) && sched.State() == Registered(old(sched.State())).1)
                && (key in old(table) ==>
                      released == old(released) + {old(cleaners)[old(table)[key]].lock} &&
                      sched.State() == Cleared(Registered(old(sched.State())).1, old(table)[key]))
    {
      var lock := nextLock;
      nextLock := nextLock + 1;
      var reg := sched.Register();
      if reg.Failure? {
        return Raised(reg.error);
      }
      File(key, reg.value, lock);
      o := Returned(True);
    }

    /**
     * `fileLockTable.put(key, cleaner)` for the new cleaner `r` of `lock`,
     * then `clear()` on the cleaner it displaced, if any.
     */
    method File(key: LockKey, r: RefId, lock: LockId)
      requires Valid() && r !in cleaners && r < sched.nextRef
      requires lock < nextLock && lock !in released
      requires forall r' :: r' in cleaners ==> cleaners[r'].lock != lock
      modifies this, sched
      ensures Valid() && nextLock == old(nextLock)
      ensures table == old(table)[key := r]
      ensures cleaners == old(cleaners)[r := LockEntry(key, lock)]
      ensures key !in old(table) ==> released == old(released) && sched.State() == old(sched.State())
      ensures key in old(table) ==>
                released == old(released) + {old(cleaners)[old(table)[key]].lock} &&
                sched.State() == Cleared(old(sched.State()), old(table)[key])
    {
      cleaners := cleaners[r := LockEntry(key, lock)];
      var other := if key in table then Some(table[key]) else None;
      table := table[key := r];
      if other.Some? {
        ClearCleaner(other.value);
      }
    }

    /**
     * `lockExclusive` (shared = false) and `lockShared` (shared = true).
     * `channel` is the file's FileChannel, if it has one.
     */
    method Acquire(channel: Option<ChannelId>, start: Long, len: Long, shared: bool,
                   tryLock: TryLockRequest -> TryLockOutcome) returns (o: Outcome)
      requires Valid()
      modifies this, sched
      ensures Valid() && sched.shutdown == old(sched.shutdown)
      ensures channel.None? ==>
                o == Returned(ErrNotSupported) && table == old(table) && sched.State() == old(sched.State()) &&
                cleaners == old(cleaners) && released == old(released) && nextLock == old(nextLock)
      ensures channel.Some? ==>
        var out := tryLock(TryLockRequest(channel.value, start, len, shared));
        && ((out.NotAcquired? || out.Overlapping?) ==>
              o == Returned(ErrLockLocked) && table == old(table) && sched.State() == old(sched.State()))
        && (out.IoFailure? ==>
              o == Returned(IoErr(out.msg)) && table == old(table) && sched.State() == old(sched.State()))
        && (out.Acquired? && old(sched.shutdown) ==>
              o == Raised(ShuttingDown) && table == old(table) && cleaners == old(cleaners) &&
              released == old(released) && sched.State() == Registered(old(sched.State())).1)
        && (out.Acquired? && !old(sched.shutdown) ==>
              o == Returned(True) && table == old(table)[LockKey(channel.value, start, len) := old(sched.nextRef)])
        && (out.Acquired? ==> nextLock == old(nextLock) + 1 && sched.init)
        && (!out.Acquired? ==> cleaners == old(cleaners) && released == old(released) && nextLock == old(nextLock))
        && (out.Acquired? && !old(sched.shutdown) ==>
              var key := LockKey(channel.value, start, len);
              && cleaners == old(cleaners)[old(sched.nextRef) := LockEntry(key, old(nextLock))]
              && (key !in old(table) ==>
                    released == old(released) && sched.State() == Registered(old(sched.State())).1)
              && (key in old(table) ==>
                    released == old(released) + {old(cleaners)[old(table)[key]].lock} &&
                    sched.State() == Cleared(Registered(old(sched.State())).1, old(table)[key])))
    {
      if channel.None? {
        return Returned(ErrNotSupported);
      }
      var out := tryLock(TryLockRequest(channel.value, start, len, shared));
      match out
      case NotAcquired => return Returned(ErrLockLocked);
      case Overlapping => return Returned(ErrLockLocked);
      case IoFailure(msg) => return Returned(IoErr(msg));
      case Acquired => o := Install(LockKey(channel.value, start, len));
    }

    /** `lockUnlock`: drop the entry of exactly this range and release its lock. */
    method Unlock(channel: Option<ChannelId>, start: Long, len: Long) returns (o: Outcome)
      requires Valid()
      modifies this, sched
      ensures Valid() && cleaners == old(cleaners) && nextLock == old(nextLock)
      ensures sched.shutdown == old(sched.shutdown)
      ensures channel.None? ==>
                o == Returned(ErrNotSupported) && table == old(table) && released == old(released) &&
                sched.State() == old(sched.State())
      ensures channel.Some? ==>
        var key := LockKey(channel.value, start, len);
        && (key in old(table) ==>
              o == Returned(True) && table == old(table) - {key} &&
              released == old(released) + {old(cleaners)[old(table)[key]].lock} &&
              sched.State() == Cleared(old(sched.State()), old(table)[key]))
        && (key !in old(table) ==>
              o == Returned(ErrUnlocked) && table == old(table) && released == old(released) &&
              sched.State() == old(sched.State()))
    {
      if channel.None? {
        return Returned(ErrNotSupported);
      }
      var key := LockKey(channel.value, start, len);
      if key !in table {
        return Returned(ErrUnlocked);
      }
      var r := table[key];
      table := table - {key};
      ClearCleaner(r);
      o := Returned(True);
    }

    /**
     * One pass of the scheduler's worker; a LockCleaner it takes runs its
     * clean(). Refs of other kinds are cleaned by their own models.
     */
    method WorkerStep() returns (taken: Option<RefId>)
      requires Valid() && sched.init
      modifies this, sched
      ensures Valid() && cleaners == old(cleaners) && nextLock == old(nextLock)
      ensures (taken, sched.State()) == Dequeued(old(sched.State()))
      ensures taken.Some? && taken.value in cleaners ==>
                table == RemoveIfMapped(old(table), cleaners[taken.value].key, taken.value) &&
                released == old(released) + {cleaners[taken.value].lock}
      ensures !(taken.Some? && taken.value in cleaners) ==> table == old(table) && released == old(released)
    {
      taken := sched.WorkerStep();
      if taken.Some? && taken.value in cleaners {
        CleanLock(taken.value);
      }
    }
  }

  // ---------------------------------------------------------------------
  // lock_dir
  // ---------------------------------------------------------------------

  /**
   * `lock_dir(dir)`: create `<dir>/lockfile.lfs` with createNewFile. `fault`
   * is an IOException of the create other than FileAlreadyExists (with its
   * message, if any). On success the handle's cleaner deletes the file.
   */
  method LockDir(sched: Scheduler, disk: set<Path>, dir: Path, fault: Option<Option<string>>)
    returns (o: Outcome, disk': set<Path>, cleaner: DirLockCleaner?)
    requires sched.Valid()
    modifies sched
    ensures sched.Valid()
    ensures LockFile(dir) in disk ==> o == Returned(ErrFileExists) && disk' == disk && cleaner == null
    ensures LockFile(dir) !in disk && fault.Some? ==> o == Returned(IoErr(fault.value)) && disk' == disk && cleaner == null
    ensures LockFile(dir) !in disk && fault.None? ==>
              disk' == disk + {LockFile(dir)} &&
              (old(sched.shutdown) <==> o == Raised(ShuttingDown)) &&
              (!old(sched.shutdown) ==>
                 cleaner != null && o == Returned(Userdata(cleaner.id)) &&
                 cleaner.file == LockFile(dir) && !cleaner.deleted && cleaner.Valid())
    ensures LockFile(dir) in disk || fault.Some? ==> sched.State() == old(sched.State())
    ensures LockFile(dir) !in disk && fault.None? ==> sched.State() == Registered(old(sched.State())).1
    ensures cleaner != null ==> fresh(cleaner) && cleaner.id == old(sched.nextRef)
  {
    var created := ExclusiveCreate(disk, LockFile(dir), fault);
    match created
    case AlreadyExists => return Returned(ErrFileExists), disk, null;
    case Faulted(msg) => return Returned(IoErr(msg)), disk, null;
    case Created(d) =>
      disk' := d;
      o, cleaner := NewDirLock(sched, LockFile(dir));
  }

  // ---------------------------------------------------------------------
  // isAbsolute
  // ---------------------------------------------------------------------

  /** A Windows drive path: ":\" right after the first character. */
  predicate DriveAfterFirst(path: string)
    requires |path| >= 1
  {
    ":\\" <= path[1..]
  }

  /**
   * `isAbsolute` as written. With a '/' separator: starts with "/". Otherwise a
   * "\\" prefix, or ":\" after the first character; `substring(1)` of the
   * empty string throws, which is the Failure.
   */
  function IsAbsoluteAsWritten(slashSeparator: bool, path: string): (r: Result<bool, string>)
    ensures slashSeparator ==> r == Success("/" <= path)
    ensures !slashSeparator && path == [] ==> r.Failure?
    ensures !slashSeparator && path != [] ==> r.Success? && (r.value <==> "\\\\" <= path || DriveAfterFirst(path))
  {
    if slashSeparator then Success("/" <= path)
    else if "\\\\" <= path then Success(true)
    else if |path| < 1 then Failure("StringIndexOutOfBoundsException")
    else Success(DriveAfterFirst(path))
  }

  /** The empty path makes `isAbsolute` throw under a '\' separator. */
  lemma EmptyPathThrows()
    ensures IsAbsoluteAsWritten(false, "").Failure?
  {
  }

  /** `isAbsolute` with the empty path answered "not absolute". */
  function IsAbsolute(slashSeparator: bool, path: string): (r: bool)
    ensures slashSeparator ==> (r <==> |path| > 0 && path[0] == '/')
    ensures !slashSeparator ==> (r <==> |path| >= 2 && ((path[0] == '\\' && path[1] == '\\') ||
                                                        (|path| >= 3 && path[1] == ':' && path[2] == '\\')))
  {
    if slashSeparator then "/" <= path
    else "\\\\" <= path || (|path| >= 1 && DriveAfterFirst(path))
  }

  /** Wherever the written code returns, the corrected one agrees with it. */
  lemma IsAbsoluteAgreesWhereDefined(slashSeparator: bool, path: string)
    requires IsAbsoluteAsWritten(slashSeparator, path).Success?
    ensures IsAbsoluteAsWritten(slashSeparator, path).value == IsAbsolute(slashSeparator, path)
  {
  }
}
