/**
 * LuajLFSCommon: the script-facing front end shared by every platform driver:
 * argument validation and mode dispatch of `lock`/`unlock`, the directory
 * iterator, the `lock_dir` sentinel cleaner, and the stat-mode precedence.
 */
module LuajLFSCommon {
  import opened Wrappers
  import opened LuaValues
  import opened ReferenceQueueCleaner

  /** A path on the abstract file system, as its list of name components. */
  type Path = seq<string>

  // ---------------------------------------------------------------------
  // lock / unlock
  // ---------------------------------------------------------------------

  /** Which driver operation a valid request reaches. */
  datatype LockOp = Shared | Exclusive | Release

  /** A driver call: lockShared / lockExclusive / lockUnlock with its range. */
  datatype LockCall = LockCall(op: LockOp, start: Long, len: Long)

  /** What the front end does with a request: raise, answer itself, or call the driver. */
  datatype Dispatch = Raise(msg: string) | Reply(v: Varargs) | Invoke(call: LockCall)

  const InvalidMode := "lock: invalid mode"

  /** The error raised when argument 1 is not an open file of the io library. */
  function BadFileArgument(fn: string, typeName: string): string {
    "bad argument #1 to '" + fn + "' (FILE* expected, got " + typeName + ")"
  }

  /** `optlong(n, 0)`: an absent number defaults to 0. */
  function OrZero(x: Option<Long>): Long {
    if x.Some? then x.value else 0
  }

  /** The mode letters `lock` accepts, by first character. */
  predicate IsLockMode(mode: string) {
    |mode| > 0 && (mode[0] == 'r' || mode[0] == 'w' || mode[0] == 'u')
  }

  /**
   * `lfs.lock(file, mode[, start[, len]])`. `hasFile` says whether argument 1
   * is a file the library can lock; `typeName` is its Lua type name.
   */
  function Lock(hasFile: bool, typeName: string, mode: string, start: Option<Long>, len: Option<Long>): (d: Dispatch)
    ensures !hasFile ==> d == Raise(BadFileArgument("lock", typeName))
    ensures hasFile && !IsLockMode(mode) ==> d == Raise(InvalidMode)
    ensures hasFile && IsLockMode(mode) && OrZero(start) < 0 ==> d == Reply(ErrInvalidArgument)
    ensures d.Invoke? <==> hasFile && IsLockMode(mode) && OrZero(start) >= 0
    ensures d.Invoke? ==> d.call.start == OrZero(start) && d.call.len == OrZero(len)
    ensures d.Invoke? ==> (d.call.op == Shared <==> mode[0] == 'r')
    ensures d.Invoke? ==> (d.call.op == Exclusive <==> mode[0] == 'w')
    ensures d.Invoke? ==> (d.call.op == Release <==> mode[0] == 'u')
  {
    if !hasFile then Raise(BadFileArgument("lock", typeName))
    else
      var s := OrZero(start);
      var n := OrZero(len);
      var first := if |mode| == 0 then 0 as char else mode[0];
      match first
      case 'r' => if s < 0 then Reply(ErrInvalidArgument) else Invoke(LockCall(Shared, s, n))
      case 'w' => if s < 0 then Reply(ErrInvalidArgument) else Invoke(LockCall(Exclusive, s, n))
      case 'u' => if s < 0 then Reply(ErrInvalidArgument) else Invoke(LockCall(Release, s, n))
      case _ => Raise(InvalidMode)
  }

  /** `lfs.unlock(file[, start[, len]])`. */
  function Unlock(hasFile: bool, typeName: string, start: Option<Long>, len: Option<Long>): (d: Dispatch)
    ensures !hasFile ==> d == Raise(BadFileArgument("unlock", typeName))
    ensures hasFile && OrZero(start) < 0 ==> d == Reply(ErrInvalidArgument)
    ensures d.Invoke? <==> hasFile && OrZero(start) >= 0
    ensures d.Invoke? ==> d.call == LockCall(Release, OrZero(start), OrZero(len))
  {
    if !hasFile then Raise(BadFileArgument("unlock", typeName))
    else if OrZero(start) < 0 then Reply(ErrInvalidArgument)
    else Invoke(LockCall(Release, OrZero(start), OrZero(len)))
  }

  /** An invalid mode is reported before the range is looked at. */
  lemma InvalidModeBeforeStart(typeName: string, mode: string, s1: Option<Long>, l1: Option<Long>,
                               s2: Option<Long>, l2: Option<Long>)
    requires !IsLockMode(mode)
    ensures Lock(true, typeName, mode, s1, l1) == Lock(true, typeName, mode, s2, l2) == Raise(InvalidMode)
  {
  }

  /** `lock(f, "u", …)` is `unlock(f, …)`, whatever follows the 'u'. */
  lemma LockUnlockModeIsUnlock(hasFile: bool, typeName: string, mode: string, start: Option<Long>, len: Option<Long>)
    requires hasFile && |mode| > 0 && mode[0] == 'u'
    ensures Lock(hasFile, typeName, mode, start, len) == Unlock(hasFile, typeName, start, len)
  {
  }

  // ---------------------------------------------------------------------
  // The directory iterator
  // ---------------------------------------------------------------------

  const ClosedDirectory := "calling 'next' on bad self (closed directory)"

  /** The iterator's `nextIndex` once `close` ran. */
  const ClosedIndex := -3

  /** What one call of the iterator's `next` produces. */
  datatype DirNext = Yield(name: string) | End | BadSelf

  /** What a fresh iterator over `elements` hands out, in order, before nil. */
  function Listing(elements: seq<string>): seq<string> {
    [".", ".."] + elements
  }

  /**
   * One call of `next` on an iterator over `elements` at `nextIndex` = idx:
   * what it produces and the new index. Index -2 stands before ".", -1 before
   * "..", 0..|elements| before the entry of that number.
   */
  function NextSpec(elements: seq<string>, idx: int): (r: (DirNext, int))
    ensures -2 <= idx < |elements| ==> r == (Yield(Listing(elements)[idx + 2]), idx + 1)
    ensures idx >= |elements| ==> r == (End, idx)
    ensures idx < -2 ==> r == (BadSelf, idx)
  {
    if idx < 0 then
      if idx == -1 then (Yield(".."), 0)
      else if idx == -2 then (Yield("."), -1)
      else (BadSelf, idx)
    else if idx >= |elements| then (End, idx)
    else (Yield(elements[idx]), idx + 1)
  }

  /** The results of `k` successive calls of `next` starting at index `idx`. */
  function Calls(elements: seq<string>, idx: int, k: nat): seq<DirNext>
    decreases k
  {
    if k == 0 then []
    else
      var (o, idx') := NextSpec(elements, idx);
      [o] + Calls(elements, idx', k - 1)
  }

  /**
   * From any open position, the calls hand out the rest of the listing in
   * order and then nil forever.
   */
  lemma {:induction false} CallsFromOpen(elements: seq<string>, idx: int, k: nat)
    requires -2 <= idx <= |elements|
    ensures |Calls(elements, idx, k)| == k
    ensures forall i :: 0 <= i < k ==>
      Calls(elements, idx, k)[i] ==
        (if idx + 2 + i < |Listing(elements)| then Yield(Listing(elements)[idx + 2 + i]) else End)
    decreases k
  {
    if k > 0 {
      var (o, idx') := NextSpec(elements, idx);
      CallsFromOpen(elements, idx', k - 1);
      var rest := Calls(elements, idx', k - 1);
      assert Calls(elements, idx, k) == [o] + rest;
      forall i | 0 <= i < k
        ensures Calls(elements, idx, k)[i] ==
          (if idx + 2 + i < |Listing(elements)| then Yield(Listing(elements)[idx + 2 + i]) else End)
      {
        if i > 0 {
          assert Calls(elements, idx, k)[i] == rest[i - 1];
          if idx < |elements| {
            assert idx' == idx + 1;
          } else {
            assert idx' == idx;
          }
        }
      }
    }
  }

  /** A fresh iterator yields ".", "..", the entries in order, then nil on every later call. */
  lemma FreshIteratorYieldsListing(elements: seq<string>, extra: nat)
    ensures var n := |Listing(elements)|;
            var out := Calls(elements, -2, n + extra);
            |out| == n + extra &&
            (forall i :: 0 <= i < n ==> out[i] == Yield(Listing(elements)[i])) &&
            (forall i :: n <= i < n + extra ==> out[i] == End)
  {
    CallsFromOpen(elements, -2, |Listing(elements)| + extra);
  }

  /** After `close`, every call raises, whatever the progress before it. */
  lemma {:induction false} ClosedAlwaysRaises(elements: seq<string>, k: nat)
    ensures Calls(elements, ClosedIndex, k) == seq(k, i => BadSelf)
    decreases k
  {
    if k > 0 {
      ClosedAlwaysRaises(elements, k - 1);
      assert Calls(elements, ClosedIndex, k) == [BadSelf] + Calls(elements, ClosedIndex, k - 1);
    }
  }

  /** `dir_object`: the listing captured by `dir` and the iterator position. */
  class DirObject {
    const elements: seq<string>
    var nextIndex: int

    ghost predicate Valid()
      reads this
    {
      nextIndex == ClosedIndex || -2 <= nextIndex <= |elements|
    }

    ghost predicate Closed()
      reads this
    {
      nextIndex == ClosedIndex
    }

    constructor (listing: seq<string>)
      ensures Valid() && !Closed() && elements == listing && nextIndex == -2
    {
      elements := listing;
      nextIndex := -2;
    }

    /** `dirNext`: one call of the iterator function. */
    method Next() returns (r: DirNext)
      requires Valid()
      modifies this
      ensures Valid() && (r, nextIndex) == NextSpec(elements, old(nextIndex))
      ensures r == BadSelf <==> old(Closed())
    {
      if nextIndex < 0 {
        if nextIndex == -1 {
          nextIndex := nextIndex + 1;
          return Yield("..");
        } else if nextIndex == -2 {
          nextIndex := nextIndex + 1;
          return Yield(".");
        }
        return BadSelf;
      }
      if nextIndex >= |elements| {
        return End;
      }
      r := Yield(elements[nextIndex]);
      nextIndex := nextIndex + 1;
    }

    /** `dirClose`. */
    method Close()
      requires Valid()
      modifies this
      ensures Valid() && Closed()
    {
      nextIndex := ClosedIndex;
    }
  }

  /**
   * A script's `for name in lfs.dir(p) do … end` over a listing: it calls the
   * iterator until nil and collects every name it yields.
   */
  method IterateAll(listing: seq<string>) returns (names: seq<string>)
    ensures names == Listing(listing)
  {
    var d := new DirObject(listing);
    names := [];
    var r := d.Next();
    while r != End
      invariant d.Valid() && d.elements == listing && -1 <= d.nextIndex <= |listing|
      invariant r.Yield? || r == End
      invariant r.Yield? ==> r.name == Listing(listing)[d.nextIndex + 1]
      invariant r == End ==> d.nextIndex == |listing|
      invariant names == Listing(listing)[..d.nextIndex + (if r == End then 2 else 1)]
      decreases |listing| - d.nextIndex + (if r.Yield? then 1 else 0)
    {
      names := names + [r.name];
      r := d.Next();
    }
    assert names == Listing(listing)[..|Listing(listing)|];
  }

  // ---------------------------------------------------------------------
  // lock_dir markers and their cleaner
  // ---------------------------------------------------------------------

  /** The name of the marker every driver's `lock_dir` creates in the directory. */
  const LockFileName := "lockfile.lfs"

  /** `<dir>/lockfile.lfs`. */
  function LockFile(dir: Path): (p: Path)
    ensures |p| == |dir| + 1 && p[..|dir|] == dir && p[|dir|] == LockFileName
  {
    dir + [LockFileName]
  }

  /** The outcome of an exclusive create on the set of existing paths. */
  datatype CreateOutcome<F> = Created(disk: set<Path>) | AlreadyExists | Faulted(fault: F)

  /**
   * An exclusive create (createNewFile, symlink, CREATE_ALWAYS without
   * sharing): it fails when the path exists; otherwise the native call either
   * fails with `fault` or adds exactly that path.
   */
  function ExclusiveCreate<F>(disk: set<Path>, p: Path, fault: Option<F>): (r: CreateOutcome<F>)
    ensures r.AlreadyExists? <==> p in disk
    ensures r.Faulted? <==> p !in disk && fault.Some?
    ensures r.Faulted? ==> r.fault == fault.value
    ensures r.Created? ==> p !in disk && r.disk - {p} == disk && p in r.disk
  {
    if p in disk then AlreadyExists
    else if fault.Some? then Faulted(fault.value)
    else Created(disk + {p})
  }

  /** Two creates of the same marker never both succeed. */
  lemma ExclusiveCreateOnce<F>(disk: set<Path>, p: Path, f1: Option<F>, f2: Option<F>)
    requires ExclusiveCreate(disk, p, f1).Created?
    ensures ExclusiveCreate(ExclusiveCreate(disk, p, f1).disk, p, f2).AlreadyExists?
  {
  }

  /**
   * The effect of `lock_dir_cleaner.clean` on (deleted, existing paths): the
   * first call attempts the delete of `file` (which may fail) and sets
   * `deleted` either way; later calls do nothing.
   */
  function CleanEffect(deleted: bool, disk: set<Path>, file: Path, deleteFails: bool): (r: (bool, set<Path>))
    ensures r.0
    ensures deleted ==> r.1 == disk
    ensures !deleted && !deleteFails ==> file !in r.1 && r.1 + {file} >= disk && r.1 <= disk
    ensures !deleted && deleteFails ==> r.1 == disk
  {
    if deleted then (true, disk)
    else (true, if deleteFails then disk else disk - {file})
  }

  /** A second clean is a no-op, whatever happened to the first. */
  lemma CleanIdempotent(deleted: bool, disk: set<Path>, file: Path, fail1: bool, fail2: bool)
    ensures var (d1, disk1) := CleanEffect(deleted, disk, file, fail1);
            CleanEffect(d1, disk1, file, fail2) == (d1, disk1)
  {
  }

  /** `lock_dir_cleaner`: the registered ref that deletes the marker. */
  class DirLockCleaner {
    const id: RefId
    const file: Path
    var deleted: bool
    /** How many times the delete was attempted. */
    ghost var deleteAttempts: nat

    ghost predicate Valid()
      reads this
    {
      deleteAttempts == if deleted then 1 else 0
    }

    constructor (id: RefId, file: Path)
      ensures Valid() && this.id == id && this.file == file && !deleted
    {
      this.id := id;
      this.file := file;
      deleted := false;
      deleteAttempts := 0;
    }

    /** `clean()`: delete the marker at most once; `disk` is the set of existing paths. */
    method Clean(disk: set<Path>, deleteFails: bool) returns (disk': set<Path>)
      requires Valid()
      modifies this
      ensures Valid() && deleteAttempts <= 1
      ensures (deleted, disk') == CleanEffect(old(deleted), disk, file, deleteFails)
    {
      if deleted {
        return disk;
      }
      deleteAttempts := deleteAttempts + 1;
      disk' := if deleteFails then disk else disk - {file};
      deleted := true;
    }

    /**
     * `clear()` on this ref (the `free` method of the handle, or the shutdown
     * hook): the scheduler forgets it, then its clean() runs.
     */
    method Clear(sched: Scheduler, disk: set<Path>, deleteFails: bool) returns (disk': set<Path>)
      requires Valid() && sched.Valid()
      modifies this, sched
      ensures Valid() && sched.Valid() && sched.State() == Cleared(old(sched.State()), id)
      ensures (deleted, disk') == CleanEffect(old(deleted), disk, file, deleteFails)
    {
      sched.Clear(id);
      disk' := Clean(disk, deleteFails);
    }
  }

  /**
   * Allocating the cleaner once a driver created the marker: register it with
   * the scheduler and hand the script the handle. During shutdown the
   * constructor throws, the script sees the error, and the marker stays.
   */
  method NewDirLock(sched: Scheduler, file: Path) returns (o: Outcome, cleaner: DirLockCleaner?)
    requires sched.Valid()
    modifies sched
    ensures sched.Valid()
    ensures var (reg, s') := Registered(old(sched.State()));
            sched.State() == s' &&
            (reg.Failure? ==> o == Raised(ShuttingDown) && cleaner == null) &&
            (reg.Success? ==> o == Returned(Userdata(reg.value)) && cleaner != null && fresh(cleaner) &&
                              cleaner.Valid() && cleaner.id == reg.value && cleaner.file == file &&
                              !cleaner.deleted)
  {
    var reg := sched.Register();
    if reg.Failure? {
      return Raised(reg.error), null;
    }
    cleaner := new DirLockCleaner(reg.value, file);
    o := Returned(Userdata(reg.value));
  }

  // ---------------------------------------------------------------------
  // Stat mode
  // ---------------------------------------------------------------------

  /** The file-type tests a native stat result answers. */
  datatype StatFlags = StatFlags(isDir: bool, isRegularFile: bool, isSymbolicLink: bool, isSocket: bool,
                                 isBlockDevice: bool, isCharacterDevice: bool, isFifo: bool)

  /** The tests BasicFileAttributes answers. */
  datatype BasicAttrs = BasicAttrs(isDirectory: bool, isRegularFile: bool, isSymbolicLink: bool)

  /** The values of the `mode` attribute. */
  datatype FileMode = Directory | File | Link | Socket | BlockDevice | CharDevice | NamedPipe | Other

  /** The string a script sees for each mode. */
  function ModeName(m: FileMode): (s: string)
    ensures |s| > 0
  {
    match m
    case Directory => "directory"
    case File => "file"
    case Link => "link"
    case Socket => "socket"
    case BlockDevice => "block device"
    case CharDevice => "char device"
    case NamedPipe => "named pipe"
    case Other => "other"
  }

  /** Distinct modes are shown as distinct strings. */
  lemma ModeNameInjective(m1: FileMode, m2: FileMode)
    ensures ModeName(m1) == ModeName(m2) ==> m1 == m2
  {
  }

  /** Whether `st` passes the test that selects mode `m`. */
  predicate Tests(st: StatFlags, m: FileMode) {
    match m
    case Directory => st.isDir
    case File => st.isRegularFile
    case Link => st.isSymbolicLink
    case Socket => st.isSocket
    case BlockDevice => st.isBlockDevice
    case CharDevice => st.isCharacterDevice
    case NamedPipe => st.isFifo
    case Other => true
  }

  /** The order in which the tests are tried. */
  const Precedence: seq<FileMode> := [Directory, File, Link, Socket, BlockDevice, CharDevice, NamedPipe, Other]

  /** The first mode of `order` whose test passes, or Other. */
  function FirstMatch(st: StatFlags, order: seq<FileMode>): FileMode {
    if order == [] then Other
    else if Tests(st, order[0]) then order[0]
    else FirstMatch(st, order[1..])
  }

  /** `mapStatMode(Stat)`: the mode reported for a native stat result. */
  function MapStatMode(st: StatFlags): (m: FileMode)
    ensures Tests(st, m)
    ensures forall i :: 0 <= i < |Precedence| && Precedence[i] == m ==>
              forall j :: 0 <= j < i ==> !Tests(st, Precedence[j])
  {
    if st.isDir then Directory
    else if st.isRegularFile then File
    else if st.isSymbolicLink then Link
    else if st.isSocket then Socket
    else if st.isBlockDevice then BlockDevice
    else if st.isCharacterDevice then CharDevice
    else if st.isFifo then NamedPipe
    else Other
  }

  /** The reported mode is the first passing test in precedence order. */
  lemma MapStatModeIsFirstMatch(st: StatFlags)
    ensures MapStatMode(st) == FirstMatch(st, Precedence)
  {
    var p := Precedence;
    assert FirstMatch(st, p[7..]) == Other by { assert p[7..][0] == Other; }
    assert FirstMatch(st, p[6..]) == if st.isFifo then NamedPipe else Other by { assert p[6..][1..] == p[7..]; }
    assert FirstMatch(st, p[5..]) == if st.isCharacterDevice then CharDevice else FirstMatch(st, p[6..])
      by { assert p[5..][1..] == p[6..]; }
    assert FirstMatch(st, p[4..]) == if st.isBlockDevice then BlockDevice else FirstMatch(st, p[5..])
      by { assert p[4..][1..] == p[5..]; }
    assert FirstMatch(st, p[3..]) == if st.isSocket then Socket else FirstMatch(st, p[4..])
      by { assert p[3..][1..] == p[4..]; }
    assert FirstMatch(st, p[2..]) == if st.isSymbolicLink then Link else FirstMatch(st, p[3..])
      by { assert p[2..][1..] == p[3..]; }
    assert FirstMatch(st, p[1..]) == if st.isRegularFile then File else FirstMatch(st, p[2..])
      by { assert p[1..][1..] == p[2..]; }
    assert FirstMatch(st, p) == if st.isDir then Directory else FirstMatch(st, p[1..]);
  }

  /** `mapStatMode(BasicFileAttributes)`: only directory, file, link or other. */
  function MapBasicMode(a: BasicAttrs): (m: FileMode)
    ensures m == Directory || m == File || m == Link || m == Other
    ensures m == Directory <==> a.isDirectory
    ensures m == Other <==> !a.isDirectory && !a.isRegularFile && !a.isSymbolicLink
  {
    if a.isDirectory then Directory
    else if a.isRegularFile then File
    else if a.isSymbolicLink then Link
    else Other
  }

  /**
   * The `mode` attribute a script compares against: "directory" exactly for
   * what stat calls a directory, and "file" exactly for a regular file that is
   * not also a directory, with either kind of stat result.
   */
  lemma ModeNamesOfDirAndFile(st: StatFlags, a: BasicAttrs)
    ensures ModeName(MapStatMode(st)) == "directory" <==> st.isDir
    ensures ModeName(MapStatMode(st)) == "file" <==> !st.isDir && st.isRegularFile
    ensures ModeName(MapBasicMode(a)) == "directory" <==> a.isDirectory
    ensures ModeName(MapBasicMode(a)) == "file" <==> !a.isDirectory && a.isRegularFile
  {
    ModeNameInjective(MapStatMode(st), Directory);
    ModeNameInjective(MapStatMode(st), File);
    ModeNameInjective(MapBasicMode(a), Directory);
    ModeNameInjective(MapBasicMode(a), File);
  }

  /** On the tests both know, the two mappings agree. */
  lemma BasicModeAgreesWithStat(a: BasicAttrs)
    ensures MapBasicMode(a) ==
            MapStatMode(StatFlags(a.isDirectory, a.isRegularFile, a.isSymbolicLink, false, false, false, false))
  {
  }
}
