/**
 * LuajLFSWindows: the native Windows driver. Record locks go through
 * LockFileEx/UnlockFileEx when the JVM works with HANDLEs, and through the C
 * runtime's `_locking` at the file position when it works with fd numbers;
 * `lock_dir` holds its marker open with CreateFileA and delete-on-close.
 */
module LuajLFSWindows {
  import opened Wrappers
  import opened LuaValues
  import opened ReferenceQueueCleaner
  import opened LuajLFSCommon
  import LuajLFSJSE

  const ErrOverlap := ErrCode(Some("Overlapped I/O operation is in progress."), 997)
  const ErrBadHandle := ErrCode(Some("The handle is invalid."), 6)
  const ErrAlreadyUnlocked := ErrCode(Some("The segment is already unlocked."), 158)

  // ---------------------------------------------------------------------
  // Choosing the lock API
  // ---------------------------------------------------------------------

  /** `useWinApiForLocks`: a descriptor whose fd number is -1 carries a HANDLE. */
  predicate UseWinApiForLocks(fd: Int32) {
    fd == -1
  }

  /** What `file.getFileDescriptor()` gives: an IOException, null, or a descriptor. */
  datatype DescriptorQuery = DescriptorIo(msg: Option<string>) | NoDescriptor | Descriptor(fd: Int32)

  // ---------------------------------------------------------------------
  // The HANDLE path
  // ---------------------------------------------------------------------

  /** A LockFileEx or UnlockFileEx call. */
  datatype WinApiRequest =
    | LockFileEx(exclusive: bool, failImmediately: bool, start: Long, len: Long)
    | UnlockFileEx(start: Long, len: Long)

  /** The call returns its BOOL, or throws for an invalid handle or another Win32 error. */
  datatype WinApiOutcome = ApiDone(ok: bool) | ApiInvalidHandle | ApiUnknown(code: Long)

  /** The request each front-end operation makes on the HANDLE path. */
  function HandleRequest(op: LockOp, start: Long, len: Long): (q: WinApiRequest)
    ensures op == Release <==> q.UnlockFileEx?
    ensures q.LockFileEx? ==> q.failImmediately && (q.exclusive <==> op == Exclusive)
    ensures q.start == start && q.len == len
  {
    match op
    case Exclusive => LockFileEx(true, true, start, len)
    case Shared => LockFileEx(false, true, start, len)
    case Release => UnlockFileEx(start, len)
  }

  /** The lock operations on the HANDLE path; `formatMessage` is FormatMessageA. */
  function HandleLock(op: LockOp, start: Long, len: Long, api: WinApiRequest -> WinApiOutcome,
                      formatMessage: Int32 -> string): (r: Varargs)
    ensures var out := api(HandleRequest(op, start, len));
      && (r == True <==> out == ApiDone(true))
      && (out == ApiDone(false) && op != Release ==> r == ErrOverlap)
      && (out == ApiDone(false) && op == Release ==> r == ErrAlreadyUnlocked)
      && (out.ApiInvalidHandle? ==> r == ErrBadHandle)
      && (out.ApiUnknown? ==> r == UnknownErr(formatMessage, out.code))
  {
    match api(HandleRequest(op, start, len))
    case ApiDone(ok) => if ok then True else if op == Release then ErrAlreadyUnlocked else ErrOverlap
    case ApiInvalidHandle => ErrBadHandle
    case ApiUnknown(c) => UnknownErr(formatMessage, c)
  }

  // ---------------------------------------------------------------------
  // The fd path
  // ---------------------------------------------------------------------

  /** The `_locking` modes. */
  datatype LockingMode = LK_NBLCK | LK_UNLCK

  /** `_locking(fd, mode, len)`, which acts on `len` bytes from the file position `at`. */
  datatype LockingRequest = LockingRequest(fd: Int32, mode: LockingMode, at: Long, len: Long)

  /** `_locking` returns whether it succeeded, or throws. */
  datatype CrtOutcome = CrtDone(ok: bool) | CrtInvalidFd | CrtUnknown(code: Long)

  /** The `_locking` mode of each front-end operation: the fd path has no shared locks. */
  function LockingModeOf(op: LockOp): (m: LockingMode)
    ensures m == LK_UNLCK <==> op == Release
  {
    if op == Release then LK_UNLCK else LK_NBLCK
  }

  /** The steps at which the file position is read or set. */
  datatype PositionStep = SavePosition | SetToStart | RestorePosition

  /**
   * What the fd-path lock operations promise, for a file at position `before`
   * that ends at `after` with result `r`: a position call that throws gives
   * `ioErr` and stops, a throwing `_locking` gives "File descriptor in bad
   * state" (77) or its strerror tuple with the file left at `start`, and a
   * returning `_locking` gives true or "Permission denied" (13) with the
   * position moved back.
   */
  predicate FdLockResult(op: LockOp, fd: Int32, start: Long, len: Long,
                         locking: LockingRequest -> CrtOutcome,
                         positionFault: PositionStep -> Option<Option<string>>,
                         strerror: Int32 -> string, before: Long, after: Long, r: Varargs)
  {
    var out := locking(LockingRequest(fd, LockingModeOf(op), start, len));
    && (positionFault(SavePosition).Some? ==>
          r == IoErr(positionFault(SavePosition).value) && after == before)
    && (positionFault(SavePosition).None? && positionFault(SetToStart).Some? ==>
          r == IoErr(positionFault(SetToStart).value) && after == before)
    && (positionFault(SavePosition).None? && positionFault(SetToStart).None? ==>
          && (out.CrtInvalidFd? ==> r == ErrBadFd && after == start)
          && (out.CrtUnknown? ==> r == UnknownErr(strerror, out.code) && after == start)
          && (out.CrtDone? && positionFault(RestorePosition).Some? ==>
                r == IoErr(positionFault(RestorePosition).value) && after == start)
          && (out.CrtDone? && positionFault(RestorePosition).None? ==>
                after == before && (r == True <==> out.ok) &&
                (!out.ok ==> r == ErrPermissionDenied)))
  }

  /** A file of the io library, as far as the fd path sees it: its position. */
  class PositionedFile {
    var position: Long

    constructor (position: Long)
      ensures this.position == position
    {
      this.position := position;
    }

    /**
     * The fd-path lock operations: save the position, move it to `start`,
     * call `_locking`, move it back. A position call that throws an
     * IOException (`positionFault`) or a throwing `_locking` ends the sequence,
     * so the position is restored only when `_locking` returned.
     */
    method FdLock(op: LockOp, fd: Int32, start: Long, len: Long,
                  locking: LockingRequest -> CrtOutcome,
                  positionFault: PositionStep -> Option<Option<string>>,
                  strerror: Int32 -> string) returns (r: Varargs)
      modifies this
      ensures FdLockResult(op, fd, start, len, locking, positionFault, strerror, old(position), position, r)
    {
      if positionFault(SavePosition).Some? {
        return IoErr(positionFault(SavePosition).value);
      }
      var pos := position;
      if positionFault(SetToStart).Some? {
        return IoErr(positionFault(SetToStart).value);
      }
      position := start;
      var out := locking(LockingRequest(fd, LockingModeOf(op), position, len));
      match out
      case CrtInvalidFd => return ErrBadFd;
      case CrtUnknown(c) => return UnknownErr(strerror, c);
      case CrtDone(ok) =>
        if positionFault(RestorePosition).Some? {
          return IoErr(positionFault(RestorePosition).value);
        }
        position := pos;
        r := if ok then True else ErrPermissionDenied;
    }

    /**
     * `lockExclusive`, `lockShared` and `lockUnlock`: fetch the descriptor,
     * then take the HANDLE path or the fd path.
     */
    method Lock(op: LockOp, desc: DescriptorQuery, start: Long, len: Long,
                api: WinApiRequest -> WinApiOutcome, formatMessage: Int32 -> string,
                locking: LockingRequest -> CrtOutcome,
                positionFault: PositionStep -> Option<Option<string>>,
                strerror: Int32 -> string) returns (r: Varargs)
      modifies this
      ensures desc.DescriptorIo? ==> r == IoErr(desc.msg) && position == old(position)
      ensures desc.NoDescriptor? ==> r == ErrNotSupported && position == old(position)
      ensures desc.Descriptor? && UseWinApiForLocks(desc.fd) ==>
                r == HandleLock(op, start, len, api, formatMessage) && position == old(position)
      ensures desc.Descriptor? && !UseWinApiForLocks(desc.fd) ==>
                FdLockResult(op, desc.fd, start, len, locking, positionFault, strerror, old(position), position, r)
    {
      match desc
      case DescriptorIo(msg) => return IoErr(msg);
      case NoDescriptor => return ErrNotSupported;
      case Descriptor(fd) =>
        if UseWinApiForLocks(fd) {
          return HandleLock(op, start, len, api, formatMessage);
        }
        r := FdLock(op, fd, start, len, locking, positionFault, strerror);
    }
  }

  /**
   * The position a script sees after an fd-path lock call that nothing
   * interrupted is the one it had before, and `_locking` saw `start`.
   */
  method FdLockKeepsPosition(op: LockOp, fd: Int32, before: Long, start: Long, len: Long,
                             locking: LockingRequest -> CrtOutcome, strerror: Int32 -> string)
    returns (r: Varargs, after: Long)
    requires locking(LockingRequest(fd, LockingModeOf(op), start, len)).CrtDone?
    ensures after == before
    ensures r == True <==> locking(LockingRequest(fd, LockingModeOf(op), start, len)).ok
  {
    var f := new PositionedFile(before);
    r := f.FdLock(op, fd, start, len, locking, _ => None, strerror);
    after := f.position;
  }

  // ---------------------------------------------------------------------
  // lock_dir
  // ---------------------------------------------------------------------

  /**
   * `lock_dir_object`: the HANDLE of the marker, opened with delete-on-close,
   * so the marker exists exactly while the handle is open.
   */
  class LockDirObject {
    const handle: nat
    const file: Path
    var deleted: bool
    /** How many times CloseHandle was called. */
    ghost var closeAttempts: nat

    ghost predicate Valid()
      reads this
    {
      closeAttempts == if deleted then 1 else 0
    }

    constructor (handle: nat, file: Path)
      ensures Valid() && this.handle == handle && this.file == file && !deleted
    {
      this.handle := handle;
      this.file := file;
      deleted := false;
      closeAttempts := 0;
    }

    /**
     * `free()`: close the handle at most once; `open` is the set of markers
     * held open. `deleted` is set even when CloseHandle throws.
     */
    method Free(open: set<Path>, closeFails: bool) returns (open': set<Path>)
      requires Valid()
      modifies this
      ensures Valid() && deleted && closeAttempts <= 1
      ensures (deleted, open') == CleanEffect(old(deleted), open, file, closeFails)
    {
      if deleted {
        return open;
      }
      closeAttempts := closeAttempts + 1;
      open' := if closeFails then open else open - {file};
      deleted := true;
    }
  }

  /** The Windows `lock_dir_cleaner`: its clean() frees the marker. */
  class WinDirLockCleaner {
    const id: RefId
    const marker: LockDirObject

    constructor (id: RefId, marker: LockDirObject)
      ensures this.id == id && this.marker == marker
    {
      this.id := id;
      this.marker := marker;
    }

    /** `clear()` on this ref: the scheduler forgets it, then `marker.free()` runs. */
    method Clear(sched: Scheduler, open: set<Path>, closeFails: bool) returns (open': set<Path>)
      requires sched.Valid() && marker.Valid()
      modifies sched, marker
      ensures sched.Valid() && marker.Valid() && sched.State() == Cleared(old(sched.State()), id)
      ensures (marker.deleted, open') == CleanEffect(old(marker.deleted), open, marker.file, closeFails)
    {
      sched.Clear(id);
      open' := marker.Free(open, closeFails);
    }
  }

  /**
   * `lock_dir(dir)`. `open` is the set of markers some process holds open; a
   * held marker makes CreateFileA fail with a sharing violation. `fault` is
   * another Win32 error code of the create. `handle` is the HANDLE a
   * successful create returns. The handle's `free` closes it directly, which
   * leaves the cleaner registered until its referent is collected.
   */
  method LockDir(sched: Scheduler, open: set<Path>, dir: Path, systemPath: bool, fault: Option<Long>,
                 formatMessage: Int32 -> string, handle: nat)
    returns (o: Outcome, open': set<Path>, marker: LockDirObject?, cleaner: WinDirLockCleaner?)
    requires sched.Valid()
    modifies sched
    ensures sched.Valid()
    ensures !systemPath ==> o == Returned(ErrNotSupported) && open' == open
    ensures systemPath && LockFile(dir) in open ==> o == Returned(ErrFileExists) && open' == open
    ensures systemPath && LockFile(dir) !in open && fault.Some? ==>
              o == Returned(UnknownErr(formatMessage, fault.value)) && open' == open
    ensures o.Returned? && o.v.Fail? ==> sched.State() == old(sched.State()) && marker == null
    ensures systemPath && LockFile(dir) !in open && fault.None? ==>
              open' == open + {LockFile(dir)} && marker != null && marker.Valid() && !marker.deleted &&
              marker.handle == handle && marker.file == LockFile(dir) &&
              sched.State() == Registered(old(sched.State())).1 &&
              (old(sched.shutdown) <==> o == Raised(ShuttingDown)) &&
              (!old(sched.shutdown) ==> cleaner != null && cleaner.marker == marker && o == Returned(Userdata(cleaner.id)))
    ensures marker != null ==> fresh(marker)
    ensures cleaner != null ==> fresh(cleaner) && cleaner.id == old(sched.nextRef)
  {
    if !systemPath {
      return Returned(ErrNotSupported), open, null, null;
    }
    var created := ExclusiveCreate(open, LockFile(dir), fault);
    match created
    case AlreadyExists => return Returned(ErrFileExists), open, null, null;
    case Faulted(c) => return Returned(UnknownErr(formatMessage, c)), open, null, null;
    case Created(d) =>
      open' := d;
      marker := new LockDirObject(handle, LockFile(dir));
      var reg := sched.Register();
      if reg.Failure? {
        return Raised(reg.error), open', marker, null;
      }
      cleaner := new WinDirLockCleaner(reg.value, marker);
      o := Returned(Userdata(reg.value));
  }

  // ---------------------------------------------------------------------
  // isAbsolute and convTime
  // ---------------------------------------------------------------------

  /** `isAbsolute`: a UNC prefix "\\" or a drive "X:\"; paths of length 0 or 1 are relative. */
  function IsAbsolute(path: string): (r: bool)
    ensures |path| <= 1 ==> !r
    ensures r <==> |path| >= 2 && (path[..2] == "\\\\" || (|path| >= 3 && path[1..3] == ":\\"))
  {
    if |path| <= 1 then false
    else "\\\\" <= path || ":\\" <= path[1..]
  }

  /** The Windows driver and the corrected JSE check agree under a '\' separator. */
  lemma IsAbsoluteMatchesJse(path: string)
    ensures IsAbsolute(path) == LuajLFSJSE.IsAbsolute(false, path)
  {
  }

  /**
   * Java's `long / long` for a positive divisor: the quotient is truncated
   * toward zero, so the remainder takes the sign of the dividend and is
   * smaller than the divisor.
   */
  function JavaDiv(a: int, b: int): (q: int)
    requires b > 0
    ensures a >= 0 ==> 0 <= a - q * b < b
    ensures a < 0 ==> -b < a - q * b <= 0
  {
    if a >= 0 then a / b else -((-a) / b)
  }

  /** 100-nanosecond ticks per second. */
  const TicksPerSecond := 10_000_000

  /** Seconds from 1601-01-01 to 1970-01-01. */
  const EpochDifference := 11_644_473_600

  /**
   * `convTime(high, low)`: a FILETIME given as its two words to Unix seconds,
   * in Java's wrapping long arithmetic.
   */
  function ConvTime(high: Long, low: Long): Long {
    var shifted := ToLong(high * 0x1_0000_0000);
    var ticks := ToLong(shifted + low);
    ToLong(JavaDiv(ticks, TicksPerSecond) - EpochDifference)
  }

  /**
   * For a FILETIME from the Win32 API (high word below 2^31, low word
   * unsigned), nothing wraps: the result is the tick count in whole seconds
   * minus the seconds between 1601 and 1970.
   */
  lemma {:induction false} ConvTimeOfFileTime(high: Long, low: Long)
    requires 0 <= high < 0x8000_0000 && 0 <= low < 0x1_0000_0000
    ensures ConvTime(high, low) == (high * 0x1_0000_0000 + low) / TicksPerSecond - EpochDifference
  {
    assert high * 0x1_0000_0000 <= 0x7FFF_FFFF * 0x1_0000_0000;
    var ticks := high * 0x1_0000_0000 + low;
    assert 0 <= ticks <= MaxLong;
    assert ToLong(high * 0x1_0000_0000) == high * 0x1_0000_0000;
    assert ToLong(ticks) == ticks;
    assert 0 <= ticks / TicksPerSecond <= MaxLong / TicksPerSecond;
  }

  /** The Unix epoch as a FILETIME converts to 0. */
  lemma ConvTimeEpoch()
    ensures ConvTime(0x019D_B1DE, 0xD53E_8000) == 0
  {
    ConvTimeOfFileTime(0x019D_B1DE, 0xD53E_8000);
  }
}
