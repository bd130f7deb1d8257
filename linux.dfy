/**
 * LuajLFSLinux: the native Linux driver. Every operation hands one native
 * call's outcome to a try/catch and turns it into an lfs result; the outcome
 * is a parameter here. Record locks are POSIX `fcntl(F_SETLK)` locks (XSH
 * `fcntl()`, POSIX.1-2017).
 */
module LuajLFSLinux {
  import opened Wrappers
  import opened LuaValues
  import opened ReferenceQueueCleaner
  import opened LuajLFSCommon
  import LuajLFSJSE

  // ---------------------------------------------------------------------
  // Linux error numbers, as <errno.h> defines them
  // ---------------------------------------------------------------------

  datatype Errno = ENOENT | EIO | EACCES | EEXIST | EINVAL | EROFS | ENAMETOOLONG | ELOOP | EDQUOT

  function ErrnoValue(e: Errno): int {
    match e
    case ENOENT => 2
    case EIO => 5
    case EACCES => 13
    case EEXIST => 17
    case EINVAL => 22
    case EROFS => 30
    case ENAMETOOLONG => 36
    case ELOOP => 40
    case EDQUOT => 122
  }

  // ---------------------------------------------------------------------
  // Record locks
  // ---------------------------------------------------------------------

  /** The lock types of `struct flock`. */
  datatype FcntlType = F_RDLCK | F_WRLCK | F_UNLCK

  /** What `fcntl(fd, F_SETLK, …)` is asked for. */
  datatype FcntlRequest = FcntlRequest(lockType: FcntlType, start: Long, len: Long)

  /**
   * What the native call does: return whether the lock was set, or throw
   * IllegalArgumentException, InvalidFileDescriptorException, an unknown native
   * error with its errno, or another IOException (with its message).
   */
  datatype FcntlOutcome =
    | Done(ok: bool)
    | IllegalArgument
    | InvalidFd
    | UnknownError(code: Long)
    | IoFailure(msg: Option<string>)

  /** The lock type each front-end operation asks for. */
  function LockTypeOf(op: LockOp): (t: FcntlType)
    ensures t == F_WRLCK <==> op == Exclusive
    ensures t == F_RDLCK <==> op == Shared
    ensures t == F_UNLCK <==> op == Release
  {
    match op
    case Exclusive => F_WRLCK
    case Shared => F_RDLCK
    case Release => F_UNLCK
  }

  /**
   * `lockExclusive`, `lockShared` and `lockUnlock`. `hasFd` says whether the
   * file has a FileDescriptor; `fcntl` is the native call and `strerror` the
   * message table. Unlocking ignores what fcntl returns.
   */
  function Lock(op: LockOp, hasFd: bool, start: Long, len: Long,
                fcntl: FcntlRequest -> FcntlOutcome, strerror: Int32 -> string): (r: Varargs)
    ensures !hasFd ==> r == ErrNotSupported
    ensures hasFd ==>
      var out := fcntl(FcntlRequest(LockTypeOf(op), start, len));
      && (r == True <==> out.Done? && (out.ok || op == Release))
      && (out == Done(false) && op != Release ==> r == ErrLockLocked)
      && (out.IllegalArgument? ==> r == ErrInvalidArgument)
      && (out.InvalidFd? ==> r == ErrBadFd)
      && (out.UnknownError? ==> r == UnknownErr(strerror, out.code))
      && (out.IoFailure? ==> r == IoErr(out.msg))
  {
    if !hasFd then ErrNotSupported
    else
      match fcntl(FcntlRequest(LockTypeOf(op), start, len))
      case Done(ok) => if ok || op == Release then True else ErrLockLocked
      case IllegalArgument => ErrInvalidArgument
      case InvalidFd => ErrBadFd
      case UnknownError(c) => UnknownErr(strerror, c)
      case IoFailure(m) => IoErr(m)
  }

  /** Unlocking never reports contention, whatever fcntl does. */
  lemma UnlockNeverContended(hasFd: bool, start: Long, len: Long,
                             fcntl: FcntlRequest -> FcntlOutcome, strerror: Int32 -> string)
    ensures Lock(Release, hasFd, start, len, fcntl, strerror) != ErrLockLocked
  {
  }

  /**
   * The two lock modes differ only in the lock type they ask for: given the
   * same answer from fcntl, they return the same result.
   */
  lemma SharedAndExclusiveAgree(hasFd: bool, start: Long, len: Long,
                                f1: FcntlRequest -> FcntlOutcome, f2: FcntlRequest -> FcntlOutcome,
                                strerror: Int32 -> string)
    requires f1(FcntlRequest(F_RDLCK, start, len)) == f2(FcntlRequest(F_WRLCK, start, len))
    ensures Lock(Shared, hasFd, start, len, f1, strerror) == Lock(Exclusive, hasFd, start, len, f2, strerror)
  {
  }

  // ---------------------------------------------------------------------
  // link
  // ---------------------------------------------------------------------

  /** What the native `symlink`/`link` call does. */
  datatype NativeLinkOutcome =
    | Linked
    | QuotaExceeded
    | NameExists
    | ReadOnlyFileSystem
    | InvalidPath
    | IllegalArgumentFault
    | AccessDenied
    | OtherIo
    | UnknownNative(code: Long)

  /** The errno each native failure stands for. */
  function LinkErrno(out: NativeLinkOutcome): Option<Errno> {
    match out
    case QuotaExceeded => Some(EDQUOT)
    case NameExists => Some(EEXIST)
    case ReadOnlyFileSystem => Some(EROFS)
    case InvalidPath => Some(ENAMETOOLONG)
    case IllegalArgumentFault => Some(EINVAL)
    case AccessDenied => Some(EACCES)
    case OtherIo => Some(EIO)
    case _ => None
  }

  /** `link` through the native call, when both paths are system paths. */
  function NativeLink(out: NativeLinkOutcome, strerror: Int32 -> string): (r: Varargs)
    ensures r == True <==> out.Linked?
    ensures out.UnknownNative? ==> r == UnknownErr(strerror, out.code)
    ensures LinkErrno(out).Some? ==> r.Fail? && r.code == Some(ErrnoValue(LinkErrno(out).value))
    ensures out == NameExists ==> r == ErrFileExists
  {
    match out
    case Linked => True
    case QuotaExceeded => ErrQuota
    case NameExists => ErrFileExists
    case ReadOnlyFileSystem => ErrReadOnlyFs
    case InvalidPath => ErrFileNameTooLong
    case IllegalArgumentFault => ErrIllegalArguments
    case AccessDenied => ErrPermissionDenied
    case OtherIo => ErrIo
    case UnknownNative(c) => UnknownErr(strerror, c)
  }

  /** What the path handler's `symlink`/`link` does when a path has no system path. */
  datatype HandlerLinkOutcome = HandlerLinked | HandlerExists | HandlerIo(msg: Option<string>)

  /** `link` through the path handler. */
  function HandlerLink(out: HandlerLinkOutcome): (r: Varargs)
    ensures r == True <==> out.HandlerLinked?
    ensures out.HandlerExists? ==> r == ErrFileExists
    ensures out.HandlerIo? ==> r == IoErr(out.msg)
  {
    match out
    case HandlerLinked => True
    case HandlerExists => ErrFileExists
    case HandlerIo(m) => IoErr(m)
  }

  /**
   * `lfs.link(target, name, symbolic)`: the native call when both paths have a
   * system path, the path handler otherwise.
   */
  function Link(systemPaths: bool, native: NativeLinkOutcome, handler: HandlerLinkOutcome,
                strerror: Int32 -> string): (r: Varargs)
    ensures systemPaths ==> r == NativeLink(native, strerror)
    ensures !systemPaths ==> r == HandlerLink(handler)
  {
    if systemPaths then NativeLink(native, strerror) else HandlerLink(handler)
  }

  /** Both routes report an existing name the same way. */
  lemma LinkExistsSameOnBothRoutes(strerror: Int32 -> string)
    ensures NativeLink(NameExists, strerror) == HandlerLink(HandlerExists) == ErrFileExists
  {
  }

  // ---------------------------------------------------------------------
  // attributes / symlinkattributes
  // ---------------------------------------------------------------------

  /** What the native `stat` (or `lstat`) does. */
  datatype StatOutcome =
    | StatOk(flags: StatFlags)
    | FileNotFound
    | StatInvalidPath
    | FileSystemLoop
    | StatAccessDenied
    | StatUnknown(code: Long)
    | StatIo

  /** The errno each stat failure stands for. */
  function StatErrno(out: StatOutcome): Option<Errno> {
    match out
    case FileNotFound => Some(ENOENT)
    case StatInvalidPath => Some(ENAMETOOLONG)
    case FileSystemLoop => Some(ELOOP)
    case StatAccessDenied => Some(EACCES)
    case StatIo => Some(EIO)
    case _ => None
  }

  /** The `mode` attribute, or the error tuple. */
  datatype AttrResult = Attrs(mode: FileMode) | AttrError(err: Varargs)

  /**
   * `attributes` (with the outcome of `stat`) and `symlinkattributes` (with the
   * outcome of `lstat`): without a system path the path handler's
   * BasicFileAttributes are used, and any IOException there is reported as
   * the plain I/O error.
   */
  function Attributes(systemPath: bool, stat: StatOutcome, basic: Option<BasicAttrs>,
                      strerror: Int32 -> string): (r: AttrResult)
    ensures !systemPath && basic.None? ==> r == AttrError(ErrIo)
    ensures !systemPath && basic.Some? ==> r == Attrs(MapBasicMode(basic.value))
    ensures systemPath && stat.StatOk? ==> r == Attrs(MapStatMode(stat.flags))
    ensures systemPath && StatErrno(stat).Some? ==>
              r.AttrError? && r.err.Fail? && r.err.code == Some(ErrnoValue(StatErrno(stat).value))
    ensures systemPath && stat.StatUnknown? ==> r == AttrError(UnknownErr(strerror, stat.code))
  {
    if !systemPath then
      if basic.None? then AttrError(ErrIo) else Attrs(MapBasicMode(basic.value))
    else
      match stat
      case StatOk(flags) => Attrs(MapStatMode(flags))
      case FileNotFound => AttrError(ErrNoSuchFileOrDir)
      case StatInvalidPath => AttrError(ErrFileNameTooLong)
      case FileSystemLoop => AttrError(ErrTooManyLinks)
      case StatAccessDenied => AttrError(ErrPermissionDenied)
      case StatUnknown(c) => AttrError(UnknownErr(strerror, c))
      case StatIo => AttrError(ErrIo)
  }

  // ---------------------------------------------------------------------
  // lock_dir and isAbsolute
  // ---------------------------------------------------------------------

  /** The target of the symbolic link `lock_dir` creates. */
  const LockLinkTarget := "lock"

  /**
   * `lock_dir(dir)`: `link("lock", <dir>/lockfile.lfs, true)`. `linkResult`
   * is what `link` returns when the name is free; an existing name makes the
   * symlink fail with "File exists". Anything but true is handed back as it
   * is; on true the handle's cleaner deletes the link.
   */
  method LockDir(sched: Scheduler, disk: set<Path>, dir: Path, linkResult: Varargs)
    returns (o: Outcome, disk': set<Path>, cleaner: DirLockCleaner?)
    requires sched.Valid()
    modifies sched
    ensures sched.Valid()
    ensures LockFile(dir) in disk ==> o == Returned(ErrFileExists) && disk' == disk
    ensures LockFile(dir) !in disk && linkResult != True ==> o == Returned(linkResult) && disk' == disk
    ensures LockFile(dir) in disk || linkResult != True ==> cleaner == null && sched.State() == old(sched.State())
    ensures LockFile(dir) !in disk && linkResult == True ==>
              disk' == disk + {LockFile(dir)} &&
              (old(sched.shutdown) <==> o == Raised(ShuttingDown)) &&
              (!old(sched.shutdown) ==>
                 cleaner != null && o == Returned(Userdata(cleaner.id)) &&
                 cleaner.file == LockFile(dir) && !cleaner.deleted && cleaner.Valid())
  {
    var result := if LockFile(dir) in disk then ErrFileExists else linkResult;
    if result != True {
      return Returned(result), disk, null;
    }
    disk' := disk + {LockFile(dir)};
    o, cleaner := NewDirLock(sched, LockFile(dir));
  }

  /** `isAbsolute`: the path starts with '/'. */
  function IsAbsolute(path: string): (r: bool)
    ensures r <==> |path| > 0 && path[0] == '/'
  {
    "/" <= path
  }

  /** The Linux driver and the pure-JVM check agree under a '/' separator. */
  lemma IsAbsoluteMatchesJse(path: string)
    ensures IsAbsolute(path) == LuajLFSJSE.IsAbsolute(true, path)
    ensures IsAbsolute(path) == LuajLFSJSE.IsAbsoluteAsWritten(true, path).value
  {
  }
}
