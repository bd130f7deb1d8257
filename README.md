# LuajLFS in Dafny

LuajLFS is the LuaFileSystem (`lfs`) module for LuaJ: `lfs.lock`, `lfs.unlock`,
`lfs.lock_dir`, `lfs.dir`, `lfs.mkdir`, `lfs.rmdir`, `lfs.attributes`,
`lfs.symlinkattributes` and `lfs.link`, plus the `io` library it installs so that
files opened by scripts can be locked. This project models the core of that
library and proves properties of the model:

- `cleaner.dfy`, module `ReferenceQueueCleaner`: the process-wide reclamation
  scheduler. It covers the live set `cRefs`, the reference queue, the worker
  thread, the shutdown hook and the `shutdown`/`init` flags. The static state is
  a `Scheduler` object. Its methods are proved against pure transitions on a
  `SchedState` value, and every transition keeps the scheduler invariant `Inv`.
- `common.dfy`, module `LuajLFSCommon`: the front end that every platform driver
  shares:
  - argument checks and mode dispatch of `lock`/`unlock`;
  - the `dir` iterator object, with its `next` and `close`;
  - the `lock_dir` cleaner that deletes the marker file at most once;
  - the precedence in which `mapStatMode` picks a file mode.
- `file_tree.dfy`, module `FileTree`: `mkdir` and `rmdir` on an abstract
  directory tree. The walk of `rmdir` always deletes a deepest remaining
  entry and stops at the first delete that fails. Java's `walkFileTree` deletes
  in depth-first post-order instead, so a failing walk may leave other entries
  deleted than Java's would. The contracts state only what holds for both
  orders.
- `jse.dfy`, module `LuajLFSJSE`: the pure-JVM driver. It holds the `LockKey`
  equality and hash, and the lock table (`Registry`). The table maps each key to
  the `LockCleaner` that owns its `FileLock`; relocking a range replaces and
  clears the old cleaner; a stale cleaner cannot remove a newer entry. On a
  JVM, `tryLock` refuses a range that this process already holds, so the
  replace path is reached only under an oracle that grants it (see Left out). It also
  holds `lock_dir` with `createNewFile` and `isAbsolute`.
- `linux.dfy`, module `LuajLFSLinux`: the native Linux driver. It covers the
  `fcntl(F_SETLK)` record locks (POSIX.1-2017, XSH `fcntl()`), `link`,
  `attributes`/`symlinkattributes`, `lock_dir` through a symbolic link, and
  `isAbsolute`.
- `windows.dfy`, module `LuajLFSWindows`: the native Windows driver. Locks take
  the HANDLE path (LockFileEx/UnlockFileEx) or the fd path (`_locking` at the
  file position, which is saved and restored). It also covers `lock_dir` with a
  delete-on-close marker handle, `isAbsolute`, and the FILETIME conversion
  `convTime`.
- `iolib.dfy`, module `LFSIoLib`: the `io` file objects:
  - `RandomAccessFileFile`: bytes, file pointer and closed flag, proved against
    `AfterSeek`/`AfterRead`/`AfterWrite`/`Remaining`;
  - `OutputStreamFile` and `InputStreamFile` of `io.popen`;
  - `openFile`, which opens read-only, truncates, or appends.
- `scenarios.dfy`, module `Scenarios`: whole-library runs. A script takes a lock
  or a directory lock and frees or drops it, and then the collector, the worker
  or the shutdown hook acts. Each run is stated as the outcome the library
  promises.
- `lua_values.dfy` and `wrappers.dfy`: the values a library function returns,
  the `err`/`ioErr` tuples, Java's `int`/`long` wrap-around, and the
  Option/Result types.

Everything outside the JVM is a parameter of the operation that uses it:
- the native calls (`fcntl`, `stat`, `symlink`, `LockFileEx`, `_locking`,
  `CreateFileA`, `FileChannel.tryLock`);
- the messages of `strerror_r` and `FormatMessageA`;
- the existing paths on disk;
- the collector finding a referent unreachable.

Each is given as an outcome value or as a function from the request to the
outcome, so that a contract can name the request that was made.

## Model

Source paths are relative to the repository root.

| member | source | states |
|---|---|---|
| LuaValues.ToInt32 | src/main/java/io/github/alexanderschuetz97/luajlfs/LFSIoLib.java:302 | `(int)` narrowing: the result differs from the input by a multiple of 2^32 and is the input itself when it fits |
| LuaValues.ToLong | src/main/java/io/github/alexanderschuetz97/luajlfs/LuajLFSWindows.java:237-244 | `long` arithmetic wraps: the result differs by a multiple of 2^64 and equals the input when it fits |
| LuaValues.Err | src/main/java/io/github/alexanderschuetz97/luajlfs/LuajLFSCommon.java:599-605 | `err(msg)` is a falsy (nil, msg) tuple with no code; a null message becomes "" |
| LuaValues.ErrCode | src/main/java/io/github/alexanderschuetz97/luajlfs/LuajLFSCommon.java:611-617 | `err(msg, code)` is a falsy tuple carrying the code, with the same message rule |
| LuaValues.IoErr | src/main/java/io/github/alexanderschuetz97/luajlfs/LuajLFSJSE.java:112-119 | `ioErr`: no message yields the bare truthy string "Input/output error"; a message yields an error tuple with code 5 and "Input/output error: " + msg |
| LuaValues.UnknownErr | src/main/java/io/github/alexanderschuetz97/luajlfs/LuajLFSLinux.java:248-249 | an unknown native error gives the falsy tuple (nil, message((int) code), code), with the platform's message table (strerror_r on Linux, FormatMessageA or strerror_s on Windows) |
| ReferenceQueueCleaner.InitialInv | src/main/java/io/github/alexanderschuetz97/luajlfs/ReferenceQueueCleaner.java:98-104 | the state before any class loads satisfies the scheduler invariant |
| ReferenceQueueCleaner.Initialised | src/main/java/io/github/alexanderschuetz97/luajlfs/ReferenceQueueCleaner.java:110-164 | `init` is idempotent; the first call starts one worker and leaves exactly one hook registration; live set, queue and log are untouched; the invariant is kept |
| ReferenceQueueCleaner.Registered | src/main/java/io/github/alexanderschuetz97/luajlfs/ReferenceQueueCleaner.java:43-56 | constructing a ref initialises the scheduler; it fails with "JVM is shutting down." exactly during shutdown; otherwise a fresh ref joins the live set; the invariant is kept |
| ReferenceQueueCleaner.Cleared | src/main/java/io/github/alexanderschuetz97/luajlfs/ReferenceQueueCleaner.java:61-69 | `clear()` removes the ref from the live set and the collector's reach and logs one clean() call; nothing else changes; the invariant is kept |
| ReferenceQueueCleaner.Enqueued | src/main/java/io/github/alexanderschuetz97/luajlfs/ReferenceQueueCleaner.java:43-44 | the collector enqueues a ref once, and only while its referent is set; the invariant is kept |
| ReferenceQueueCleaner.Dequeued | src/main/java/io/github/alexanderschuetz97/luajlfs/ReferenceQueueCleaner.java:128-147 | a worker pass takes the oldest enqueued ref, drops it from the live set and logs its clean(); with an empty queue nothing happens; the invariant is kept |
| ReferenceQueueCleaner.Interrupted | src/main/java/io/github/alexanderschuetz97/luajlfs/ReferenceQueueCleaner.java:130-137 | an interrupted worker resets `init` and empties the live set without cleaning anything |
| ReferenceQueueCleaner.ClearedNeverEnqueued | src/main/java/io/github/alexanderschuetz97/luajlfs/ReferenceQueueCleaner.java:61-63 | after `clear()` the collector can no longer enqueue the ref; `clear()` does not dequeue, so a ref already in the queue stays there and still reaches the worker |
| ReferenceQueueCleaner.ClearedStaysOutOfQueue | src/main/java/io/github/alexanderschuetz97/luajlfs/ReferenceQueueCleaner.java:61-69 | a ref cleared before it was enqueued stays out of the worker's queue, whatever the collector enqueues afterwards |
| ReferenceQueueCleaner.CollectedRefLeavesLiveSet | src/test/java/io/github/alexanderschuetz97/luajlfs/SimpleLuajLFSTest.java:49-63 | a ref registered while the worker runs and then collected is taken by the next worker pass; the live set returns to what it was and clean() ran once |
| ReferenceQueueCleaner.Snapshot | src/main/java/io/github/alexanderschuetz97/luajlfs/ReferenceQueueCleaner.java:86-89 | copying the live set into a list gives each ref exactly once and no other |
| ReferenceQueueCleaner.Scheduler.constructor | src/main/java/io/github/alexanderschuetz97/luajlfs/ReferenceQueueCleaner.java:98-104 | the static fields start in the initial state |
| ReferenceQueueCleaner.Scheduler.Init | src/main/java/io/github/alexanderschuetz97/luajlfs/ReferenceQueueCleaner.java:110-164 | the new state is `Initialised` of the old one |
| ReferenceQueueCleaner.Scheduler.Register | src/main/java/io/github/alexanderschuetz97/luajlfs/ReferenceQueueCleaner.java:43-56 | result and new state are `Registered` of the old state |
| ReferenceQueueCleaner.Scheduler.Clear | src/main/java/io/github/alexanderschuetz97/luajlfs/ReferenceQueueCleaner.java:61-69 | the new state is `Cleared` of the old one |
| ReferenceQueueCleaner.Scheduler.ReferentUnreachable | src/main/java/io/github/alexanderschuetz97/luajlfs/ReferenceQueueCleaner.java:43-44 | the new state is `Enqueued` of the old one |
| ReferenceQueueCleaner.Scheduler.WorkerStep | src/main/java/io/github/alexanderschuetz97/luajlfs/ReferenceQueueCleaner.java:128-147 | taken ref and new state are `Dequeued` of the old state |
| ReferenceQueueCleaner.Scheduler.WorkerInterrupted | src/main/java/io/github/alexanderschuetz97/luajlfs/ReferenceQueueCleaner.java:130-137 | the new state is `Interrupted` of the old one |
| ReferenceQueueCleaner.Scheduler.RunShutdownHook | src/main/java/io/github/alexanderschuetz97/luajlfs/ReferenceQueueCleaner.java:84-95 | the hook sets `shutdown` and empties the live set; every previously live ref is cleaned exactly once and no other; the earlier log is kept; the queue, `init` and hook fields are unchanged; the invariant is kept |
| LuajLFSCommon.Lock | src/main/java/io/github/alexanderschuetz97/luajlfs/LuajLFSCommon.java:306-336 | a non-file raises the "bad argument #1 to 'lock'" error; a mode not starting with r/w/u raises "lock: invalid mode"; a negative start returns (nil, "Invalid argument"); otherwise exactly one driver call is made: 'r' shared, 'w' exclusive, 'u' unlock, with absent numbers as 0 |
| LuajLFSCommon.Unlock | src/main/java/io/github/alexanderschuetz97/luajlfs/LuajLFSCommon.java:291-304 | same argument checks; a valid call reaches the driver's unlock with the range, absent numbers being 0 |
| LuajLFSCommon.InvalidModeBeforeStart | src/main/java/io/github/alexanderschuetz97/luajlfs/LuajLFSCommon.java:317-335 | an invalid mode raises whatever the range is |
| LuajLFSCommon.LockUnlockModeIsUnlock | src/main/java/io/github/alexanderschuetz97/luajlfs/LuajLFSCommon.java:328-332 | `lock(f, "u…", s, l)` behaves exactly as `unlock(f, s, l)` |
| LuajLFSCommon.NextSpec | src/main/java/io/github/alexanderschuetz97/luajlfs/LuajLFSCommon.java:460-480 | from an open position `next` yields the next name of ".", "..", entries and advances; past the end it returns nil and stays; a closed iterator raises |
| LuajLFSCommon.CallsFromOpen | src/main/java/io/github/alexanderschuetz97/luajlfs/LuajLFSCommon.java:460-480 | from any open position, k calls yield the rest of the listing in order and then nil on every further call |
| LuajLFSCommon.FreshIteratorYieldsListing | src/test/java/io/github/alexanderschuetz97/luajlfs/SimpleLuajLFSTest.java:77-83 | a fresh iterator yields ".", "..", every entry in order, then nil forever |
| LuajLFSCommon.ClosedAlwaysRaises | src/main/java/io/github/alexanderschuetz97/luajlfs/LuajLFSCommon.java:470-471 | after `close` every call raises "calling 'next' on bad self (closed directory)" |
| LuajLFSCommon.DirObject.constructor | src/main/java/io/github/alexanderschuetz97/luajlfs/LuajLFSCommon.java:488-495 | a new iterator holds the listing and stands before "." |
| LuajLFSCommon.DirObject.Next | src/main/java/io/github/alexanderschuetz97/luajlfs/LuajLFSCommon.java:460-480 | result and new index are `NextSpec` of the old index; it raises exactly when the iterator was closed |
| LuajLFSCommon.DirObject.Close | src/main/java/io/github/alexanderschuetz97/luajlfs/LuajLFSCommon.java:482-485 | the iterator becomes closed |
| LuajLFSCommon.IterateAll | src/test/java/io/github/alexanderschuetz97/luajlfs/SimpleLuajLFSTest.java:77-83 | a `for` loop over `next` until nil collects exactly ".", ".." and the entries, in order |
| LuajLFSCommon.LockFile | src/main/java/io/github/alexanderschuetz97/luajlfs/LuajLFSJSE.java:72 | the marker is the child "lockfile.lfs" of the directory |
| LuajLFSCommon.ExclusiveCreate | src/main/java/io/github/alexanderschuetz97/luajlfs/LuajLFSJSE.java:74-80 | an exclusive create fails exactly when the path exists, else fails with the fault or adds exactly that path |
| LuajLFSCommon.ExclusiveCreateOnce | src/main/java/io/github/alexanderschuetz97/luajlfs/LuajLFSJSE.java:74-77 | two creates of the same marker never both succeed |
| LuajLFSCommon.CleanEffect | src/main/java/io/github/alexanderschuetz97/luajlfs/LuajLFSCommon.java:583-595 | the first clean attempts the delete and sets `deleted` even if the delete fails; later cleans change nothing |
| LuajLFSCommon.CleanIdempotent | src/main/java/io/github/alexanderschuetz97/luajlfs/LuajLFSCommon.java:583-595 | a second clean is a no-op, whatever the first did |
| LuajLFSCommon.DirLockCleaner.constructor | src/main/java/io/github/alexanderschuetz97/luajlfs/LuajLFSCommon.java:578-581 | a new cleaner holds its ref and file and has not deleted |
| LuajLFSCommon.DirLockCleaner.Clean | src/main/java/io/github/alexanderschuetz97/luajlfs/LuajLFSCommon.java:583-595 | state and disk follow `CleanEffect`; the delete is attempted at most once over the object's life |
| LuajLFSCommon.DirLockCleaner.Clear | src/main/java/io/github/alexanderschuetz97/luajlfs/LuajLFSCommon.java:548-555 | `free`: the scheduler forgets the ref, then clean() runs |
| LuajLFSCommon.NewDirLock | src/main/java/io/github/alexanderschuetz97/luajlfs/LuajLFSJSE.java:82-86 | registering the marker's cleaner: during shutdown the script sees the exception and no cleaner exists; otherwise it gets a handle of a fresh, undeleted cleaner of that file |
| LuajLFSCommon.ModeName | src/main/java/io/github/alexanderschuetz97/luajlfs/LuajLFSCommon.java:49-56 | every mode has a non-empty name |
| LuajLFSCommon.ModeNameInjective | src/main/java/io/github/alexanderschuetz97/luajlfs/LuajLFSCommon.java:49-56 | distinct modes have distinct names |
| LuajLFSCommon.ModeNamesOfDirAndFile | src/main/java/io/github/alexanderschuetz97/luajlfs/LuajLFSCommon.java:49-56 | with a native stat result or basic attributes, the mode reads "directory" exactly for a directory and "file" exactly for a regular file that is not a directory, the names scripts compare against |
| LuajLFSCommon.MapStatMode | src/main/java/io/github/alexanderschuetz97/luajlfs/LuajLFSCommon.java:623-653 | the reported mode's test passes and every test earlier in precedence fails |
| LuajLFSCommon.MapStatModeIsFirstMatch | src/main/java/io/github/alexanderschuetz97/luajlfs/LuajLFSCommon.java:623-653 | the reported mode is the first passing test of directory, file, link, socket, block device, char device, named pipe, else other |
| LuajLFSCommon.MapBasicMode | src/main/java/io/github/alexanderschuetz97/luajlfs/LuajLFSCommon.java:713-727 | only directory, file, link or other; directory exactly for directories; other exactly when no test passes |
| LuajLFSCommon.BasicModeAgreesWithStat | src/main/java/io/github/alexanderschuetz97/luajlfs/LuajLFSCommon.java:713-727 | on the three tests both know, the basic mapping agrees with the stat mapping |
| FileTree.RemoveSubtree | src/main/java/io/github/alexanderschuetz97/luajlfs/LuajLFSCommon.java:368-390 | the entries left are exactly those not at or below the path |
| FileTree.Mkdir | src/main/java/io/github/alexanderschuetz97/luajlfs/LuajLFSCommon.java:338-357 | an existing name gives "File exists" (17); a missing parent gives "No such file or directory" (2); for a free name under an existing parent the result is true or the I/O error (5), and a failing create always gives 5; success only for a free name under a directory; only success changes the tree, by adding exactly that directory; the tree stays well formed |
| FileTree.MkdirMakesDirectory | src/main/java/io/github/alexanderschuetz97/luajlfs/LuajLFSCommon.java:338-357 | a made directory exists, is a directory, and a second `mkdir` reports "File exists" |
| FileTree.LongestExists | src/main/java/io/github/alexanderschuetz97/luajlfs/LuajLFSCommon.java:368-390 | a finite non-empty set of paths has a longest element, the entry the model's walk deletes next |
| FileTree.WithinTransitive | src/main/java/io/github/alexanderschuetz97/luajlfs/LuajLFSCommon.java:368-390 | lying below is transitive |
| FileTree.Without | src/main/java/io/github/alexanderschuetz97/luajlfs/LuajLFSCommon.java:368-390 | the tree without a set of deleted entries |
| FileTree.RemoveDeepestKeepsWellFormed | src/main/java/io/github/alexanderschuetz97/luajlfs/LuajLFSCommon.java:379-387 | deleting the deepest remaining entry never orphans another entry |
| FileTree.Walk | src/main/java/io/github/alexanderschuetz97/luajlfs/LuajLFSCommon.java:368-390 | the walk succeeds exactly when nothing at or below the path is undeletable, and then removes exactly that subtree; a failing walk removes only entries at or below the path; no other entry changes; the tree stays well formed; the deletion order is the model's (deepest first), not Java's post-order |
| FileTree.Rmdir | src/main/java/io/github/alexanderschuetz97/luajlfs/LuajLFSCommon.java:359-399 | a missing path gives error 2 and a non-directory error 20, both leaving the tree; for a directory, true exactly when every entry of the subtree could be deleted, and then the subtree is gone; otherwise the `ioErr` of the failure, with only entries below the path deleted |
| LuajLFSJSE.KeyEqualsIsIdentity | src/main/java/io/github/alexanderschuetz97/luajlfs/LuajLFSJSE.java:189-209 | two keys are equal exactly when channel, start and length agree |
| LuajLFSJSE.KeyEquals | src/main/java/io/github/alexanderschuetz97/luajlfs/LuajLFSJSE.java:189-209 | `equals` compares start, length and the channel object |
| LuajLFSJSE.FoldLong | src/main/java/io/github/alexanderschuetz97/luajlfs/LuajLFSJSE.java:214-215 | `(int) (x ^ (x >>> 32))`: the low word xor the high word, narrowed to int |
| LuajLFSJSE.FoldIntRange | src/main/java/io/github/alexanderschuetz97/luajlfs/LuajLFSJSE.java:214-215 | a long in the int range folds to itself when non-negative and to `-x - 1` when negative |
| LuajLFSJSE.KeyHash | src/main/java/io/github/alexanderschuetz97/luajlfs/LuajLFSJSE.java:212-217 | `hashCode`: `31 * (31 * channelHash + fold(start)) + fold(len)` in wrapping int arithmetic |
| LuajLFSJSE.KeyHashPolynomial | src/main/java/io/github/alexanderschuetz97/luajlfs/LuajLFSJSE.java:212-217 | the hash is `961 * channelHash + 31 * fold(start) + fold(len)` modulo 2^32; for non-negative int-range start and length the folds are the numbers themselves |
| LuajLFSJSE.EqualKeysEqualHashes | src/main/java/io/github/alexanderschuetz97/luajlfs/LuajLFSJSE.java:212-216 | the congruence of `hashCode` with `equals`: it reads only the compared fields, so equal keys hash alike |
| LuajLFSJSE.RemoveIfMapped | src/main/java/io/github/alexanderschuetz97/luajlfs/LuajLFSJSE.java:235 | `remove(key, this)` drops the entry only while it maps to this cleaner |
| LuajLFSJSE.StaleCleanKeepsNewEntry | src/main/java/io/github/alexanderschuetz97/luajlfs/LuajLFSJSE.java:234-241 | a replaced cleaner's clean() leaves the entry of the cleaner that replaced it |
| LuajLFSJSE.Registry.constructor | src/main/java/io/github/alexanderschuetz97/luajlfs/LuajLFSJSE.java:245 | a driver starts with an empty lock table |
| LuajLFSJSE.Registry.CleanLock | src/main/java/io/github/alexanderschuetz97/luajlfs/LuajLFSJSE.java:234-241 | the cleaner removes its own entry only, and its lock is released |
| LuajLFSJSE.Registry.ClearCleaner | src/main/java/io/github/alexanderschuetz97/luajlfs/LuajLFSJSE.java:220-241 | `clear()` on a LockCleaner: the scheduler forgets it, then its conditional remove and release run |
| LuajLFSJSE.Registry.Install | src/main/java/io/github/alexanderschuetz97/luajlfs/LuajLFSJSE.java:267-274 | during shutdown the cleaner constructor raises and the table is untouched; otherwise the key maps to the new cleaner, and a displaced cleaner is cleared, releasing its lock |
| LuajLFSJSE.Registry.File | src/main/java/io/github/alexanderschuetz97/luajlfs/LuajLFSJSE.java:269-272 | `put` then `clear()` of the previous cleaner: the table holds the new one; the old lock is released and its ref cleared only when there was one |
| LuajLFSJSE.Registry.Acquire | src/main/java/io/github/alexanderschuetz97/luajlfs/LuajLFSJSE.java:248-304 | no channel gives "Not supported"; a null or overlapping tryLock gives "Resource temporarily unavailable"; an IOException gives its `ioErr`; these leave the table, cleaners, released locks and scheduler; a granted lock during shutdown raises "JVM is shutting down." and leaves the table, cleaners and released locks, the scheduler only initialised; a granted lock is filed as in `Install`; the table keeps pointing only at unreleased locks |
| LuajLFSJSE.Registry.Unlock | src/main/java/io/github/alexanderschuetz97/luajlfs/LuajLFSJSE.java:307-322 | no channel gives "Not supported"; a held range is removed, its cleaner cleared and its lock released, giving true; an unheld range gives "The lock is not held by this process" and changes nothing |
| LuajLFSJSE.Registry.WorkerStep | src/main/java/io/github/alexanderschuetz97/luajlfs/LuajLFSJSE.java:234-241 | a worker pass that takes a LockCleaner runs its conditional remove and release; any other pass leaves table and locks |
| LuajLFSJSE.LockDir | src/main/java/io/github/alexanderschuetz97/luajlfs/LuajLFSJSE.java:71-87 | an existing marker gives "File exists" (17); another IOException gives its `ioErr`; both leave disk and scheduler; otherwise the marker is created and, outside shutdown, the script gets the handle of a cleaner that deletes it; during shutdown it raises and the marker stays |
| LuajLFSJSE.IsAbsoluteAsWritten | src/main/java/io/github/alexanderschuetz97/luajlfs/LuajLFSJSE.java:90-109 | with '/' separators: starts with "/"; otherwise a "\\" prefix or ":\" after the first character; the empty path throws |
| LuajLFSJSE.DriveAfterFirst | src/main/java/io/github/alexanderschuetz97/luajlfs/LuajLFSJSE.java:104-106 | the drive test: ":\\" follows the first character |
| LuajLFSJSE.EmptyPathThrows | src/main/java/io/github/alexanderschuetz97/luajlfs/LuajLFSJSE.java:104 | `substring(1)` of "" throws under a '\' separator |
| LuajLFSJSE.IsAbsolute | src/main/java/io/github/alexanderschuetz97/luajlfs/LuajLFSJSE.java:90-109 | the same test, total: the empty path is relative |
| LuajLFSJSE.IsAbsoluteAgreesWhereDefined | src/main/java/io/github/alexanderschuetz97/luajlfs/LuajLFSJSE.java:90-109 | the corrected test returns what the written one returns wherever that one does not throw |
| LuajLFSLinux.LockTypeOf | src/main/java/io/github/alexanderschuetz97/luajlfs/LuajLFSLinux.java:241 | exclusive asks for F_WRLCK, shared for F_RDLCK, unlock for F_UNLCK, one to one |
| LuajLFSLinux.Lock | src/main/java/io/github/alexanderschuetz97/luajlfs/LuajLFSLinux.java:232-301 | no descriptor gives "Not supported"; otherwise one `fcntl(F_SETLK)` of the matching type over the range; true exactly when it succeeds, or whenever it returns for unlock; a refused lock gives "Resource temporarily unavailable"; each exception maps to its error tuple |
| LuajLFSLinux.UnlockNeverContended | src/main/java/io/github/alexanderschuetz97/luajlfs/LuajLFSLinux.java:282-301 | unlocking never reports "Resource temporarily unavailable" |
| LuajLFSLinux.SharedAndExclusiveAgree | src/main/java/io/github/alexanderschuetz97/luajlfs/LuajLFSLinux.java:232-279 | the two lock modes differ only in the lock type asked for |
| LuajLFSLinux.NativeLink | src/main/java/io/github/alexanderschuetz97/luajlfs/LuajLFSLinux.java:204-228 | the native route gives true exactly on success; each failure maps to the tuple with its errno (122, 17, 30, 36, 22, 13, 5) or to the unknown-error tuple |
| LuajLFSLinux.LinkErrno | src/main/java/io/github/alexanderschuetz97/luajlfs/LuajLFSLinux.java:210-223 | the errno each native link failure is reported with: EDQUOT, EEXIST, EROFS, ENAMETOOLONG, EINVAL, EACCES, EIO |
| LuajLFSLinux.HandlerLink | src/main/java/io/github/alexanderschuetz97/luajlfs/LuajLFSLinux.java:188-201 | the path-handler route gives true, "File exists", or the `ioErr` of the IOException |
| LuajLFSLinux.Link | src/main/java/io/github/alexanderschuetz97/luajlfs/LuajLFSLinux.java:181-229 | the native route exactly when both paths have a system path |
| LuajLFSLinux.LinkExistsSameOnBothRoutes | src/main/java/io/github/alexanderschuetz97/luajlfs/LuajLFSLinux.java:195-213 | an existing name is reported as "File exists" (17) on both routes |
| LuajLFSLinux.Attributes | src/main/java/io/github/alexanderschuetz97/luajlfs/LuajLFSLinux.java:103-139 | without a system path the handler's attributes give the basic mode, or the plain I/O error; with one, a stat result gives the stat mode and each failure its errno tuple (2, 36, 40, 13, 5) or the unknown-error tuple |
| LuajLFSLinux.StatErrno | src/main/java/io/github/alexanderschuetz97/luajlfs/LuajLFSLinux.java:124-135 | the errno each stat failure is reported with: ENOENT, ENAMETOOLONG, ELOOP, EACCES, EIO |
| LuajLFSLinux.LockDir | src/main/java/io/github/alexanderschuetz97/luajlfs/LuajLFSLinux.java:63-83 | an existing marker gives "File exists"; any other non-true result of `link` is returned as is; both leave disk and scheduler; on true the link exists and, outside shutdown, the script gets a cleaner that deletes it |
| LuajLFSLinux.IsAbsolute | src/main/java/io/github/alexanderschuetz97/luajlfs/LuajLFSLinux.java:88-90 | absolute exactly when the first character is '/' |
| LuajLFSLinux.IsAbsoluteMatchesJse | src/main/java/io/github/alexanderschuetz97/luajlfs/LuajLFSLinux.java:88-90 | the Linux test agrees with the pure-JVM test under a '/' separator |
| LuajLFSWindows.HandleRequest | src/main/java/io/github/alexanderschuetz97/luajlfs/LuajLFSWindows.java:382-394 | unlock calls UnlockFileEx; the locks call LockFileEx failing immediately, exclusive exactly for `lockExclusive`; always over the given range |
| LuajLFSWindows.HandleLock | src/main/java/io/github/alexanderschuetz97/luajlfs/LuajLFSWindows.java:382-485 | on the HANDLE paths of `lockExclusive`, `lockShared` and `lockUnlock`: true exactly when the call returns TRUE; FALSE gives error 997 for locks and 158 for unlock; an invalid handle gives 6; an unknown error gives its formatted tuple |
| LuajLFSWindows.LockingModeOf | src/main/java/io/github/alexanderschuetz97/luajlfs/LuajLFSWindows.java:400 | `_locking` is asked for LK_UNLCK exactly for unlock, LK_NBLCK otherwise |
| LuajLFSWindows.UseWinApiForLocks | src/main/java/io/github/alexanderschuetz97/luajlfs/LuajLFSWindows.java:74-87 | the HANDLE API is used exactly when the descriptor's fd number is -1 |
| LuajLFSWindows.PositionedFile.constructor | src/main/java/io/github/alexanderschuetz97/luajlfs/LuajLFSWindows.java:398 | a file with its current position |
| LuajLFSWindows.PositionedFile.FdLock | src/main/java/io/github/alexanderschuetz97/luajlfs/LuajLFSWindows.java:397-412 | `_locking` acts at `start`; the old position is restored exactly when `_locking` returned and the restore did not throw; false gives "Permission denied" (13); each exception gives its tuple |
| LuajLFSWindows.FdLockResult | src/main/java/io/github/alexanderschuetz97/luajlfs/LuajLFSWindows.java:397-412 | what the fd path promises: a throwing position call gives its `ioErr`; a throwing `_locking` gives 77 or the strerror tuple with the file left at `start`; a returning `_locking` gives true or 13 with the position moved back unless the restore throws |
| LuajLFSWindows.PositionedFile.Lock | src/main/java/io/github/alexanderschuetz97/luajlfs/LuajLFSWindows.java:369-413 | a descriptor IOException gives its `ioErr` and no descriptor "Not supported"; fd -1 takes the HANDLE path with `HandleLock`'s result; any other fd gives exactly what `FdLockResult` states of the fd path (ioErr, 77, strerror tuple, true or 13, and the position); only the fd path moves the position |
| LuajLFSWindows.FdLockKeepsPosition | src/main/java/io/github/alexanderschuetz97/luajlfs/LuajLFSWindows.java:397-405 | when nothing throws, the script sees its position unchanged and the result is `_locking`'s answer |
| LuajLFSWindows.LockDirObject.constructor | src/main/java/io/github/alexanderschuetz97/luajlfs/LuajLFSWindows.java:127-129 | a marker handle not yet closed |
| LuajLFSWindows.LockDirObject.Free | src/main/java/io/github/alexanderschuetz97/luajlfs/LuajLFSWindows.java:131-143 | `free()` closes the handle at most once and is marked deleted even when CloseHandle throws |
| LuajLFSWindows.WinDirLockCleaner.constructor | src/main/java/io/github/alexanderschuetz97/luajlfs/LuajLFSWindows.java:165-168 | the cleaner holds its ref and marker |
| LuajLFSWindows.WinDirLockCleaner.Clear | src/main/java/io/github/alexanderschuetz97/luajlfs/LuajLFSWindows.java:170-173 | the scheduler forgets the ref, then `free()` of the marker runs |
| LuajLFSWindows.LockDir | src/main/java/io/github/alexanderschuetz97/luajlfs/LuajLFSWindows.java:90-111 | no system path gives "Not supported"; a held marker gives "File exists"; another error gives its formatted tuple; these register nothing; otherwise the marker is held open and registered, and during shutdown the script sees the exception |
| LuajLFSWindows.IsAbsolute | src/main/java/io/github/alexanderschuetz97/luajlfs/LuajLFSWindows.java:177-193 | paths of length 0 or 1 are relative; otherwise absolute exactly for a "\\" prefix or ":\" after the first character |
| LuajLFSWindows.IsAbsoluteMatchesJse | src/main/java/io/github/alexanderschuetz97/luajlfs/LuajLFSWindows.java:177-193 | the Windows test agrees with the corrected pure-JVM test under a '\' separator |
| LuajLFSWindows.JavaDiv | src/main/java/io/github/alexanderschuetz97/luajlfs/LuajLFSWindows.java:241 | Java's long division by a positive divisor truncates toward zero: the remainder has the dividend's sign and is smaller than the divisor |
| LuajLFSWindows.ConvTime | src/main/java/io/github/alexanderschuetz97/luajlfs/LuajLFSWindows.java:237-244 | `convTime`: shift, add, divide and subtract in wrapping long arithmetic; its meaning is stated by `ConvTimeOfFileTime` |
| LuajLFSWindows.ConvTimeOfFileTime | src/main/java/io/github/alexanderschuetz97/luajlfs/LuajLFSWindows.java:237-244 | for a FILETIME from the API nothing wraps: whole seconds of the tick count minus the 1601-to-1970 offset |
| LuajLFSWindows.ConvTimeEpoch | src/main/java/io/github/alexanderschuetz97/luajlfs/LuajLFSWindows.java:237-244 | the FILETIME of the Unix epoch converts to 0 |
| LFSIoLib.RafSeek | src/main/java/io/github/alexanderschuetz97/luajlfs/LFSIoLib.java:291 | a negative position fails with "Negative seek offset" before the file is touched; a closed file fails; otherwise only the pointer moves |
| LFSIoLib.AfterSeek | src/main/java/io/github/alexanderschuetz97/luajlfs/LFSIoLib.java:289-303 | succeeds exactly on an open file with a non-negative target ("set": the count; "end": length + count; otherwise pointer + count); the result is the new pointer narrowed to int; a failure leaves the file |
| LFSIoLib.SeekTarget | src/main/java/io/github/alexanderschuetz97/luajlfs/LFSIoLib.java:290-300 | the target of `seek`: the count for "set", length plus count for "end", pointer plus count for any other option, in long arithmetic |
| LFSIoLib.AfterRead | src/main/java/io/github/alexanderschuetz97/luajlfs/LFSIoLib.java:324-326 | the byte under the pointer, which advances by one; -1 at or past the end; closed files throw |
| LFSIoLib.Remaining | src/main/java/io/github/alexanderschuetz97/luajlfs/LFSIoLib.java:311-313 | length minus pointer when it fits an int; closed files throw |
| LFSIoLib.Overwrite | src/main/java/io/github/alexanderschuetz97/luajlfs/LFSIoLib.java:263-265 | the written range holds the bytes, everything else is kept, a gap past the old end reads as zeros |
| LFSIoLib.AfterWrite | src/main/java/io/github/alexanderschuetz97/luajlfs/LFSIoLib.java:263-265 | the empty string succeeds and changes nothing, even on a closed or read-only file, as `RandomAccessFile.write(b, off, 0)` returns at once; other bytes on an open, writable file overwrite at the pointer, which moves past them; otherwise it throws and nothing changes |
| LFSIoLib.SeekEndLeavesRemaining | src/main/java/io/github/alexanderschuetz97/luajlfs/LFSIoLib.java:289-313 | `seek("end", -k)` leaves exactly k bytes remaining |
| LFSIoLib.ReadConsumesOne | src/main/java/io/github/alexanderschuetz97/luajlfs/LFSIoLib.java:311-326 | reading before the end returns that byte and lowers `remaining` by one |
| LFSIoLib.WriteThenReadBack | src/main/java/io/github/alexanderschuetz97/luajlfs/LFSIoLib.java:263-326 | after a write and a seek back to its start, `read` returns the first byte written |
| LFSIoLib.ClosedFileRefuses | src/main/java/io/github/alexanderschuetz97/luajlfs/LFSIoLib.java:278-281 | after `close`, seek, read, a non-empty write and remaining all throw "Stream Closed" and change nothing; the empty write still returns |
| LFSIoLib.Opened | src/main/java/io/github/alexanderschuetz97/luajlfs/LFSIoLib.java:41-52 | read mode needs an existing file and opens it read-only at 0; write mode truncates; append mode keeps the content with the pointer at its end |
| LFSIoLib.RandomAccessFileFile.constructor | src/main/java/io/github/alexanderschuetz97/luajlfs/LFSIoLib.java:215-218 | an open file object over the given state |
| LFSIoLib.RandomAccessFileFile.SeekTo | src/main/java/io/github/alexanderschuetz97/luajlfs/LFSIoLib.java:291 | result and new state are `RafSeek` of the old state |
| LFSIoLib.RandomAccessFileFile.Seek | src/main/java/io/github/alexanderschuetz97/luajlfs/LFSIoLib.java:289-303 | result and new state are `AfterSeek` of the old state |
| LFSIoLib.RandomAccessFileFile.Read | src/main/java/io/github/alexanderschuetz97/luajlfs/LFSIoLib.java:324-326 | result and new state are `AfterRead` of the old state |
| LFSIoLib.RandomAccessFileFile.Peek | src/main/java/io/github/alexanderschuetz97/luajlfs/LFSIoLib.java:316-321 | returns what `read` would, and the file is left exactly as it was |
| LFSIoLib.RandomAccessFileFile.Write | src/main/java/io/github/alexanderschuetz97/luajlfs/LFSIoLib.java:263-265 | result and new state are `AfterWrite` of the old state |
| LFSIoLib.RandomAccessFileFile.GetRemaining | src/main/java/io/github/alexanderschuetz97/luajlfs/LFSIoLib.java:311-313 | the result is `Remaining` of the state |
| LFSIoLib.RandomAccessFileFile.Close | src/main/java/io/github/alexanderschuetz97/luajlfs/LFSIoLib.java:278-286 | only the closed flag changes, and `isclosed` then holds |
| LFSIoLib.RandomAccessFileFile.ToUserdata | src/main/java/io/github/alexanderschuetz97/luajlfs/LFSIoLib.java:238-245 | the wrapped file exactly when it is an instance of the class, else null |
| LFSIoLib.RandomAccessFileFile.CheckUserdata | src/main/java/io/github/alexanderschuetz97/luajlfs/LFSIoLib.java:252-260 | the wrapped file exactly when it is an instance of the class, else a type error naming the class |
| LFSIoLib.UserdataAccessorsAgree | src/main/java/io/github/alexanderschuetz97/luajlfs/LFSIoLib.java:225-260 | the checked and unchecked accessors accept the same classes and give the same file; a RandomAccessFile is always accepted; any other class is refused with a type error naming it |
| LFSIoLib.OpenFile | src/main/java/io/github/alexanderschuetz97/luajlfs/LFSIoLib.java:41-52 | an open failure is reported; read mode on a missing file is not found; otherwise a fresh open file in the state `Opened` describes |
| LFSIoLib.AppendWritesAtEnd | src/main/java/io/github/alexanderschuetz97/luajlfs/LFSIoLib.java:47-48 | in append mode a write lands after the existing content |
| LFSIoLib.WriteModeTruncates | src/main/java/io/github/alexanderschuetz97/luajlfs/LFSIoLib.java:45-46 | in write mode the file holds only what is written |
| LFSIoLib.PeekThenRead | src/main/java/io/github/alexanderschuetz97/luajlfs/LFSIoLib.java:316-326 | a peek and then a read give the same byte, consumed once |
| LFSIoLib.OutputStreamFile.constructor | src/main/java/io/github/alexanderschuetz97/luajlfs/LFSIoLib.java:71-77 | an open, buffered stream with nothing written |
| LFSIoLib.OutputStreamFile.Write | src/main/java/io/github/alexanderschuetz97/luajlfs/LFSIoLib.java:80-85 | the bytes are appended; they are flushed at once exactly in unbuffered mode |
| LFSIoLib.OutputStreamFile.Flush | src/main/java/io/github/alexanderschuetz97/luajlfs/LFSIoLib.java:88-90 | everything written is flushed |
| LFSIoLib.OutputStreamFile.Setvbuf | src/main/java/io/github/alexanderschuetz97/luajlfs/LFSIoLib.java:115-117 | flush-after-write is set exactly when the mode is "no" |
| LFSIoLib.OutputStreamFile.Close | src/main/java/io/github/alexanderschuetz97/luajlfs/LFSIoLib.java:98-102 | the file is marked closed, and closing the process's buffered stream flushes everything written |
| LFSIoLib.OutputStreamFile.Remaining | src/main/java/io/github/alexanderschuetz97/luajlfs/LFSIoLib.java:120-122 | always -1 |
| LFSIoLib.OutputStreamFile.Seek | src/main/java/io/github/alexanderschuetz97/luajlfs/LFSIoLib.java:110-112 | raises "not implemented" |
| LFSIoLib.OutputStreamFile.Peek | src/main/java/io/github/alexanderschuetz97/luajlfs/LFSIoLib.java:125-127 | raises "not implemented" |
| LFSIoLib.OutputStreamFile.Read | src/main/java/io/github/alexanderschuetz97/luajlfs/LFSIoLib.java:130-132 | raises "not implemented" |
| LFSIoLib.UnbufferedWritesAreFlushed | src/main/java/io/github/alexanderschuetz97/luajlfs/LFSIoLib.java:80-117 | after `setvbuf("no")` any sequence of writes leaves everything written flushed |
| LFSIoLib.BufferedWritesWaitForFlush | src/main/java/io/github/alexanderschuetz97/luajlfs/LFSIoLib.java:80-90 | in any other mode `write` does not call `flush`; `flush` then forces out everything written |
| LFSIoLib.CloseDeliversEverything | src/main/java/io/github/alexanderschuetz97/luajlfs/LFSIoLib.java:80-102 | in any buffering mode, closing the pipe after any sequence of writes has pushed through everything written |
| LFSIoLib.AfterStreamRead | src/main/java/io/github/alexanderschuetz97/luajlfs/LFSIoLib.java:200-202 | the next byte of the process output, consumed; -1 at the end; a closed stream throws "Stream closed" |
| LFSIoLib.InputStreamFile.constructor | src/main/java/io/github/alexanderschuetz97/luajlfs/LFSIoLib.java:145-147 | an open stream with nothing consumed |
| LFSIoLib.InputStreamFile.Read | src/main/java/io/github/alexanderschuetz97/luajlfs/LFSIoLib.java:200-202 | result and new state are `AfterStreamRead` of the old state |
| LFSIoLib.InputStreamFile.Peek | src/main/java/io/github/alexanderschuetz97/luajlfs/LFSIoLib.java:192-197 | returns what `read` would and consumes nothing |
| LFSIoLib.InputStreamFile.Close | src/main/java/io/github/alexanderschuetz97/luajlfs/LFSIoLib.java:165-169 | only the closed flag changes |
| LFSIoLib.InputStreamFile.Remaining | src/main/java/io/github/alexanderschuetz97/luajlfs/LFSIoLib.java:187-189 | always -1 |
| LFSIoLib.InputStreamFile.Write | src/main/java/io/github/alexanderschuetz97/luajlfs/LFSIoLib.java:150-152 | raises "not implemented" |
| LFSIoLib.InputStreamFile.Seek | src/main/java/io/github/alexanderschuetz97/luajlfs/LFSIoLib.java:177-179 | raises "not implemented" |
| LFSIoLib.ReadAll | src/main/java/io/github/alexanderschuetz97/luajlfs/LFSIoLib.java:200-202 | reading until -1 yields exactly the process's output |
| Scenarios.LockDirCollected | src/test/java/io/github/alexanderschuetz97/luajlfs/SimpleLuajLFSTest.java:49-63 | after `lock_dir` one ref is live and the result is a userdata; once the handle is collected and the worker runs, none is live and the marker is gone |
| Scenarios.DirLockFreedTwice | src/main/java/io/github/alexanderschuetz97/luajlfs/LuajLFSCommon.java:548-595 | freeing twice runs clean() twice but deletes only once: a marker created in between survives |
| Scenarios.LockDirDuringShutdown | src/main/java/io/github/alexanderschuetz97/luajlfs/ReferenceQueueCleaner.java:50-52 | `lock_dir` during shutdown raises "JVM is shutting down." and leaves the marker |
| Scenarios.LockDirTwice | src/main/java/io/github/alexanderschuetz97/luajlfs/LuajLFSJSE.java:74-77 | a second `lock_dir` fails with "File exists" and registers nothing more |
| Scenarios.WinFreeThenCollected | src/main/java/io/github/alexanderschuetz97/luajlfs/LuajLFSWindows.java:113-174 | `free` closes the marker; the later clean() after collection is a no-op, so a new marker survives and no ref stays live |
| Scenarios.LockedOnce | src/main/java/io/github/alexanderschuetz97/luajlfs/LuajLFSJSE.java:248-275 | one granted lock: the range maps to ref 0 owning lock 0, nothing released |
| Scenarios.Relocked | src/main/java/io/github/alexanderschuetz97/luajlfs/LuajLFSJSE.java:267-274 | relocking the range: ref 1 with lock 1 takes the entry, ref 0 is cleared and lock 0 released |
| Scenarios.RelockThenUnlock | src/main/java/io/github/alexanderschuetz97/luajlfs/LuajLFSJSE.java:307-319 | after a relock, unlock releases the second lock and gives true; another unlock gives "The lock is not held by this process" |
| Scenarios.LockedOnceEnqueued | src/main/java/io/github/alexanderschuetz97/luajlfs/LuajLFSJSE.java:220-231 | a granted lock whose handle the collector has enqueued |
| Scenarios.RelockedWhileEnqueued | src/main/java/io/github/alexanderschuetz97/luajlfs/LuajLFSJSE.java:267-274 | relocking while the old ref waits in the queue clears it and releases its lock |
| Scenarios.StaleCleanerKeepsNewerLock | src/main/java/io/github/alexanderschuetz97/luajlfs/LuajLFSJSE.java:234-241 | the worker's late clean() of the replaced cleaner releases only the old lock; a later unlock still finds the newer entry |

## Left out

- Garbage collection, threads and the blocking `ReferenceQueue.remove` are explicit events (`ReferentUnreachable`, `WorkerStep`, `WorkerInterrupted`, `RunShutdownHook`); interleavings of the worker with script threads are not modelled.
- `Runtime.addShutdownHook` throwing is not modelled; the hook is taken to be registered.
- The scheduler's abstract `clean()` is a log entry. The effect of each kind of cleaner is modelled beside that kind: `DirLockCleaner.Clean`, `Registry.CleanLock` and `LockDirObject.Free`.
- `load`, the function table, the userdata `get` overrides that expose `free`, `getFD` and its reflection fallback, and LuaJ's argument type checks are not modelled; scripts reach the modelled functions directly.
- `touch`, `chdir`, `currentdir`, `setmode` and the directory listing that `dir` opens are not modelled; the iterator starts from a given listing.
- `mapStatResult` copies the remaining stat fields into a table; only the `mode` field is modelled.
- `link`, `attributes` and `symlinkattributes` of the JSE and Windows drivers are not modelled; only the Linux versions are.
- `openProgram` and `tmpFile` are not modelled: process start and temporary files are I/O. The stream classes they return are modelled.
- `FileTree.Mkdir`: under a parent that is a link to a directory the call succeeds and the tree is left unchanged, because the tree does not follow links.
- `FileTree.Walk`: the walk always deletes a deepest remaining entry, while Java's `walkFileTree` deletes in depth-first post-order, sibling by sibling. The orders differ. Take `/a` holding a file `f`, listed first and undeletable, and a directory `d` holding `g`: Java fails before deleting anything, while `Walk` may delete `/a/d/g` first. Which entries a failing walk has deleted is therefore not Java's; the contracts state only what holds under both orders.
- `LuajLFSJSE.FoldLong`: the xor is computed bit by bit on naturals instead of on 32-bit words; the fold is characterised only for longs in the int range.
- `LuajLFSJSE.Registry.Acquire`: the `tryLock` oracle is unconstrained. A JVM's `FileChannel.tryLock` throws OverlappingFileLockException for a range this process already holds, which gives "Resource temporarily unavailable", so the replace path (`Install` over a key already in the table) is not reached while the old lock is valid. The runs `Scenarios.Relocked`, `Scenarios.RelockThenUnlock`, `Scenarios.RelockedWhileEnqueued` and `Scenarios.StaleCleanerKeepsNewerLock` use an oracle that grants such a range; they exercise the code as written, not runs a JVM produces.
- `LuajLFSLinux.LockDir` takes the result of `link` as a parameter instead of calling the `link` model with a path.
- `LuajLFSLinux.Lock`: an IOException from `getFileDescriptor` is not separated from one of `fcntl`; both give the same `ioErr`.
- `LFSIoLib.RandomAccessFileFile`: the bulk `read(bytes, off, len)`, `flush` (`getFD().sync()`), `setvbuf` (a no-op), `isstdfile` and the userdata accessors without a class are not modelled.
- `LFSIoLib.AfterWrite`: the messages of the IOExceptions for a read-only file and for an overlong file depend on the platform; fixed strings stand in for them.
- `LFSIoLib.OutputStreamFile`: errors of the process stream, and writes after `close`, are not modelled; the stream accepts every write.
- `LFSIoLib.OutputStreamFile`: the buffer of the process's `BufferedOutputStream` is not modelled, so writes at least as large as it pass through before any flush; `flushed` counts only what `flush` and `close` forced out.
- Several file objects over the same file do not share their bytes: each object owns its content.

## Findings

| source | as written | input that shows it | evidently intended | confidence | as-written member | corrected member |
|---|---|---|---|---|---|---|
| src/main/java/io/github/alexanderschuetz97/luajlfs/LuajLFSJSE.java:104 | `isAbsolute` calls `path.substring(1)` without checking the length when the separator is not '/' | the empty path "" on a JVM whose separator is '\' throws StringIndexOutOfBoundsException | the empty path is relative, as the Windows driver answers for paths of length 0 or 1 (LuajLFSWindows.java:178-180) | not executed | LuajLFSJSE.EmptyPathThrows | LuajLFSJSE.IsAbsolute |
