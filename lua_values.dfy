/**
 * What an lfs function hands back to a script, and the error tuples every
 * driver builds with `err` and `ioErr`.
 */
module LuaValues {
  import opened Wrappers

  /** Java's `long`. */
  const MinLong: int := -0x8000_0000_0000_0000
  const MaxLong: int := 0x7FFF_FFFF_FFFF_FFFF
  type Long = x: int | MinLong <= x <= MaxLong

  /** Java's `int`. */
  const MinInt: int := -0x8000_0000
  const MaxInt: int := 0x7FFF_FFFF
  type Int32 = x: int | MinInt <= x <= MaxInt

  /** Narrowing conversion `(int) x` of Java: keep the low 32 bits, two's complement. */
  function ToInt32(x: int): (r: Int32)
    ensures (r - x) % 0x1_0000_0000 == 0
    ensures MinInt <= x <= MaxInt ==> r == x
  {
    var m := x % 0x1_0000_0000;
    if m <= MaxInt then m else m - 0x1_0000_0000
  }

  /** Two's complement wrap-around of a `long` computation. */
  function ToLong(x: int): (r: Long)
    ensures (r - x) % 0x1_0000_0000_0000_0000 == 0
    ensures MinLong <= x <= MaxLong ==> r == x
  {
    var m := x % 0x1_0000_0000_0000_0000;
    if m <= MaxLong then m else m - 0x1_0000_0000_0000_0000
  }

  /** The Lua values (varargs) a library function returns. */
  datatype Varargs =
    | True                                  // LuaValue.TRUE
    | Text(s: string)                       // one string value
    | Userdata(id: nat)                     // an opaque handle, e.g. the lock_dir object
    | Fail(msg: string, code: Option<int>)  // (nil, msg) or (nil, msg, code)

  /** Lua truthiness of the first returned value: only the error tuples start with nil. */
  predicate Truthy(v: Varargs) {
    !v.Fail?
  }

  /** A library call either returns values or raises an error in the script. */
  datatype Outcome = Returned(v: Varargs) | Raised(msg: string)

  /** `err(String)`: (nil, message), a null message becoming the empty string. */
  function Err(message: Option<string>): (r: Varargs)
    ensures !Truthy(r) && r.code == None
    ensures message.Some? ==> r.msg == message.value
    ensures message.None? ==> r.msg == ""
  {
    Fail(if message.Some? then message.value else "", None)
  }

  /** `err(String, long)`: (nil, message, code), a null message becoming the empty string. */
  function ErrCode(message: Option<string>, code: int): (r: Varargs)
    ensures !Truthy(r) && r.code == Some(code)
    ensures r.msg == Err(message).msg
  {
    Fail(if message.Some? then message.value else "", Some(code))
  }

  const InputOutputError := "Input/output error"

  /**
   * `ioErr`, written identically in the three drivers: an IOException without a
   * message yields the bare string "Input/output error" (a truthy value, not an
   * error tuple); with a message it yields (nil, "Input/output error: " + msg, 5).
   */
  function IoErr(message: Option<string>): (r: Varargs)
    ensures message.None? <==> Truthy(r)
    ensures message.None? ==> r == Text(InputOutputError)
    ensures message.Some? ==> r.code == Some(5) && r.msg == InputOutputError + ": " + message.value
  {
    match message
    case None => Text(InputOutputError)
    case Some(m) => ErrCode(Some(InputOutputError + ": " + m), 5)
  }

  /**
   * The error tuple of an unknown native error, as both native drivers build
   * it: `err(message((int) code), code)`, where `message` is the platform's
   * message table (strerror_r, strerror_s or FormatMessageA).
   */
  function UnknownErr(message: Int32 -> string, code: Long): (r: Varargs)
    ensures !Truthy(r) && r.code == Some(code) && r.msg == message(ToInt32(code))
  {
    ErrCode(Some(message(ToInt32(code))), code)
  }

  // The error tuples LuajLFSCommon defines once for all drivers.
  const ErrNotSupported := Err(Some("Not supported"))
  const ErrBadFd := ErrCode(Some("File descriptor in bad state"), 77)
  const ErrNoSuchFileOrDir := ErrCode(Some("No such file or directory"), 2)
  const ErrFileNameTooLong := ErrCode(Some("Filename too long"), 36)
  const ErrTooManyLinks := ErrCode(Some("Too many levels of symbolic links"), 40)
  const ErrPermissionDenied := ErrCode(Some("Permission denied"), 13)
  const ErrIo := ErrCode(Some(InputOutputError), 5)
  const ErrIllegalArguments := ErrCode(Some("Invalid argument"), 22)
  const ErrReadOnlyFs := ErrCode(Some("Read-only file system"), 30)
  const ErrFileExists := ErrCode(Some("File exists"), 17)
  const ErrQuota := ErrCode(Some("Quota exceeded"), 122)
  const ErrLockLocked := Err(Some("Resource temporarily unavailable"))
  /** The code-less "Invalid argument" that lock/unlock and the Linux driver return. */
  const ErrInvalidArgument := Err(Some("Invalid argument"))
}
