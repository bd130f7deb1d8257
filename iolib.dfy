/**
 * The `io` library the lfs module installs: files opened by `io.open` wrap a
 * `java.io.RandomAccessFile`, and the pipes of `io.popen` wrap a process's
 * output or input stream.
 *
 * A random-access file is modelled as its bytes, its file pointer and its
 * closed flag; the operations are specified by functions on that state
 * (`AfterSeek`, `AfterRead`, ...) and the class methods are proved against
 * them. The Java file underneath is the one described by
 * `java.io.RandomAccessFile`: a seek may go past the end, a negative seek
 * fails, and every operation on a closed file throws.
 */
module LFSIoLib {
  import opened Wrappers
  import opened LuaValues

  type Byte = x: int | 0 <= x < 256

  /** How an operation ends: a value, a LuaError raised in the script, or an IOException. */
  datatype FileResult<+T> = Value(value: T) | LuaError(msg: string) | IOException(msg: string)

  const NotImplemented := "not implemented"
  const StreamClosed := "Stream Closed"
  const NegativeSeekOffset := "Negative seek offset"
  const FileTooLarge := "File too large"

  /** What `read` and `peek` return at the end of the data. */
  const EndOfFile: FileResult<int> := Value(-1)

  /* ---------------- the random-access file ---------------- */

  /** The state of an open `RandomAccessFile`: its bytes, its pointer, and how it was opened. */
  datatype RafState = RafState(content: seq<Byte>, pointer: int, closed: bool, readOnly: bool)

  /** Lengths and pointers are Java `long`s, never negative. */
  predicate Good(s: RafState) {
    0 <= s.pointer <= MaxLong && |s.content| <= MaxLong
  }

  /** `RandomAccessFile.seek(pos)`: the sign is checked before the file is touched. */
  function RafSeek(s: RafState, pos: Long): (r: (Option<string>, RafState))
    requires Good(s)
    ensures Good(r.1)
    ensures r.0.None? <==> 0 <= pos && !s.closed
    ensures r.0.None? ==> r.1 == s.(pointer := pos)
    ensures r.0.Some? ==> r.1 == s
    ensures pos < 0 ==> r.0 == Some(NegativeSeekOffset)
  {
    if pos < 0 then (Some(NegativeSeekOffset), s)
    else if s.closed then (Some(StreamClosed), s)
    else (None, s.(pointer := pos))
  }

  /**
   * Where `seek(option, bytecount)` moves the pointer: to `bytecount` for
   * "set", that far from the end for "end", and that far from the current
   * pointer for every other option, in `long` arithmetic.
   */
  function SeekTarget(s: RafState, option: string, bytecount: Int32): Long {
    if option == "set" then bytecount
    else if option == "end" then ToLong(|s.content| + bytecount)
    else ToLong(s.pointer + bytecount)
  }

  /**
   * `RandomAccessFileFile.seek`: move the pointer and return it narrowed to
   * an `int`. "end" and the relative options read the length or the pointer
   * first, which throws on a closed file before the sign is looked at.
   */
  function AfterSeek(s: RafState, option: string, bytecount: Int32): (r: (FileResult<Int32>, RafState))
    requires Good(s)
    ensures Good(r.1)
    ensures r.0.Value? <==> !s.closed && 0 <= SeekTarget(s, option, bytecount)
    ensures r.0.Value? ==> r.1 == s.(pointer := SeekTarget(s, option, bytecount))
    ensures r.0.Value? ==> r.0.value == ToInt32(r.1.pointer)
    ensures !r.0.Value? ==> r.1 == s && r.0.IOException?
    ensures s.closed && (option != "set" || 0 <= bytecount) ==> r.0 == IOException(StreamClosed)
    ensures SeekTarget(s, option, bytecount) < 0 && (option == "set" || !s.closed) ==> r.0 == IOException(NegativeSeekOffset)
  {
    if option != "set" && s.closed then (IOException(StreamClosed), s)
    else
      var (e, s') := RafSeek(s, SeekTarget(s, option, bytecount));
      if e.Some? then (IOException(e.value), s')
      else (Value(ToInt32(s'.pointer)), s')
  }

  /** `RandomAccessFile.read()`: the byte under the pointer, or -1 at or past the end. */
  function AfterRead(s: RafState): (r: (FileResult<int>, RafState))
    requires Good(s)
    ensures Good(r.1)
    ensures s.closed <==> r.0 == IOException(StreamClosed)
    ensures s.closed ==> r.1 == s
    ensures !s.closed && s.pointer < |s.content| ==> r.0 == Value(s.content[s.pointer]) && r.1 == s.(pointer := s.pointer + 1)
    ensures !s.closed && s.pointer >= |s.content| ==> r.0 == EndOfFile && r.1 == s
  {
    if s.closed then (IOException(StreamClosed), s)
    else if s.pointer < |s.content| then (Value(s.content[s.pointer]), s.(pointer := s.pointer + 1))
    else (EndOfFile, s)
  }

  /** `remaining()`: the bytes between the pointer and the end, narrowed to an `int`. */
  function Remaining(s: RafState): (r: FileResult<Int32>)
    ensures s.closed <==> r == IOException(StreamClosed)
    ensures !s.closed && MinInt <= |s.content| - s.pointer <= MaxInt ==> r == Value(|s.content| - s.pointer)
  {
    if s.closed then IOException(StreamClosed) else Value(ToInt32(|s.content| - s.pointer))
  }

  /**
   * The bytes of a file after `bytes` is written at `p`: what lay in that
   * range is replaced, the file grows when the write runs past its end, and a
   * gap between the old end and `p` reads as zeros.
   */
  function Overwrite(content: seq<Byte>, p: nat, bytes: seq<Byte>): (r: seq<Byte>)
    ensures |r| == if p + |bytes| <= |content| then |content| else p + |bytes|
    ensures r[p..p + |bytes|] == bytes
    ensures forall i :: 0 <= i < |content| && !(p <= i < p + |bytes|) ==> r[i] == content[i]
    ensures forall i :: |content| <= i < p ==> r[i] == 0
  {
    var padded := if p <= |content| then content else content + seq(p - |content|, _ => 0);
    padded[..p] + bytes + (if p + |bytes| <= |padded| then padded[p + |bytes|..] else [])
  }

  /**
   * `write(string)`: the bytes go in at the pointer, which moves past them.
   * `RandomAccessFile.write(b, off, 0)` returns before it looks at the file,
   * so writing the empty string succeeds and changes nothing, even on a
   * closed or read-only file.
   */
  function AfterWrite(s: RafState, bytes: seq<Byte>): (r: (FileResult<()>, RafState))
    requires Good(s)
    ensures Good(r.1)
    ensures |bytes| == 0 ==> r == (Value(()), s)
    ensures r.0.Value? <==> |bytes| == 0 || (!s.closed && !s.readOnly && s.pointer + |bytes| <= MaxLong)
    ensures r.0.Value? && |bytes| > 0 ==>
              r.1 == s.(content := Overwrite(s.content, s.pointer, bytes), pointer := s.pointer + |bytes|)
    ensures !r.0.Value? ==> r.1 == s && r.0.IOException?
  {
    if |bytes| == 0 then (Value(()), s)
    else if s.closed then (IOException(StreamClosed), s)
    else if s.readOnly then (IOException("Bad file descriptor"), s)
    else if s.pointer + |bytes| > MaxLong then (IOException(FileTooLarge), s)
    else (Value(()), s.(content := Overwrite(s.content, s.pointer, bytes), pointer := s.pointer + |bytes|))
  }

  /** A seek to "end" minus `k` leaves exactly `k` bytes to read. */
  lemma SeekEndLeavesRemaining(s: RafState, k: Int32)
    requires Good(s) && !s.closed && 0 <= k <= |s.content|
    ensures AfterSeek(s, "end", -k).0.Value?
    ensures Remaining(AfterSeek(s, "end", -k).1) == Value(k)
  {
  }

  /** Reading a byte before the end consumes it: `remaining` drops by one. */
  lemma ReadConsumesOne(s: RafState)
    requires Good(s) && !s.closed && s.pointer < |s.content| && |s.content| - s.pointer <= MaxInt
    ensures Remaining(AfterRead(s).1) == Value(|s.content| - s.pointer - 1)
    ensures AfterRead(s).0.value == s.content[s.pointer]
  {
  }

  /** What was written at the pointer reads back after a seek to where the write began. */
  lemma WriteThenReadBack(s: RafState, bytes: seq<Byte>)
    requires Good(s) && !s.closed && !s.readOnly && s.pointer + |bytes| <= MaxLong && s.pointer <= MaxInt
    requires |bytes| > 0
    ensures var w := AfterWrite(s, bytes).1;
            var back := AfterSeek(w, "set", s.pointer as Int32).1;
            AfterRead(back).0 == Value(bytes[0]) && AfterRead(back).1.pointer == s.pointer + 1
  {
    var w := AfterWrite(s, bytes).1;
    assert w.content[s.pointer..s.pointer + |bytes|] == bytes;
    assert w.content[s.pointer] == bytes[0];
  }

  /** Once closed, the file refuses every operation with the same IOException. */
  lemma ClosedFileRefuses(s: RafState, option: string, bytecount: Int32, bytes: seq<Byte>)
    requires Good(s) && s.closed && 0 <= bytecount
    ensures AfterSeek(s, option, bytecount) == (IOException(StreamClosed), s)
    ensures AfterRead(s) == (IOException(StreamClosed), s)
    ensures |bytes| > 0 ==> AfterWrite(s, bytes) == (IOException(StreamClosed), s)
    ensures AfterWrite(s, []) == (Value(()), s)
    ensures Remaining(s) == IOException(StreamClosed)
  {
  }

  /**
   * The Java types a `RandomAccessFile` is an instance of, which the userdata
   * checks accept; `OtherClass` stands for any other class, named by
   * something other than the listed names.
   */
  datatype JavaClass =
    | RandomAccessFileClass | ObjectClass | DataInputClass | DataOutputClass
    | CloseableClass | AutoCloseableClass | OtherClass(name: string)

  function ClassName(c: JavaClass): string {
    match c
    case RandomAccessFileClass => "java.io.RandomAccessFile"
    case ObjectClass => "java.lang.Object"
    case DataInputClass => "java.io.DataInput"
    case DataOutputClass => "java.io.DataOutput"
    case CloseableClass => "java.io.Closeable"
    case AutoCloseableClass => "java.lang.AutoCloseable"
    case OtherClass(name) => name
  }

  /** `c.isInstance(file)` for the wrapped `RandomAccessFile`. */
  predicate IsInstance(c: JavaClass) {
    !c.OtherClass?
  }

  /** The message of LuaValue.typerror on a userdata value. */
  function TypeError(expected: string): string {
    expected + " expected, got userdata"
  }

  /** The file an `io` call gets from `openFile`: the bytes it starts with and where its pointer is. */
  function Opened(existing: Option<seq<Byte>>, readMode: bool, appendMode: bool): (r: Option<RafState>)
    ensures r.None? <==> readMode && existing.None?
    ensures r.Some? ==> !r.value.closed && r.value.readOnly == readMode
    ensures r.Some? && !readMode && !appendMode ==> r.value.content == [] && r.value.pointer == 0
    ensures r.Some? && appendMode && existing.Some? ==> r.value.content == existing.value && r.value.pointer == |existing.value|
    ensures r.Some? && existing.None? ==> r.value.content == [] && r.value.pointer == 0
    ensures r.Some? && readMode && !appendMode ==> r.value == RafState(existing.value, 0, false, true)
  {
    if readMode && existing.None? then None
    else
      var base := if existing.Some? then existing.value else [];
      if !appendMode && !readMode then Some(RafState([], 0, false, false))
      else if appendMode then Some(RafState(base, |base|, false, readMode))
      else Some(RafState(base, 0, false, readMode))
  }

  /** A `RandomAccessFileFile`: the `io` file object over a random-access file. */
  class RandomAccessFileFile {
    const handle: nat
    const readOnly: bool
    var content: seq<Byte>
    var pointer: int
    var closed: bool

    function State(): RafState
      reads this
    {
      RafState(content, pointer, closed, readOnly)
    }

    predicate Valid()
      reads this
    {
      Good(State())
    }

    constructor (handle: nat, s: RafState)
      requires Good(s) && !s.closed
      ensures Valid() && State() == s && this.handle == handle
    {
      this.handle := handle;
      readOnly := s.readOnly;
      content := s.content;
      pointer := s.pointer;
      closed := false;
    }

    /** `RandomAccessFile.seek`, used by `seek` and `peek`. */
    method SeekTo(pos: Long) returns (e: Option<string>)
      requires Valid()
      modifies this
      ensures Valid()
      ensures (e, State()) == RafSeek(old(State()), pos)
    {
      if pos < 0 {
        return Some(NegativeSeekOffset);
      }
      if closed {
        return Some(StreamClosed);
      }
      pointer := pos;
      e := None;
    }

    method Seek(option: string, bytecount: Int32) returns (r: FileResult<Int32>)
      requires Valid()
      modifies this
      ensures Valid()
      ensures (r, State()) == AfterSeek(old(State()), option, bytecount)
    {
      var target: Long;
      if option == "set" {
        target := bytecount;
      } else if closed {
        return IOException(StreamClosed);
      } else if option == "end" {
        target := ToLong(|content| + bytecount);
      } else {
        target := ToLong(pointer + bytecount);
      }
      var e := SeekTo(target);
      if e.Some? {
        return IOException(e.value);
      }
      r := Value(ToInt32(pointer));
    }

    method Read() returns (r: FileResult<int>)
      requires Valid()
      modifies this
      ensures Valid()
      ensures (r, State()) == AfterRead(old(State()))
    {
      if closed {
        return IOException(StreamClosed);
      }
      if pointer < |content| {
        r := Value(content[pointer]);
        pointer := pointer + 1;
      } else {
        r := EndOfFile;
      }
    }

    /** `peek()`: read the next byte and seek back to where the pointer was. */
    method Peek() returns (r: FileResult<int>)
      requires Valid()
      modifies this
      ensures Valid()
      ensures r == AfterRead(old(State())).0
      ensures State() == old(State())
    {
      if closed {
        return IOException(StreamClosed);
      }
      var fp := pointer;
      r := Read();
      var e := SeekTo(fp);
    }

    method Write(bytes: seq<Byte>) returns (r: FileResult<()>)
      requires Valid()
      modifies this
      ensures Valid()
      ensures (r, State()) == AfterWrite(old(State()), bytes)
    {
      if |bytes| == 0 {
        return Value(());
      }
      if closed {
        return IOException(StreamClosed);
      }
      if readOnly {
        return IOException("Bad file descriptor");
      }
      if pointer + |bytes| > MaxLong {
        return IOException(FileTooLarge);
      }
      content := Overwrite(content, pointer, bytes);
      pointer := pointer + |bytes|;
      r := Value(());
    }

    method GetRemaining() returns (r: FileResult<Int32>)
      requires Valid()
      ensures r == Remaining(State())
    {
      if closed {
        return IOException(StreamClosed);
      }
      r := Value(ToInt32(|content| - pointer));
    }

    /** `close()`: mark the file closed; closing twice is harmless. */
    method Close()
      requires Valid()
      modifies this
      ensures Valid() && State() == old(State()).(closed := true)
      ensures IsClosed()
    {
      closed := true;
    }

    predicate IsClosed()
      reads this
    {
      closed
    }

    /** `isuserdata(c)`. */
    predicate IsUserdataOf(c: JavaClass) {
      IsInstance(c)
    }

    /** `touserdata(c)`: the wrapped file, or null when it is not a `c`. */
    function ToUserdata(c: JavaClass): (r: Option<nat>)
      ensures r.Some? <==> IsUserdataOf(c)
      ensures r.Some? ==> r.value == handle
    {
      if IsInstance(c) then Some(handle) else None
    }

    /** `checkuserdata(c)`: the wrapped file, or a type error naming `c`. */
    function CheckUserdata(c: JavaClass): (r: Result<nat, string>)
      ensures r.Success? <==> IsUserdataOf(c)
      ensures r.Success? ==> r.value == handle
      ensures r.Failure? ==> r.error == TypeError(ClassName(c))
    {
      if IsInstance(c) then Success(handle) else Failure(TypeError(ClassName(c)))
    }
  }

  /** The checked and unchecked userdata accessors agree on every class. */
  lemma UserdataAccessorsAgree(f: RandomAccessFileFile, c: JavaClass)
    ensures f.CheckUserdata(c).Success? <==> f.ToUserdata(c).Some?
    ensures f.CheckUserdata(c).Success? ==> f.CheckUserdata(c).value == f.ToUserdata(c).value
    ensures f.IsUserdataOf(RandomAccessFileClass)
    ensures c.OtherClass? ==> !f.IsUserdataOf(c) && f.CheckUserdata(c) == Failure(TypeError(c.name))
  {
  }

  /** How opening the file with `new RandomAccessFile` ends. */
  datatype OpenResult = OpenedFile(file: RandomAccessFileFile) | NotFound | OpenFailed(msg: string)

  /**
   * `openFile`: open read-only for read mode and read-write otherwise;
   * without read or append mode the file is truncated, in append mode the
   * pointer goes to its end. `existing` is the file's current content (None
   * when it does not exist, in which case a read-write open creates it) and
   * `fault` an IOException of the open for other reasons. The update and
   * binary flags do not matter.
   */
  method OpenFile(existing: Option<seq<Byte>>, readMode: bool, appendMode: bool, updateMode: bool, binaryMode: bool,
                  fault: Option<string>, handle: nat)
    returns (r: OpenResult)
    requires existing.Some? ==> |existing.value| <= MaxLong
    ensures fault.Some? ==> r == OpenFailed(fault.value)
    ensures fault.None? && Opened(existing, readMode, appendMode).None? ==> r == NotFound
    ensures fault.None? && Opened(existing, readMode, appendMode).Some? ==>
      && r.OpenedFile? && fresh(r.file) && r.file.Valid() && r.file.handle == handle
      && r.file.State() == Opened(existing, readMode, appendMode).value
  {
    if fault.Some? {
      return OpenFailed(fault.value);
    }
    if readMode && existing.None? {
      return NotFound;
    }
    var base := if existing.Some? then existing.value else [];
    var f := new RandomAccessFileFile(handle, RafState(base, 0, false, readMode));
    if !appendMode && !readMode {
      f.content := [];
    } else if appendMode {
      var e := f.SeekTo(|f.content|);
    }
    r := OpenedFile(f);
  }

  /** In append mode, what is written lands after what the file already held. */
  method AppendWritesAtEnd(existing: seq<Byte>, bytes: seq<Byte>) returns (r: FileResult<()>, content: seq<Byte>)
    requires |existing| + |bytes| <= MaxLong
    ensures r == Value(())
    ensures content == existing + bytes
  {
    var o := OpenFile(Some(existing), false, true, false, false, None, 0);
    var f := o.file;
    r := f.Write(bytes);
    content := f.content;
  }

  /** In write mode the old content is gone: the file holds only what is written. */
  method WriteModeTruncates(existing: Option<seq<Byte>>, bytes: seq<Byte>) returns (r: FileResult<()>, content: seq<Byte>)
    requires existing.Some? ==> |existing.value| <= MaxLong
    requires |bytes| <= MaxLong
    ensures r == Value(())
    ensures content == bytes
  {
    var o := OpenFile(existing, false, false, false, false, None, 0);
    var f := o.file;
    r := f.Write(bytes);
    content := f.content;
  }

  /** A peek followed by a read yields the same byte twice, consuming it once. */
  method PeekThenRead(content: seq<Byte>, pointer: nat) returns (peeked: FileResult<int>, read: FileResult<int>, after: int)
    requires pointer <= MaxLong && |content| <= MaxLong
    ensures peeked == read
    ensures pointer < |content| ==> read == Value(content[pointer]) && after == pointer + 1
    ensures pointer >= |content| ==> read == EndOfFile && after == pointer
  {
    var f := new RandomAccessFileFile(0, RafState(content, pointer, false, true));
    peeked := f.Peek();
    read := f.Read();
    after := f.pointer;
  }

  /* ---------------- the process streams of io.popen ---------------- */

  /**
   * An `OutputStreamFile` over the stream into a process: what was written to
   * it, the prefix of that which a flush (or close) of the stream has pushed
   * through, and whether `setvbuf("no")` asked for a flush after every write.
   * The stream's own buffer may pass large writes on before any flush; the
   * model tracks only the prefix the file object forced out.
   */
  class OutputStreamFile {
    var written: seq<Byte>
    var flushed: nat
    var closed: bool
    var flushAfterWrite: bool

    predicate Valid()
      reads this
    {
      flushed <= |written|
    }

    constructor ()
      ensures Valid() && written == [] && flushed == 0 && !closed && !flushAfterWrite
    {
      written := [];
      flushed := 0;
      closed := false;
      flushAfterWrite := false;
    }

    /** `write`: the bytes go to the stream, flushed at once only in unbuffered mode. */
    method Write(bytes: seq<Byte>)
      requires Valid()
      modifies this
      ensures Valid()
      ensures written == old(written) + bytes
      ensures flushed == if flushAfterWrite then |written| else old(flushed)
      ensures flushAfterWrite == old(flushAfterWrite) && closed == old(closed)
    {
      written := written + bytes;
      if flushAfterWrite {
        Flush();
      }
    }

    method Flush()
      requires Valid()
      modifies this
      ensures Valid()
      ensures flushed == |written| && written == old(written)
      ensures flushAfterWrite == old(flushAfterWrite) && closed == old(closed)
    {
      flushed := |written|;
    }

    /** `setvbuf(mode, size)`: unbuffered exactly when the mode is "no"; the size is ignored. */
    method Setvbuf(mode: string, size: Int32)
      requires Valid()
      modifies this
      ensures Valid()
      ensures flushAfterWrite <==> mode == "no"
      ensures written == old(written) && flushed == old(flushed) && closed == old(closed)
    {
      flushAfterWrite := mode == "no";
    }

    /**
     * `close`: marks the file closed and closes the process's stream, a
     * buffered stream whose close flushes everything written to it.
     */
    method Close()
      requires Valid()
      modifies this
      ensures Valid() && closed
      ensures flushed == |written|
      ensures written == old(written) && flushAfterWrite == old(flushAfterWrite)
    {
      closed := true;
      flushed := |written|;
    }

    function Remaining(): (r: int)
      ensures r == -1
    {
      -1
    }

    /** `seek`, `peek` and both `read`s: a write-only stream raises. */
    method Seek(option: string, bytecount: Int32) returns (r: FileResult<Int32>)
      ensures r == LuaError(NotImplemented)
    {
      r := LuaError(NotImplemented);
    }

    method Peek() returns (r: FileResult<int>)
      ensures r == LuaError(NotImplemented)
    {
      r := LuaError(NotImplemented);
    }

    method Read() returns (r: FileResult<int>)
      ensures r == LuaError(NotImplemented)
    {
      r := LuaError(NotImplemented);
    }
  }

  function Concat(chunks: seq<seq<Byte>>): seq<Byte> {
    if chunks == [] then [] else Concat(chunks[..|chunks| - 1]) + chunks[|chunks| - 1]
  }

  /** After `setvbuf("no")` nothing written ever waits in the buffer. */
  method UnbufferedWritesAreFlushed(chunks: seq<seq<Byte>>) returns (written: seq<Byte>, flushed: nat)
    ensures written == Concat(chunks)
    ensures flushed == |written|
  {
    var out := new OutputStreamFile();
    out.Setvbuf("no", 0);
    var i := 0;
    while i < |chunks|
      invariant 0 <= i <= |chunks|
      invariant out.Valid() && out.flushAfterWrite
      invariant out.written == Concat(chunks[..i])
      invariant out.flushed == |out.written|
    {
      assert chunks[..i + 1][..i] == chunks[..i];
      out.Write(chunks[i]);
      i := i + 1;
    }
    assert chunks[..i] == chunks;
    written, flushed := out.written, out.flushed;
  }

  /** With any other buffering mode, written bytes wait until `flush`. */
  method BufferedWritesWaitForFlush(mode: string, first: seq<Byte>, second: seq<Byte>)
    returns (flushedBefore: nat, flushedAfter: nat, written: seq<Byte>)
    requires mode != "no"
    ensures flushedBefore == 0
    ensures written == first + second && flushedAfter == |written|
  {
    var out := new OutputStreamFile();
    out.Setvbuf(mode, 0);
    out.Write(first);
    out.Write(second);
    flushedBefore := out.flushed;
    out.Flush();
    flushedAfter, written := out.flushed, out.written;
  }

  /** Whatever the buffering mode, closing the pipe pushes every write through. */
  method CloseDeliversEverything(mode: string, chunks: seq<seq<Byte>>) returns (written: seq<Byte>, flushed: nat)
    ensures written == Concat(chunks)
    ensures flushed == |written|
  {
    var out := new OutputStreamFile();
    out.Setvbuf(mode, 0);
    var i := 0;
    while i < |chunks|
      invariant 0 <= i <= |chunks|
      invariant out.Valid() && !out.closed
      invariant out.written == Concat(chunks[..i])
    {
      assert chunks[..i + 1][..i] == chunks[..i];
      out.Write(chunks[i]);
      i := i + 1;
    }
    assert chunks[..i] == chunks;
    out.Close();
    written, flushed := out.written, out.flushed;
  }

  /* An `InputStreamFile` over the stream out of a process. */

  /** The stream's bytes, how many have been consumed, and whether it is closed. */
  datatype StreamState = StreamState(input: seq<Byte>, consumed: nat, closed: bool)

  const InputStreamClosed := "Stream closed"

  /** `InputStream.read()`: the next byte, or -1 once the process's output is exhausted. */
  function AfterStreamRead(s: StreamState): (r: (FileResult<int>, StreamState))
    ensures s.closed <==> r.0 == IOException(InputStreamClosed)
    ensures s.closed || s.consumed >= |s.input| ==> r.1 == s
    ensures !s.closed && s.consumed < |s.input| ==> r.0 == Value(s.input[s.consumed]) && r.1 == s.(consumed := s.consumed + 1)
    ensures !s.closed && s.consumed >= |s.input| ==> r.0 == EndOfFile
  {
    if s.closed then (IOException(InputStreamClosed), s)
    else if s.consumed < |s.input| then (Value(s.input[s.consumed]), s.(consumed := s.consumed + 1))
    else (EndOfFile, s)
  }

  class InputStreamFile {
    const input: seq<Byte>
    var consumed: nat
    var closed: bool

    function State(): StreamState
      reads this
    {
      StreamState(input, consumed, closed)
    }

    constructor (input: seq<Byte>)
      ensures State() == StreamState(input, 0, false)
    {
      this.input := input;
      consumed := 0;
      closed := false;
    }

    method Read() returns (r: FileResult<int>)
      modifies this
      ensures (r, State()) == AfterStreamRead(old(State()))
    {
      if closed {
        return IOException(InputStreamClosed);
      }
      if consumed < |input| {
        r := Value(input[consumed]);
        consumed := consumed + 1;
      } else {
        r := EndOfFile;
      }
    }

    /** `peek()`: mark, read one byte, reset to the mark. */
    method Peek() returns (r: FileResult<int>)
      modifies this
      ensures r == AfterStreamRead(old(State())).0
      ensures State() == old(State())
    {
      var mark := consumed;
      r := Read();
      if !closed {
        consumed := mark;
      }
    }

    method Close()
      modifies this
      ensures State() == old(State()).(closed := true)
    {
      closed := true;
    }

    function Remaining(): (r: int)
      ensures r == -1
    {
      -1
    }

    /** `write` and `seek`: a read-only stream raises. */
    method Write(bytes: seq<Byte>) returns (r: FileResult<()>)
      ensures r == LuaError(NotImplemented)
    {
      r := LuaError(NotImplemented);
    }

    method Seek(option: string, bytecount: Int32) returns (r: FileResult<Int32>)
      ensures r == LuaError(NotImplemented)
    {
      r := LuaError(NotImplemented);
    }
  }

  /** Reading a process's output to the end yields exactly what it wrote, then -1. */
  method ReadAll(output: seq<Byte>) returns (got: seq<Byte>, last: FileResult<int>)
    ensures got == output
    ensures last == EndOfFile
  {
    var f := new InputStreamFile(output);
    got := [];
    last := f.Read();
    while last != EndOfFile
      invariant |got| <= |output| && got == output[..|got|]
      invariant last == if |got| < |output| then Value(output[|got|]) else EndOfFile
      invariant f.State() == StreamState(output, if |got| < |output| then |got| + 1 else |got|, false)
      decreases |output| - |got|
    {
      got := got + [last.value];
      last := f.Read();
    }
    assert |got| == |output|;
  }
}
