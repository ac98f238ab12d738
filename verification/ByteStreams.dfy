/** The bounded in-order byte stream under both endpoints.

    `Stream` is the value of a stream: everything ever written and how much of it has been
    popped. `ByteStream` is the object, which keeps only the bytes not yet popped. */
module ByteStreams {
  import opened Basics

  datatype Stream = Stream(capacity: nat, written: Bytes, read: nat, ended: bool, error: bool) {

    ghost predicate Valid()
    {
      read <= |written| <= read + capacity
    }

    function BufferSize(): int
    {
      |written| - read
    }

    function Remaining(): int
    {
      capacity - BufferSize()
    }

    predicate Eof()
    {
      ended && BufferSize() == 0
    }

    /** How many bytes of `data` a write takes. */
    function Accepted(data: Bytes): nat
      requires Valid()
    {
      Min(|data|, Remaining())
    }

    function Write(data: Bytes): Stream
      requires Valid()
    {
      this.(written := written + data[..Accepted(data)])
    }

    function Peek(len: nat): Bytes
      requires Valid()
    {
      written[read..read + Min(len, BufferSize())]
    }

    function Pop(len: nat): Stream
      requires Valid()
    {
      this.(read := read + Min(len, BufferSize()))
    }

    function EndInput(): Stream
    {
      this.(ended := true)
    }

    function SetError(): Stream
    {
      this.(error := true)
    }
  }

  function NewStream(capacity: nat): Stream
  {
    Stream(capacity, [], 0, false, false)
  }

  // ---------------------------------------------------------------- uses

  datatype Use = Put(data: Bytes) | Take(len: nat) | Finish

  /** A stream after some uses, the bytes it took in and the bytes it gave out. */
  datatype Trace = Trace(stream: Stream, taken: Bytes, given: Bytes)

  function Trail(s: Stream, uses: seq<Use>): (t: Trace)
    requires s.Valid()
    ensures t.stream.Valid()
    decreases |uses|
  {
    if uses == [] then Trace(s, [], [])
    else
      match uses[0]
      case Put(data) =>
        var t := Trail(s.Write(data), uses[1..]);
        t.(taken := data[..s.Accepted(data)] + t.taken)
      case Take(len) =>
        var t := Trail(s.Pop(len), uses[1..]);
        t.(given := s.Peek(len) + t.given)
      case Finish => Trail(s.EndInput(), uses[1..])
  }

  /** First in, first out: what was held and what was taken in is, in this order, what was given
      out and what is held; and never more is held than the capacity. */
  lemma {:induction false} FirstInFirstOut(s: Stream, uses: seq<Use>)
    requires s.Valid()
    ensures
      var t := Trail(s, uses);
      && s.written[s.read..] + t.taken == t.given + t.stream.written[t.stream.read..]
      && |t.stream.written[t.stream.read..]| <= s.capacity
    decreases |uses|
  {
    if uses == [] {
    } else {
      match uses[0] {
        case Put(data) =>
          var s1, part := s.Write(data), data[..s.Accepted(data)];
          var t := Trail(s1, uses[1..]);
          FirstInFirstOut(s1, uses[1..]);
          HeldAfter(s.written, part, s.read);
          Regroup(s.written[s.read..], part, t.taken);
        case Take(len) =>
          var s1 := s.Pop(len);
          var t := Trail(s1, uses[1..]);
          FirstInFirstOut(s1, uses[1..]);
          assert s.written[s.read..] == s.Peek(len) + s1.written[s1.read..];
          Regroup(s.Peek(len), s1.written[s1.read..], t.taken);
          Regroup(s.Peek(len), t.given, t.stream.written[t.stream.read..]);
        case Finish => FirstInFirstOut(s.EndInput(), uses[1..]);
      }
    }
  }

  /** Nothing is refused that fits, and nothing withheld that is held: after a write that is cut short
      the stream is full, after a read that is cut short it is empty. */
  lemma CutShortOnlyIf(s: Stream, data: Bytes, len: nat)
    requires s.Valid()
    ensures s.Write(data).written == s.written + data || s.Write(data).Remaining() == 0
    ensures |s.Peek(len)| == len || s.Pop(len).BufferSize() == 0
  {
    assert data[..|data|] == data;
  }

  lemma HeldAfter(written: Bytes, part: Bytes, read: nat)
    requires read <= |written|
    ensures (written + part)[read..] == written[read..] + part
  {
  }

  lemma Regroup(a: Bytes, b: Bytes, c: Bytes)
    ensures a + b + c == a + (b + c)
  {
  }

  // ---------------------------------------------------------------- the object

  class ByteStream {
    const capacity: nat
    var buffer: Bytes
    var bufferSize: nat
    var bytesWritten: nat
    var bytesRead: nat
    var inputEnded: bool
    var error: bool
    ghost var history: Bytes

    ghost predicate Valid()
      reads this
    {
      && bytesRead <= |history|
      && buffer == history[bytesRead..]
      && bufferSize == |buffer| <= capacity
      && bytesWritten == |history|
    }

    ghost function Model(): (s: Stream)
      requires Valid()
      reads this
      ensures s.Valid()
    {
      Stream(capacity, history, bytesRead, inputEnded, error)
    }

    constructor (capacity: nat)
      ensures Valid() && Model() == NewStream(capacity)
    {
      this.capacity := capacity;
      buffer, bufferSize, bytesWritten, bytesRead := [], 0, 0, 0;
      inputEnded, error := false, false;
      history := [];
    }

    /** Bytes are taken one at a time while there is room. */
    method Write(data: Bytes) returns (accepted: nat)
      requires Valid()
      modifies this
      ensures Valid()
      ensures accepted == old(Model()).Accepted(data)
      ensures Model() == old(Model()).Write(data)
    {
      var remaining := capacity - bufferSize;
      if remaining == 0 || |data| == 0 {
        assert history == history + data[..0];
        return 0;
      }
      var writeable := if |data| > remaining then remaining else |data|;
      var i := 0;
      while i < writeable
        invariant 0 <= i <= writeable
        invariant Valid() && bufferSize == old(bufferSize) + i
        invariant history == old(history) + data[..i]
        invariant bytesRead == old(bytesRead) && inputEnded == old(inputEnded) && error == old(error)
      {
        buffer := buffer + [data[i]];
        bufferSize := bufferSize + 1;
        bytesWritten := bytesWritten + 1;
        history := history + [data[i]];
        i := i + 1;
      }
      return writeable;
    }

    method PeekOutput(len: nat) returns (bytes: Bytes)
      requires Valid()
      ensures bytes == Model().Peek(len)
    {
      var peekLen := if len > bufferSize then bufferSize else len;
      bytes := buffer[..peekLen];
    }

    method PopOutput(len: nat)
      requires Valid()
      modifies this
      ensures Valid() && Model() == old(Model()).Pop(len)
    {
      var popLen := if len > bufferSize then bufferSize else len;
      buffer := buffer[popLen..];
      bufferSize := bufferSize - popLen;
      bytesRead := bytesRead + popLen;
    }

    method Read(len: nat) returns (bytes: Bytes)
      requires Valid()
      modifies this
      ensures Valid() && bytes == old(Model()).Peek(len) && Model() == old(Model()).Pop(len)
    {
      if len == 0 {
        return [];
      }
      bytes := PeekOutput(len);
      PopOutput(len);
    }

    method EndInput()
      requires Valid()
      modifies this
      ensures Valid() && Model() == old(Model()).EndInput()
    {
      inputEnded := true;
    }

    method SetError()
      requires Valid()
      modifies this
      ensures Valid() && Model() == old(Model()).SetError()
    {
      error := true;
    }
  }
}
