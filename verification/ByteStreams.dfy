/**
 The bounded in-order byte stream. A stream is specified by the bytes it has ever taken and by
 how far they have been read; the class keeps only the unread bytes and two counters.
 */
module ByteStreams {
  import opened Words

  datatype Stream = Stream(capacity: nat, input: seq<Byte>, read: nat, error: bool, ended: bool)
  {
    predicate Valid() {
      read <= |input| <= read + capacity
    }

    /** Number of bytes taken and not yet read. */
    function Buffered(): int {
      |input| - read
    }

    function Remaining(): int {
      capacity - Buffered()
    }

    predicate Eof() {
      Buffered() == 0 && ended
    }

    /** How many of n offered bytes the stream takes. */
    function Room(n: nat): int {
      if ended then 0 else Min(n, Remaining())
    }

    function Write(data: seq<Byte>): (s: Stream)
      requires Valid()
      ensures s.Valid()
    {
      this.(input := input + data[..Room(|data|)])
    }

    /** Read position after asking for len bytes. */
    function ReadTo(len: nat): int {
      read + Min(len, Buffered())
    }

    function Peek(len: nat): (data: seq<Byte>)
      requires Valid()
    {
      input[read..ReadTo(len)]
    }

    function Pop(len: nat): (s: Stream)
      requires Valid()
      ensures s.Valid()
    {
      this.(read := ReadTo(len))
    }
  }

  function Fresh(capacity: nat): (s: Stream)
    ensures s.Valid()
  {
    Stream(capacity, [], 0, false, false)
  }

  /** How many bytes a write takes and a look at the output shows. */
  lemma HowMany(s: Stream, data: seq<Byte>, len: nat)
    requires s.Valid()
    ensures |s.Write(data).input| == |s.input| + if s.ended then 0 else Min(|data|, s.capacity - (|s.input| - s.read))
    ensures s.input <= s.Write(data).input <= s.input + data
    ensures |s.Peek(len)| == Min(len, |s.input| - s.read)
    ensures s.Pop(len) == s.(read := s.read + |s.Peek(len)|)
  {
    assert (s.input + data)[..|s.Write(data).input|] == s.Write(data).input;
  }

  /** Reading in two pieces is reading at once: bytes come out in order, each of them once. */
  lemma ReadTwice(s: Stream, m: nat, n: nat)
    requires s.Valid()
    ensures s.Peek(m) + s.Pop(m).Peek(n) == s.Peek(m + n)
    ensures s.Pop(m).Pop(n) == s.Pop(m + n)
    ensures s.input[..s.read] + s.Peek(m) == s.input[..s.Pop(m).read]
  {
  }

  /** Writing two pieces is writing their concatenation, also when it does not fit. */
  lemma WriteTwice(s: Stream, a: seq<Byte>, b: seq<Byte>)
    requires s.Valid()
    ensures s.Write(a).Write(b) == s.Write(a + b)
  {
    var t := s.Write(a);
    var taken, more := a[..s.Room(|a|)], b[..t.Room(|b|)];
    assert taken + more == (a + b)[..s.Room(|a + b|)];
    assert s.input + taken + more == s.input + (taken + more);
  }

  class ByteStream {
    const capacity: nat
    var buffer: seq<Byte>
    var error: bool
    var ended: bool
    var bytesRead: nat
    var bytesWritten: nat
    ghost var input: seq<Byte>  // every byte the stream has taken

    ghost predicate Valid()
      reads this
    {
      && bytesWritten == |input|
      && bytesRead + |buffer| == |input|
      && |buffer| <= capacity
      && buffer == input[bytesRead..]
    }

    ghost function Model(): Stream
      reads this
    {
      Stream(capacity, input, bytesRead, error, ended)
    }

    constructor (capacity: nat)
      ensures Valid() && Model() == Fresh(capacity)
    {
      this.capacity := capacity;
      buffer, error, ended := [], false, false;
      bytesRead, bytesWritten := 0, 0;
      input := [];
    }

    method Write(data: seq<Byte>) returns (n: nat)
      requires Valid()
      modifies this
      ensures Valid() && Model() == old(Model()).Write(data)
      ensures n == if old(ended) then 0 else Min(|data|, old(Model()).Remaining())
      ensures input == old(input) + data[..n]
    {
      if ended {
        assert input + data[..0] == input;
        return 0;
      }
      n := Min(|data|, capacity - |buffer|);
      assert (input + data[..n])[bytesRead..] == input[bytesRead..] + data[..n];
      buffer := buffer + data[..n];
      bytesWritten := bytesWritten + n;
      input := input + data[..n];
    }

    method PeekOutput(len: nat) returns (r: seq<Byte>)
      requires Valid()
      ensures r == Model().Peek(len)
    {
      r := buffer[..Min(len, |buffer|)];
    }

    method PopOutput(len: nat)
      requires Valid()
      modifies this
      ensures Valid() && Model() == old(Model()).Pop(len)
    {
      var k := Min(len, |buffer|);
      assert input[bytesRead..][k..] == input[bytesRead + k..];
      buffer := buffer[k..];
      bytesRead := bytesRead + k;
    }

    /** What is read is the input from where the last read stopped. */
    method Read(len: nat) returns (r: seq<Byte>)
      requires Valid()
      modifies this
      ensures Valid() && Model() == old(Model()).Pop(len)
      ensures r == old(Model()).Peek(len) == input[old(bytesRead)..bytesRead]
    {
      r := PeekOutput(len);
      PopOutput(len);
    }

    method EndInput()
      requires Valid()
      modifies this
      ensures Valid() && Model() == old(Model()).(ended := true)
    {
      ended := true;
    }

    method SetError()
      requires Valid()
      modifies this
      ensures Valid() && Model() == old(Model()).(error := true)
    {
      error := true;
    }

    method RemainingCapacity() returns (n: nat)
      requires Valid()
      ensures n == Model().Remaining()
    {
      n := capacity - |buffer|;
    }

    method Eof() returns (b: bool)
      requires Valid()
      ensures b <==> Model().Eof()
    {
      b := |buffer| == 0 && ended;
    }
  }
}
