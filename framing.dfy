/**
 * Length-prefixed framing (`framing::send` / `framing::recv`): a frame is a
 * 4-byte big-endian body length followed by the JSON body.
 *
 * The JSON codec is a pair of function values, `encode` and `decode`; the
 * round-trip lemmas assume of them only that `decode(encode(m)) == Some(m)`.
 * A connection is a `Stream` whose unread input and written output are byte
 * sequences; a peer that has gone away makes every write fail.
 */
module Framing {
  import opened Wrappers
  import opened Hex

  const U32Modulus: nat := 0x1_0000_0000

  /** Values of Rust's `u32`. */
  type U32 = n: nat | n < U32Modulus

  datatype FrameError = Io | Json

  /** `write_u32`: the big-endian bytes of `n`. */
  function Be32(n: nat): (r: seq<byte>)
    requires n < U32Modulus
    ensures |r| == 4 && Be32Value(r) == n
  {
    var q1 := n / 0x100;
    var q2 := q1 / 0x100;
    var q3 := q2 / 0x100;
    [q3, q2 % 0x100, q1 % 0x100, n % 0x100]
  }

  /** `read_u32`: the value of four big-endian bytes. */
  function Be32Value(b: seq<byte>): (n: nat)
    requires |b| == 4
    ensures n < U32Modulus
  {
    b[0] as int * 0x100_0000 + b[1] as int * 0x1_0000 + b[2] as int * 0x100 + b[3] as int
  }

  lemma Be32OfValue(b: seq<byte>)
    requires |b| == 4
    ensures Be32(Be32Value(b)) == b
  {
    var n := Be32Value(b);
    var b0, b1, b2, b3 := b[0] as int, b[1] as int, b[2] as int, b[3] as int;
    assert n == (b0 * 0x1_0000 + b1 * 0x100 + b2) * 0x100 + b3;
    assert n / 0x100 == b0 * 0x1_0000 + b1 * 0x100 + b2;
    assert n / 0x100 / 0x100 == b0 * 0x100 + b1;
    assert n / 0x100 / 0x100 / 0x100 == b0;
  }

  /** The bytes `send` writes for a body: its length modulo 2^32 (`len() as u32`), then the body. */
  function Frame(body: seq<byte>): (r: seq<byte>)
    ensures |r| == 4 + |body| && r[4..] == body
    ensures Be32Value(r[..4]) == |body| % U32Modulus
  {
    Be32(|body| % U32Modulus) + body
  }

  /**
   * What `recv` yields on the unread input, and what it leaves unread. A short
   * read of the prefix or of the body is an `Io` error after `read_exact` has
   * taken every byte there was; a body the codec refuses is a `Json` error
   * after the whole frame was taken.
   */
  function RecvResult<T>(input: seq<byte>, decode: seq<byte> -> Option<T>)
    : (r: (Result<T, FrameError>, seq<byte>))
    ensures r.0 == Failure(Io) <==>
              |input| < 4 || |input| < 4 + Be32Value(input[..4])
    ensures r.0 == Failure(Io) ==> r.1 == []
    ensures r.0 != Failure(Io) ==>
              r.1 == input[4 + Be32Value(input[..4])..]
              && (r.0.Success? <==> decode(input[4..4 + Be32Value(input[..4])]).Some?)
    ensures r.0.Success? ==> Some(r.0.value) == decode(input[4..4 + Be32Value(input[..4])])
  {
    if |input| < 4 then (Failure(Io), [])
    else
      var len := Be32Value(input[..4]);
      if |input| < 4 + len then (Failure(Io), [])
      else
        match decode(input[4..4 + len])
        case None => (Failure(Json), input[4 + len..])
        case Some(v) => (Success(v), input[4 + len..])
  }

  class Stream {
    /** Bytes the peer has sent that nobody has read yet. */
    var input: seq<byte>
    /** Bytes written to the peer so far. */
    var output: seq<byte>
    /** False once the peer has gone away: every later write fails. */
    var writable: bool

    constructor (input: seq<byte>, writable: bool)
      ensures this.input == input && output == [] && this.writable == writable
    {
      this.input := input;
      this.output := [];
      this.writable := writable;
    }

    method WriteAll(bytes: seq<byte>) returns (r: Result<(), FrameError>)
      modifies this
      ensures r.Success? <==> old(writable)
      ensures output == if old(writable) then old(output) + bytes else old(output)
      ensures input == old(input) && writable == old(writable)
    {
      if !writable {
        return Failure(Io);
      }
      output := output + bytes;
      return Success(());
    }

    /** `read_exact`: exactly `n` bytes, or an `Io` error once the input runs dry. */
    method ReadExact(n: nat) returns (r: Result<seq<byte>, FrameError>)
      modifies this
      ensures r.Success? <==> n <= |old(input)|
      ensures r.Success? ==> r.value == old(input)[..n] && input == old(input)[n..]
      ensures r.Failure? ==> r.error == Io && input == []
      ensures output == old(output) && writable == old(writable)
    {
      if |input| < n {
        input := [];
        return Failure(Io);
      }
      r := Success(input[..n]);
      input := input[n..];
    }

    /** `framing::send`: serialise, write the length prefix, then the body. */
    method Send<T>(msg: T, encode: T -> seq<byte>) returns (r: Result<(), FrameError>)
      modifies this
      ensures r.Success? <==> old(writable)
      ensures output == if old(writable) then old(output) + Frame(encode(msg)) else old(output)
      ensures input == old(input) && writable == old(writable)
    {
      var body := encode(msg);
      var prefix := WriteAll(Be32(|body| % U32Modulus));
      if prefix.Failure? {
        return prefix;
      }
      r := WriteAll(body);
    }

    /** `framing::recv`: read the prefix, allocate that many bytes, read them, decode. */
    method Recv<T>(decode: seq<byte> -> Option<T>) returns (r: Result<T, FrameError>)
      modifies this
      ensures (r, input) == RecvResult(old(input), decode)
      ensures output == old(output) && writable == old(writable)
    {
      var prefix := ReadExact(4);
      if prefix.Failure? {
        return Failure(Io);
      }
      var len := Be32Value(prefix.value);
      var body := ReadExact(len);
      if body.Failure? {
        return Failure(Io);
      }
      assert body.value == old(input)[4..4 + len];
      match decode(body.value)
      case None => return Failure(Json);
      case Some(v) => return Success(v);
    }
  }

  /** `recv` after `send` gives back the message and leaves whatever followed the frame. */
  lemma FrameRoundTrip<T>(m: T, encode: T -> seq<byte>, decode: seq<byte> -> Option<T>,
                          rest: seq<byte>)
    requires decode(encode(m)) == Some(m)
    requires |encode(m)| < U32Modulus
    ensures RecvResult(Frame(encode(m)) + rest, decode) == (Success(m), rest)
  {
    var body := encode(m);
    var input := Frame(body) + rest;
    assert input[..4] == Frame(body)[..4];
    assert input[4..4 + |body|] == body;
    assert input[4 + |body|..] == rest;
  }

  /** Two frames written back to back are read back in order. */
  lemma TwoFramesInOrder<T>(a: T, b: T, encode: T -> seq<byte>, decode: seq<byte> -> Option<T>)
    requires decode(encode(a)) == Some(a) && decode(encode(b)) == Some(b)
    requires |encode(a)| < U32Modulus && |encode(b)| < U32Modulus
    ensures RecvResult(Frame(encode(a)) + Frame(encode(b)), decode)
         == (Success(a), Frame(encode(b)))
    ensures RecvResult(Frame(encode(b)), decode) == (Success(b), [])
  {
    FrameRoundTrip(a, encode, decode, Frame(encode(b)));
    FrameRoundTrip(b, encode, decode, []);
    assert Frame(encode(b)) + [] == Frame(encode(b));
  }

  /**
   * Any length prefix below 2^32 is honoured: that many bytes are read as the
   * body, whatever their number, and only the bytes after them are left.
   */
  lemma RecvHonoursAnyLength<T>(n: nat, body: seq<byte>, rest: seq<byte>,
                                decode: seq<byte> -> Option<T>)
    requires n < U32Modulus && |body| == n
    ensures RecvResult(Be32(n) + body + rest, decode).1 == rest
    ensures RecvResult(Be32(n) + body + rest, decode).0.Success? <==> decode(body).Some?
  {
    var input := Be32(n) + body + rest;
    assert input[..4] == Be32(n);
    assert input[4..4 + n] == body;
    assert input[4 + n..] == rest;
  }

  /** A prefix announcing more bytes than arrive is an `Io` error, not a partial body. */
  lemma ShortBodyIsIo<T>(n: nat, partial: seq<byte>, decode: seq<byte> -> Option<T>)
    requires n < U32Modulus && |partial| < n
    ensures RecvResult(Be32(n) + partial, decode) == (Failure(Io), [])
  {
    assert (Be32(n) + partial)[..4] == Be32(n);
  }
}
