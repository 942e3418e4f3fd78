/**
 * DNS-over-TLS framing (section 3.3 of RFC 7858, the same two-byte prefix as
 * section 4.2.2 of RFC 1035): a big-endian 16-bit length, then that many bytes.
 */
module Framing {
  import opened Wrappers
  import opened Bytes

  /** Largest payload `write_framed` accepts. */
  const MAX_PAYLOAD: nat := 65535

  /** The `std::io::ErrorKind`s the framing functions produce. */
  datatype IoErrorKind = InvalidInput | InvalidData | UnexpectedEof

  /** The bytes `write_framed` sends for an accepted payload. */
  function Frame(payload: seq<byte>): seq<byte>
    requires |payload| <= MAX_PAYLOAD
  {
    U16ToBe(|payload|) + payload
  }

  /** What one `read_framed` call returns and how many bytes it takes off the stream. */
  datatype ReadOutcome = ReadOutcome(result: Result<seq<byte>, IoErrorKind>, consumed: nat)

  /**
   * `read_framed` on a stream whose remaining bytes are `s`. `read_exact` on a
   * stream that ends early takes what is left and fails with `UnexpectedEof`.
   */
  function ReadFrame(s: seq<byte>): ReadOutcome
  {
    if |s| < 2 then ReadOutcome(Err(UnexpectedEof), |s|)
    else
      var len := U16FromBe(s[0], s[1]);
      if len == 0 then ReadOutcome(Err(InvalidData), 2)
      else if |s| < 2 + len then ReadOutcome(Err(UnexpectedEof), |s|)
      else ReadOutcome(Ok(s[2..2 + len]), 2 + len)
  }

  /** A successful read took exactly one whole frame of what it returns off the stream. */
  lemma ReadFrameConsumesOneFrame(s: seq<byte>)
    requires ReadFrame(s).result.Ok?
    ensures var p := ReadFrame(s).result.value;
      1 <= |p| <= MAX_PAYLOAD && ReadFrame(s).consumed == 2 + |p| &&
      s == Frame(p) + s[ReadFrame(s).consumed..]
  {
    var p := ReadFrame(s).result.value;
    var len := U16FromBe(s[0], s[1]);
    assert |p| == len;
    assert U16ToBe(len) == s[..2];
    assert s == s[..2] + s[2..2 + len] + s[2 + len..];
  }

  /** The consumed count never exceeds the bytes available. */
  lemma ReadFrameConsumedBound(s: seq<byte>)
    ensures ReadFrame(s).consumed <= |s|
    ensures ReadFrame(s).result.Ok? || ReadFrame(s).consumed == |s| ||
      (ReadFrame(s).result == Err(InvalidData) && ReadFrame(s).consumed == 2)
  {
  }

  /** A header announcing length zero is `InvalidData`, after which nothing more is read. */
  lemma ZeroLengthRejected(rest: seq<byte>)
    ensures ReadFrame([0, 0] + rest) == ReadOutcome(Err(InvalidData), 2)
  {
  }

  /** Round trip: reading a written frame gives the payload back and leaves what follows. */
  lemma FrameRoundTrip(p: seq<byte>, rest: seq<byte>)
    requires 1 <= |p| <= MAX_PAYLOAD
    ensures ReadFrame(Frame(p) + rest) == ReadOutcome(Ok(p), 2 + |p|)
  {
    var s := Frame(p) + rest;
    assert s[0] == |p| / 256 && s[1] == |p| % 256;
    assert s[2..2 + |p|] == p;
  }

  /** The empty payload is written as `[0, 0]`, which `read_framed` then refuses. */
  lemma EmptyPayloadAsymmetry(rest: seq<byte>)
    ensures Frame([]) == [0, 0]
    ensures ReadFrame(Frame([]) + rest).result == Err(InvalidData)
  {
    ZeroLengthRejected(rest);
  }

  /**
   * One end of a connection: `input` are the bytes the peer sent, `pos` how many
   * of them have been read, `output` everything written and flushed so far.
   */
  class ByteStream {
    var input: seq<byte>
    var pos: nat
    var output: seq<byte>

    ghost predicate Valid()
      reads this
    {
      pos <= |input|
    }

    /** The bytes still to be read. */
    function Remaining(): seq<byte>
      reads this
      requires Valid()
    {
      input[pos..]
    }

    constructor (incoming: seq<byte>)
      ensures Valid() && input == incoming && pos == 0 && output == []
    {
      input, pos, output := incoming, 0, [];
    }

    /** `read_exact`: fill `buf` completely from the stream, or fail at end of stream. */
    method ReadExact(buf: array<byte>) returns (r: Result<(), IoErrorKind>)
      requires Valid()
      modifies this`pos, buf
      ensures Valid() && input == old(input)
      ensures old(pos) + buf.Length <= |input| ==>
        r == Ok(()) && pos == old(pos) + buf.Length && buf[..] == input[old(pos)..pos]
      ensures old(pos) + buf.Length > |input| ==> r == Err(UnexpectedEof) && pos == |input|
    {
      var i := 0;
      while i < buf.Length && pos < |input|
        invariant 0 <= i <= buf.Length
        invariant pos == old(pos) + i <= |input|
        invariant buf[..i] == input[old(pos)..pos]
      {
        buf[i] := input[pos];
        assert buf[..i + 1] == buf[..i] + [buf[i]];
        i, pos := i + 1, pos + 1;
      }
      if i < buf.Length {
        r := Err(UnexpectedEof);
      } else {
        assert buf[..] == buf[..i];
        r := Ok(());
      }
    }

    /** `read_framed`. */
    method ReadFramed() returns (r: Result<seq<byte>, IoErrorKind>)
      requires Valid()
      modifies this`pos
      ensures Valid() && input == old(input)
      ensures r == ReadFrame(old(Remaining())).result
      ensures pos == old(pos) + ReadFrame(old(Remaining())).consumed
    {
      ghost var s := Remaining();
      var lenBuf := new byte[2];
      var hdr := ReadExact(lenBuf);
      if hdr.Err? {
        return Err(hdr.error);
      }
      assert lenBuf[..] == s[..2];
      var len := U16FromBe(lenBuf[0], lenBuf[1]);
      if len == 0 {
        return Err(InvalidData);
      }
      var buf := new byte[len];
      var body := ReadExact(buf);
      if body.Err? {
        return Err(body.error);
      }
      assert buf[..] == s[2..2 + len];
      r := Ok(buf[..]);
    }

    /** `write_all`: append bytes to the stream. */
    method WriteAll(bytes: seq<byte>)
      modifies this`output
      ensures output == old(output) + bytes
    {
      output := output + bytes;
    }

    /** `write_framed`: refuse an oversized payload, else write length, payload, flush. */
    method WriteFramed(data: seq<byte>) returns (r: Result<(), IoErrorKind>)
      modifies this`output
      ensures |data| > MAX_PAYLOAD ==> r == Err(InvalidInput) && output == old(output)
      ensures |data| <= MAX_PAYLOAD ==> r == Ok(()) && output == old(output) + Frame(data)
    {
      if |data| > MAX_PAYLOAD {
        return Err(InvalidInput);
      }
      var len := U16ToBe(|data|);
      WriteAll(len);
      WriteAll(data);
      r := Ok(());
    }
  }

  /** A payload written to one stream and read from another that delivers those bytes. */
  method FramedRoundTrip(data: seq<byte>) returns (r: Result<seq<byte>, IoErrorKind>)
    requires 1 <= |data| <= MAX_PAYLOAD
    ensures r == Ok(data)
  {
    var writer := new ByteStream([]);
    var w := writer.WriteFramed(data);
    var reader := new ByteStream(writer.output);
    assert reader.Remaining() == Frame(data) + [];
    FrameRoundTrip(data, []);
    r := reader.ReadFramed();
  }
}
