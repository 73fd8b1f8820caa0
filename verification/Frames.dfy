/** The binary frame codec (proto/src/frame.rs): one tag byte, a big-endian
    32-bit length, and the payload. */
module Frames {
  import opened Basics
  import Utf8

  const MAX_PAYLOAD := 1048576

  const TAG_DATA: Byte := 'D' as int
  const TAG_HASH: Byte := 'H' as int
  const TAG_END: Byte := 'E' as int
  const TAG_CONTROL: Byte := 'C' as int
  const TAG_ERROR: Byte := 'X' as int

  type Digest = h: seq<Byte> | |h| == 32 witness seq(32, _ => 0)

  datatype Frame =
    | Data(data: seq<Byte>)
    | Hash(hash: Digest)
    | End
    | Control(json: seq<Byte>)
    | Error(message: string)

  /** Why a read failed: the stream stopped, or what it carried is no frame. */
  datatype Failure = UnexpectedEof | InvalidData

  function Tag(f: Frame): Byte {
    match f
    case Data(_) => TAG_DATA
    case Hash(_) => TAG_HASH
    case End => TAG_END
    case Control(_) => TAG_CONTROL
    case Error(_) => TAG_ERROR
  }

  function Payload(f: Frame): seq<Byte> {
    match f
    case Data(data) => data
    case Hash(hash) => hash
    case End => []
    case Control(json) => json
    case Error(message) => Utf8.Encode(message)
  }

  predicate Writable(f: Frame) {
    |Payload(f)| <= MAX_PAYLOAD
  }

  function BigEndian(n: nat): (b: seq<Byte>)
    requires n < 0x1_0000_0000
    ensures |b| == 4
  {
    [n / 0x100_0000, n / 0x1_0000 % 256, n / 256 % 256, n % 256]
  }

  function FromBigEndian(b: seq<Byte>): nat
    requires |b| == 4
  {
    Word(b[0], b[1], b[2], b[3])
  }

  function Word(a: int, b: int, c: int, d: int): int {
    a * 0x100_0000 + b * 0x1_0000 + c * 256 + d
  }

  function Encode(f: Frame): (b: seq<Byte>)
    requires Writable(f)
    ensures |b| == 5 + |Payload(f)|
  {
    [Tag(f)] + BigEndian(|Payload(f)|) + Payload(f)
  }

  /** A payload read under a tag, as a frame. */
  function Interpret(tag: Byte, payload: seq<Byte>): Result<Frame, Failure> {
    if tag == TAG_DATA then Ok(Data(payload))
    else if tag == TAG_HASH then
      if |payload| == 32 then Ok(Hash(payload)) else Err(InvalidData)
    else if tag == TAG_END then
      if |payload| == 0 then Ok(End) else Err(InvalidData)
    else if tag == TAG_CONTROL then Ok(Control(payload))
    else if tag == TAG_ERROR then Ok(Error(Utf8.Lossy(payload)))
    else Err(InvalidData)
  }

  /** The length a header announces. */
  function LengthIn(header: seq<Byte>): nat
    requires |header| == 5
  {
    FromBigEndian(header[1..])
  }

  function Length(wire: seq<Byte>): nat
    requires |wire| >= 5
  {
    LengthIn(wire[..5])
  }

  /** The first frame on a stream that then stops, with the checks in the order
      they are made: a short header, a length over the limit, a short payload,
      and only then what the tag allows. */
  function Decode(wire: seq<Byte>): Result<Frame, Failure> {
    if |wire| < 5 then Err(UnexpectedEof)
    else if Length(wire) > MAX_PAYLOAD then Err(InvalidData)
    else if |wire| < 5 + Length(wire) then Err(UnexpectedEof)
    else Interpret(wire[0], wire[5..5 + Length(wire)])
  }

  /** One end of a byte stream: what has been written and not yet read. */
  class Stream {
    var bytes: seq<Byte>

    constructor ()
      ensures bytes == []
    {
      bytes := [];
    }

    /** Takes exactly `n` bytes, or everything there is and fails. */
    method ReadExact(n: nat) returns (r: Result<seq<Byte>, Failure>)
      modifies this
      ensures |old(bytes)| >= n ==> r == Ok(old(bytes)[..n]) && bytes == old(bytes)[n..]
      ensures |old(bytes)| < n ==> r == Err(UnexpectedEof) && bytes == []
    {
      if |bytes| < n {
        bytes := [];
        return Err(UnexpectedEof);
      }
      r := Ok(bytes[..n]);
      bytes := bytes[n..];
    }
  }

  method Write(writer: Stream, frame: Frame) returns (ok: bool)
    modifies writer
    ensures ok <==> Writable(frame)
    ensures ok ==> writer.bytes == old(writer.bytes) + Encode(frame)
    ensures !ok ==> writer.bytes == old(writer.bytes)
  {
    var tag, payload := Tag(frame), Payload(frame);
    if |payload| > MAX_PAYLOAD {
      return false;
    }
    var header := new Byte[5];
    header[0] := tag;
    var length := BigEndian(|payload|);
    for i := 0 to 4
      invariant writer.bytes == old(writer.bytes) && header[0] == tag
      invariant forall k :: 0 <= k < i ==> header[1 + k] == length[k]
    {
      header[1 + i] := length[i];
    }
    assert header[..] == [tag] + length;
    writer.bytes := writer.bytes + header[..];
    writer.bytes := writer.bytes + payload;
    assert writer.bytes == old(writer.bytes) + ([tag] + length + payload);
    ok := true;
  }

  method Read(reader: Stream) returns (r: Result<Frame, Failure>)
    modifies reader
    ensures r == Decode(old(reader.bytes))
    ensures reader.bytes == Left(old(reader.bytes))
  {
    ghost var wire := reader.bytes;
    var header := reader.ReadExact(5);
    if header.Err? {
      return Err(header.error);
    }
    var len := LengthIn(header.value);
    if len > MAX_PAYLOAD {
      return Err(InvalidData);
    }
    var payload := reader.ReadExact(len);
    if payload.Err? {
      return Err(payload.error);
    }
    PayloadOf(wire, len);
    r := Interpret(header.value[0], payload.value);
  }

  lemma PayloadOf(wire: seq<Byte>, len: nat)
    requires |wire| >= 5 + len
    ensures wire[5..][..len] == wire[5..5 + len] && wire[5..][len..] == wire[5 + len..]
  {
  }

  /** What one read leaves on a stream, however it ends: nothing after the stream
      stopped short, everything past the header when the length is refused, and
      otherwise everything past the frame. */
  function Left(wire: seq<Byte>): seq<Byte> {
    if |wire| < 5 then []
    else if Length(wire) > MAX_PAYLOAD then wire[5..]
    else if |wire| < 5 + Length(wire) then []
    else wire[5 + Length(wire)..]
  }

  /** What is left of a stream once its first frame has been read. */
  function Rest(wire: seq<Byte>): seq<Byte>
    requires Decode(wire).Ok?
  {
    wire[5 + Length(wire)..]
  }

  // One frame

  lemma BigEndianBack(n: nat)
    requires n < 0x1_0000_0000
    ensures FromBigEndian(BigEndian(n)) == n
  {
    assert n / 256 == n / 0x1_0000 * 256 + n / 256 % 256;
    assert n / 0x1_0000 == n / 0x100_0000 * 256 + n / 0x1_0000 % 256;
  }

  lemma BigEndianForth(b: seq<Byte>)
    requires |b| == 4 && FromBigEndian(b) < 0x1_0000_0000
    ensures BigEndian(FromBigEndian(b)) == b
  {
    var n := FromBigEndian(b);
    assert n / 256 == Word(0, b[0], b[1], b[2]) && n % 256 == b[3];
    assert n / 256 / 256 == Word(0, 0, b[0], b[1]) && n / 256 % 256 == b[2];
    assert n / 0x1_0000 == n / 256 / 256 && n / 0x100_0000 == n / 0x1_0000 / 256;
  }

  /** A payload means under its tag the frame it was the payload of. */
  lemma InterpretPayload(f: Frame)
    ensures Interpret(Tag(f), Payload(f)) == Ok(f)
  {
    if f.Error? {
      Utf8.LossyOfEncode(f.message);
    }
  }

  /** A tag, a length, that many bytes, and whatever follows. */
  lemma DecodeParts(tag: Byte, header: seq<Byte>, payload: seq<Byte>, tail: seq<Byte>)
    requires |header| == 4 && FromBigEndian(header) == |payload| <= MAX_PAYLOAD
    ensures Decode([tag] + header + payload + tail) == Interpret(tag, payload)
    ensures Interpret(tag, payload).Ok? ==> Rest([tag] + header + payload + tail) == tail
  {
    var wire := [tag] + header + payload + tail;
    assert wire[1..5] == header;
    assert wire[5..5 + |payload|] == payload;
    assert wire[5 + |payload|..] == tail;
  }

  /** A written frame is read back, whatever follows it, and only its bytes go. */
  lemma DecodeEncoded(f: Frame, tail: seq<Byte>)
    requires Writable(f)
    ensures Decode(Encode(f) + tail) == Ok(f)
    ensures Rest(Encode(f) + tail) == tail
  {
    InterpretPayload(f);
    BigEndianBack(|Payload(f)|);
    DecodeParts(Tag(f), BigEndian(|Payload(f)|), Payload(f), tail);
  }

  /** No frame is read out of a strict prefix of one: the stream just stops. */
  lemma DecodeTruncated(f: Frame, n: nat)
    requires Writable(f) && n < |Encode(f)|
    ensures Decode(Encode(f)[..n]) == Err(UnexpectedEof)
  {
    if n >= 5 {
      assert Encode(f)[1..5] == BigEndian(|Payload(f)|);
      assert Encode(f)[..n][1..5] == Encode(f)[1..5];
      BigEndianBack(|Payload(f)|);
    }
  }

  /** A decoded frame is within the limit, and encoding it again gives back the
      bytes it was read from -- always, except for an error frame whose message
      was not UTF-8. */
  lemma EncodeDecoded(wire: seq<Byte>)
    ensures Decode(wire).Ok? ==>
              var n := Length(wire);
              && n <= MAX_PAYLOAD
              && (Writable(Decode(wire).value) && Encode(Decode(wire).value) == wire[..5 + n]
                  <==> (Decode(wire).value.Error? ==> Utf8.WellFormed(wire[5..5 + n])))
  {
    if Decode(wire).Ok? {
      EncodeRead(wire);
    }
  }

  lemma EncodeRead(wire: seq<Byte>)
    requires Decode(wire).Ok?
    ensures var n := Length(wire);
            && n <= MAX_PAYLOAD
            && (Writable(Decode(wire).value) && Encode(Decode(wire).value) == wire[..5 + n]
                <==> (Decode(wire).value.Error? ==> Utf8.WellFormed(wire[5..5 + n])))
  {
    var f, n := Decode(wire).value, Length(wire);
    var payload := wire[5..5 + n];
    assert wire[..5 + n] == [wire[0]] + wire[1..5] + payload;
    BigEndianForth(wire[1..5]);
    if f.Error? {
      Utf8.EncodeOfLossy(payload);
      if Writable(f) && Encode(f) == wire[..5 + n] {
        assert Encode(f)[5..] == Payload(f) && wire[..5 + n][5..] == payload;
      }
    }
  }

  /** An error frame that was read can be sent on exactly when its payload, with what
      replacing its ill-formed runs adds, is still within the limit. */
  lemma ErrorFitsExactly(wire: seq<Byte>)
    ensures Decode(wire).Ok? && Decode(wire).value.Error? ==>
              (Writable(Decode(wire).value) <==>
               Length(wire) + Utf8.Growth(wire[5..5 + Length(wire)]) <= MAX_PAYLOAD)
  {
    if Decode(wire).Ok? && Decode(wire).value.Error? {
      Utf8.LossyLen(wire[5..5 + Length(wire)]);
    }
  }

  /** An error frame of a full payload of bytes that start nothing. */
  function JunkError(): seq<Byte> {
    [TAG_ERROR] + BigEndian(MAX_PAYLOAD) + seq(MAX_PAYLOAD, _ => 0xFF)
  }

  /** It is accepted, and its message is too long to send on. */
  lemma SomeErrorCannotBeSentOn()
    ensures Decode(JunkError()).Ok? && Decode(JunkError()).value.Error? && !Writable(Decode(JunkError()).value)
  {
    var junk: seq<Byte> := seq(MAX_PAYLOAD, _ => 0xFF);
    BigEndianBack(MAX_PAYLOAD);
    JunkErrorIsTooLong(BigEndian(MAX_PAYLOAD), junk, JunkError());
  }

  lemma JunkErrorIsTooLong(header: seq<Byte>, junk: seq<Byte>, wire: seq<Byte>)
    requires |header| == 4 && FromBigEndian(header) == |junk| == MAX_PAYLOAD
    requires forall i :: 0 <= i < |junk| ==> junk[i] == 0xFF
    requires wire == [TAG_ERROR] + header + junk
    ensures Decode(wire).Ok? && Decode(wire).value.Error? && !Writable(Decode(wire).value)
  {
    DecodeParts(TAG_ERROR, header, junk, []);
    assert wire + [] == wire;
    Utf8.JunkGrows(junk);
    Utf8.LossyLen(junk);
  }

  // Whole streams

  function EncodeAll(fs: seq<Frame>): seq<Byte>
    requires forall i :: 0 <= i < |fs| ==> Writable(fs[i])
  {
    if fs == [] then [] else Encode(fs[0]) + EncodeAll(fs[1..])
  }

  /** Everything a reader gets from a stream that then stops: its frames, and
      the failure that ended it. */
  function DecodeAll(wire: seq<Byte>): (seq<Frame>, Failure)
    decreases |wire|
  {
    match Decode(wire)
    case Err(e) => ([], e)
    case Ok(f) => var rest := DecodeAll(Rest(wire)); ([f] + rest.0, rest.1)
  }

  /** How many of these frames lie wholly within the first `n` bytes. */
  function Whole(fs: seq<Frame>, n: nat): (k: nat)
    requires forall i :: 0 <= i < |fs| ==> Writable(fs[i])
    ensures k <= |fs|
  {
    if fs == [] || |Encode(fs[0])| > n then 0 else 1 + Whole(fs[1..], n - |Encode(fs[0])|)
  }

  /** A stream cut after any number of bytes yields exactly the frames that
      arrived whole, in order, and then the end of the stream. */
  lemma {:induction false} DecodeCut(fs: seq<Frame>, n: nat)
    requires forall i :: 0 <= i < |fs| ==> Writable(fs[i])
    requires n <= |EncodeAll(fs)|
    ensures DecodeAll(EncodeAll(fs)[..n]) == (fs[..Whole(fs, n)], UnexpectedEof)
  {
    var wire := EncodeAll(fs)[..n];
    if fs == [] {
    } else if |Encode(fs[0])| > n {
      assert wire == Encode(fs[0])[..n];
      DecodeTruncated(fs[0], n);
    } else {
      var m := n - |Encode(fs[0])|;
      var tail := EncodeAll(fs[1..])[..m];
      assert wire == Encode(fs[0]) + tail;
      DecodeEncoded(fs[0], tail);
      DecodeCut(fs[1..], m);
      assert fs[..Whole(fs, n)] == [fs[0]] + fs[1..][..Whole(fs[1..], m)];
    }
  }

  lemma {:induction false} WholeStream(fs: seq<Frame>)
    requires forall i :: 0 <= i < |fs| ==> Writable(fs[i])
    ensures Whole(fs, |EncodeAll(fs)|) == |fs|
  {
    if fs != [] {
      WholeStream(fs[1..]);
    }
  }

  /** Reading what was written gives exactly the frames, and then the end. */
  lemma RoundTrip(fs: seq<Frame>)
    requires forall i :: 0 <= i < |fs| ==> Writable(fs[i])
    ensures DecodeAll(EncodeAll(fs)) == (fs, UnexpectedEof)
  {
    var wire := EncodeAll(fs);
    DecodeCut(fs, |wire|);
    WholeStream(fs);
    assert wire[..|wire|] == wire && fs[..|fs|] == fs;
  }

  /** Every frame a reader gets, from any bytes at all, is one a writer could
      have sent -- an error frame's message excepted, which replacement
      characters can lengthen. */
  lemma {:induction false} DecodedWithinLimit(wire: seq<Byte>, i: nat)
    ensures i < |DecodeAll(wire).0| && !DecodeAll(wire).0[i].Error? ==> Writable(DecodeAll(wire).0[i])
    decreases |wire|
  {
    EncodeDecoded(wire);
    if Decode(wire).Ok? && i > 0 {
      DecodedWithinLimit(Rest(wire), i - 1);
    }
  }
}
