/** The packet frame: a four-byte length, sixteen bytes of metadata and the body, all big-endian,
    as the C++ gateway writes and reads it, and as the Python load tools do. */
module PacketCodec {
  import opened Arithmetic
  import opened Common
  import opened Serializer

  type u16 = x: int | 0 <= x < 0x1_0000
  type u32 = x: int | 0 <= x < 0x1_0000_0000
  type i32 = x: int | -0x8000_0000 <= x < 0x8000_0000

  const METADATA := 16
  const LENGTH_HEADER := 4
  const PYTHON_FRAME_LIMIT := 1024 * 1024

  datatype Packet = Packet(version: byte, messageId: u16, requestId: u32, sequenceNumber: u32,
                           errorCode: i32, flags: byte, body: Bytes)

  /** A conversion to uint32_t, and back to int32_t. */
  function ToUnsigned(e: i32): u32 {
    if e < 0 then e + U32 else e
  }

  function ToSigned(u: u32): i32 {
    if u >= 0x8000_0000 then u - U32 else u
  }

  /** The byte of `v` that starts at bit `8 * k`: a shift followed by a mask. */
  function ByteOf(v: nat, k: nat): byte
    requires k < 4
  {
    (if k == 0 then v else if k == 1 then v / 0x100 else if k == 2 then v / 0x1_0000 else v / 0x100_0000) % 0x100
  }

  function Bytes4(v: nat): (b: Bytes)
    ensures |b| == 4
  {
    [ByteOf(v, 3), ByteOf(v, 2), ByteOf(v, 1), ByteOf(v, 0)]
  }

  function Bytes2(v: nat): (b: Bytes)
    ensures |b| == 2
  {
    [ByteOf(v, 1), ByteOf(v, 0)]
  }

  function FromBytes4(a: byte, b: byte, c: byte, d: byte): (v: u32) {
    a as int * 0x100_0000 + b as int * 0x1_0000 + c as int * 0x100 + d as int
  }

  lemma {:induction false} FourBytes(v: u32, b: Bytes, k: nat)
    requires k + 4 <= |b| && b[k..k + 4] == Bytes4(v)
    ensures FromBytes4(b[k], b[k + 1], b[k + 2], b[k + 3]) == v
  {
    var four := b[k..k + 4];
    assert b[k] == four[0] && b[k + 1] == four[1] && b[k + 2] == four[2] && b[k + 3] == four[3];
    Bytes4Value(v);
  }

  lemma {:induction false} Bytes4Value(v: u32)
    ensures FromBytes4(ByteOf(v, 3), ByteOf(v, 2), ByteOf(v, 1), ByteOf(v, 0)) == v
  {
    FourBytesSum(v);
    assert v / 0x100_0000 % 0x100 == v / 0x100_0000;
  }

  lemma {:induction false} TwoBytes(v: u16, b: Bytes, k: nat)
    requires k + 2 <= |b| && b[k..k + 2] == Bytes2(v)
    ensures b[k] as int * 0x100 + b[k + 1] as int == v
  {
  }

  // ---- The C++ codec -----------------------------------------------------------------------------

  function Metadata(p: Packet): (h: Bytes)
    ensures |h| == METADATA
  {
    [p.version] + Bytes2(p.messageId) + Bytes4(p.requestId) + Bytes4(p.sequenceNumber) +
    Bytes4(ToUnsigned(p.errorCode)) + [p.flags]
  }

  function Frame(p: Packet): Bytes {
    Bytes4(METADATA + |p.body|) + Metadata(p) + p.body
  }

  /** The frame length fits its four bytes; beyond it the copy of the body overruns the buffer. */
  predicate Encodable(p: Packet) {
    METADATA + |p.body| < U32
  }

  method PutByte(buffer: array<byte>, k: nat, v: byte)
    requires k < buffer.Length
    modifies buffer
    ensures buffer[..k + 1] == old(buffer[..k]) + [v]
  {
    buffer[k] := v;
  }

  method Put2(buffer: array<byte>, k: nat, v: nat)
    requires k + 2 <= buffer.Length
    modifies buffer
    ensures buffer[..k + 2] == old(buffer[..k]) + Bytes2(v)
  {
    buffer[k] := ByteOf(v, 1);
    buffer[k + 1] := ByteOf(v, 0);
  }

  method Put4(buffer: array<byte>, k: nat, v: nat)
    requires k + 4 <= buffer.Length
    modifies buffer
    ensures buffer[..k + 4] == old(buffer[..k]) + Bytes4(v)
  {
    buffer[k] := ByteOf(v, 3);
    buffer[k + 1] := ByteOf(v, 2);
    buffer[k + 2] := ByteOf(v, 1);
    buffer[k + 3] := ByteOf(v, 0);
  }

  method PutHead(buffer: array<byte>, p: Packet)
    requires buffer.Length == LENGTH_HEADER + METADATA + |p.body|
    modifies buffer
    ensures buffer[..20] == Bytes4(METADATA + |p.body|) + Metadata(p)
  {
    var n := METADATA + |p.body|;
    Put4(buffer, 0, n);
    assert buffer[..0] == [] && buffer[..4] == Bytes4(n);
    PutByte(buffer, 4, p.version);
    Put2(buffer, 5, p.messageId);
    Put4(buffer, 7, p.requestId);
    Put4(buffer, 11, p.sequenceNumber);
    Put4(buffer, 15, ToUnsigned(p.errorCode));
    PutByte(buffer, 19, p.flags);
    Regroup(Bytes4(n), [p.version], Bytes2(p.messageId), Bytes4(p.requestId), Bytes4(p.sequenceNumber),
            Bytes4(ToUnsigned(p.errorCode)), [p.flags]);
  }

  lemma {:induction false} Regroup(n: Bytes, v: Bytes, m: Bytes, r: Bytes, s: Bytes, e: Bytes, f: Bytes)
    ensures n + v + m + r + s + e + f == n + (v + m + r + s + e + f)
  {
  }

  method Encode(p: Packet) returns (packet: Bytes)
    requires Encodable(p)
    ensures packet == Frame(p)
  {
    var buffer := new byte[LENGTH_HEADER + METADATA + |p.body|];
    PutHead(buffer, p);
    ghost var head := buffer[..20];
    for i := 0 to |p.body|
      invariant buffer[..20 + i] == head + p.body[..i]
    {
      PutByte(buffer, LENGTH_HEADER + METADATA + i, p.body[i]);
      assert p.body[..i + 1] == p.body[..i] + [p.body[i]];
    }
    assert p.body[..|p.body|] == p.body && buffer[..20 + |p.body|] == buffer[..];
    return buffer[..];
  }

  function DecodeLength(h: Bytes): u32
    requires |h| == LENGTH_HEADER
  {
    FromBytes4(h[0], h[1], h[2], h[3])
  }

  /** A payload shorter than the metadata is rejected; any other is a packet. */
  function DecodePayload(b: Bytes): (r: Option<Packet>) {
    if |b| < METADATA then None
    else Some(Packet(
      b[0], b[1] as int * 0x100 + b[2] as int, FromBytes4(b[3], b[4], b[5], b[6]),
      FromBytes4(b[7], b[8], b[9], b[10]), ToSigned(FromBytes4(b[11], b[12], b[13], b[14])),
      b[15], b[METADATA..]))
  }

  datatype Read<T> = Read(value: T, rest: Bytes)

  /** One frame off the front of a stream; None when the stream ends inside it or it is too short. */
  function ReadFrame(stream: Bytes): (r: Option<Read<Packet>>)
    ensures r.Some? ==> |r.value.rest| < |stream|
  {
    if |stream| < LENGTH_HEADER then None
    else
      var n := DecodeLength(stream[..LENGTH_HEADER]);
      var payload := stream[LENGTH_HEADER..];
      if |payload| < n then None
      else
        var p := DecodePayload(payload[..n]);
        if p.None? then None else Some(Read(p.value, payload[n..]))
  }

  lemma {:induction false} MetadataSlices(p: Packet, body: Bytes)
    ensures var b := Metadata(p) + body;
      && b[0] == p.version && b[1..3] == Bytes2(p.messageId) && b[3..7] == Bytes4(p.requestId)
      && b[7..11] == Bytes4(p.sequenceNumber) && b[11..15] == Bytes4(ToUnsigned(p.errorCode))
      && b[15] == p.flags && b[METADATA..] == body
  {
  }

  lemma {:induction false} PayloadRoundTrip(p: Packet)
    ensures DecodePayload(Metadata(p) + p.body) == Some(p)
  {
    var b := Metadata(p) + p.body;
    assert b[0] == p.version && b[15] == p.flags && b[METADATA..] == p.body by { MetadataSlices(p, p.body); }
    assert b[1] as int * 0x100 + b[2] as int == p.messageId by { MessageIdBytes(p); }
    assert FromBytes4(b[3], b[4], b[5], b[6]) == p.requestId by { RequestIdBytes(p); }
    assert FromBytes4(b[7], b[8], b[9], b[10]) == p.sequenceNumber by { SequenceNumberBytes(p); }
    assert ToSigned(FromBytes4(b[11], b[12], b[13], b[14])) == p.errorCode by { ErrorCodeBytes(p); }
  }

  lemma {:induction false} MessageIdBytes(p: Packet)
    ensures var b := Metadata(p) + p.body; b[1] as int * 0x100 + b[2] as int == p.messageId
  {
    var b := Metadata(p) + p.body;
    assert b[1..3] == Bytes2(p.messageId) by { MetadataSlices(p, p.body); }
    TwoBytes(p.messageId, b, 1);
  }

  lemma {:induction false} RequestIdBytes(p: Packet)
    ensures var b := Metadata(p) + p.body; FromBytes4(b[3], b[4], b[5], b[6]) == p.requestId
  {
    var b := Metadata(p) + p.body;
    assert b[3..7] == Bytes4(p.requestId) by { MetadataSlices(p, p.body); }
    FourBytes(p.requestId, b, 3);
  }

  lemma {:induction false} SequenceNumberBytes(p: Packet)
    ensures var b := Metadata(p) + p.body; FromBytes4(b[7], b[8], b[9], b[10]) == p.sequenceNumber
  {
    var b := Metadata(p) + p.body;
    assert b[7..11] == Bytes4(p.sequenceNumber) by { MetadataSlices(p, p.body); }
    FourBytes(p.sequenceNumber, b, 7);
  }

  /** The error code is signed: its two's complement comes back. */
  lemma {:induction false} ErrorCodeBytes(p: Packet)
    ensures var b := Metadata(p) + p.body; ToSigned(FromBytes4(b[11], b[12], b[13], b[14])) == p.errorCode
  {
    var b := Metadata(p) + p.body;
    assert b[11..15] == Bytes4(ToUnsigned(p.errorCode)) by { MetadataSlices(p, p.body); }
    FourBytes(ToUnsigned(p.errorCode), b, 11);
  }

  /** Reading back a written frame gives the packet, negative error codes included, and leaves
      exactly what follows it on the stream. */
  lemma {:induction false} FrameRoundTrip(p: Packet, tail: Bytes)
    requires Encodable(p)
    ensures ReadFrame(Frame(p) + tail) == Some(Read(p, tail))
  {
    var n := METADATA + |p.body|;
    var stream := Frame(p) + tail;
    var payload := stream[LENGTH_HEADER..];
    assert stream == Bytes4(n) + (Metadata(p) + p.body) + tail;
    assert stream[..LENGTH_HEADER] == Bytes4(n);
    assert stream[..LENGTH_HEADER][0..4] == Bytes4(n);
    FourBytes(n, stream[..LENGTH_HEADER], 0);
    assert payload[..n] == Metadata(p) + p.body;
    assert payload[n..] == tail;
    PayloadRoundTrip(p);
  }

  // ---- The Python twin ---------------------------------------------------------------------------

  /** struct's "!" integers: `width` bytes, most significant first. */
  function BigEndian(v: nat, width: nat): (b: Bytes)
    ensures |b| == width
  {
    if width == 0 then [] else BigEndian(v / 0x100, width - 1) + [v % 0x100]
  }

  function FromBigEndian(b: Bytes): nat {
    if b == [] then 0 else FromBigEndian(b[..|b| - 1]) * 0x100 + b[|b| - 1] as int
  }

  function PythonMetadata(messageId: u16, requestId: u32, version: byte, flags: byte): Bytes {
    BigEndian(version, 1) + BigEndian(messageId, 2) + BigEndian(requestId, 4) +
    BigEndian(0, 4) + BigEndian(ToUnsigned(0), 4) + BigEndian(flags, 1)
  }

  /** None when the length does not fit its four bytes, which struct refuses to pack. */
  function PythonFrame(messageId: u16, requestId: u32, body: Bytes, version: byte, flags: byte): Option<Bytes> {
    if METADATA + |body| >= U32 then None
    else Some(BigEndian(METADATA + |body|, 4) + PythonMetadata(messageId, requestId, version, flags) + body)
  }

  lemma {:induction false} BigEndian1(v: nat)
    ensures BigEndian(v, 1) == [v % 0x100]
  {
  }

  lemma {:induction false} BigEndian2(v: nat)
    ensures BigEndian(v, 2) == Bytes2(v)
  {
  }

  lemma {:induction false} BigEndian4(v: nat)
    ensures BigEndian(v, 4) == Bytes4(v)
  {
    BigEndian2(v / 0x1_0000);
    Shifts(v);
    assert BigEndian(v / 0x100, 3) == BigEndian(v / 0x1_0000, 2) + [v / 0x100 % 0x100];
  }

  /** Both encoders produce the same bytes for a packet without sequence number and error, exactly where
      the length fits its field; the Python encoder raises where it does not. */
  lemma {:induction false} TwinEncoders(messageId: u16, requestId: u32, body: Bytes, version: byte, flags: byte)
    ensures var p := Packet(version, messageId, requestId, 0, 0, flags, body);
      PythonFrame(messageId, requestId, body, version, flags) == if Encodable(p) then Some(Frame(p)) else None
  {
    BigEndian4(METADATA + |body|);
    TwinMetadata(messageId, requestId, body, version, flags);
  }

  lemma {:induction false} TwinMetadata(messageId: u16, requestId: u32, body: Bytes, version: byte, flags: byte)
    ensures PythonMetadata(messageId, requestId, version, flags) ==
            Metadata(Packet(version, messageId, requestId, 0, 0, flags, body))
  {
    var v, m, r := BigEndian(version, 1), BigEndian(messageId, 2), BigEndian(requestId, 4);
    var z, f := BigEndian(0, 4), BigEndian(flags, 1);
    assert v == [version] by { BigEndian1(version); }
    assert m == Bytes2(messageId) by { BigEndian2(messageId); }
    assert r == Bytes4(requestId) by { BigEndian4(requestId); }
    assert z == Bytes4(0) by { BigEndian4(0); }
    assert f == [flags] by { BigEndian1(flags); }
  }

  datatype PythonError = ConnectionClosed | InvalidLength

  function PythonUnpack(b: Bytes): Packet
    requires |b| >= METADATA
  {
    FromBigEndianBound(b[3..7], 4);
    FromBigEndianBound(b[7..11], 4);
    FromBigEndianBound(b[11..15], 4);
    FromBigEndianBound(b[1..3], 2);
    Packet(b[0], FromBigEndian(b[1..3]), FromBigEndian(b[3..7]), FromBigEndian(b[7..11]),
           ToSigned(FromBigEndian(b[11..15])), b[15], b[METADATA..])
  }

  function PythonReadFrame(stream: Bytes): (r: Result<Read<Packet>, PythonError>) {
    if |stream| < 4 then Err(ConnectionClosed)
    else
      var n := FromBigEndian(stream[..4]);
      if n < METADATA || n > PYTHON_FRAME_LIMIT then Err(InvalidLength)
      else
        var payload := stream[4..];
        if |payload| < n then Err(ConnectionClosed)
        else Ok(Read(PythonUnpack(payload[..n]), payload[n..]))
  }

  function Pow256(k: nat): nat {
    if k == 0 then 1 else 0x100 * Pow256(k - 1)
  }

  lemma {:induction false} FromBigEndianBound(b: Bytes, k: nat)
    requires |b| == k
    ensures FromBigEndian(b) < Pow256(k)
    ensures k == 2 ==> FromBigEndian(b) < 0x1_0000
    ensures k == 4 ==> FromBigEndian(b) < U32
  {
    if k > 0 {
      FromBigEndianBound(b[..k - 1], k - 1);
    }
    assert Pow256(2) == 0x1_0000;
    assert Pow256(4) == U32;
  }

  lemma {:induction false} FromBigEndian4(b: Bytes)
    requires |b| == 4
    ensures FromBigEndian(b) == FromBytes4(b[0], b[1], b[2], b[3])
  {
    FromBigEndian2(b[..2]);
    assert b[..3][..2] == b[..2];
    assert FromBigEndian(b[..3]) == FromBigEndian(b[..2]) * 0x100 + b[2] as int;
  }

  lemma {:induction false} FromBigEndian2(b: Bytes)
    requires |b| == 2
    ensures FromBigEndian(b) == b[0] as int * 0x100 + b[1] as int
  {
    assert b[..1][..0] == [];
    assert FromBigEndian(b[..1]) == b[0] as int;
  }

  /** The two readers agree on every stream, except that the Python one refuses lengths outside its
      own bounds (and tells a short stream from a bad length). */
  lemma {:induction false} TwinDecoders(stream: Bytes)
    ensures PythonReadFrame(stream).Ok? <==>
            ReadFrame(stream).Some? && DecodeLength(stream[..4]) <= PYTHON_FRAME_LIMIT
    ensures PythonReadFrame(stream).Ok? ==> ReadFrame(stream) == Some(PythonReadFrame(stream).value)
  {
    if |stream| >= 4 {
      FromBigEndian4(stream[..4]);
      var n, payload := DecodeLength(stream[..4]), stream[4..];
      if METADATA <= n <= |payload| {
        var b := payload[..n];
        FromBigEndian2(b[1..3]);
        FromBigEndian4(b[3..7]);
        FromBigEndian4(b[7..11]);
        FromBigEndian4(b[11..15]);
      }
    }
  }

  /** The Python reader takes a C++ frame whole if and only if it is within the Python limit. */
  lemma {:induction false} PythonReadsFrames(p: Packet, tail: Bytes)
    requires Encodable(p)
    ensures PythonReadFrame(Frame(p) + tail) == Ok(Read(p, tail)) <==> METADATA + |p.body| <= PYTHON_FRAME_LIMIT
  {
    FrameRoundTrip(p, tail);
    TwinDecoders(Frame(p) + tail);
    var head := (Frame(p) + tail)[..4];
    assert head == Bytes4(METADATA + |p.body|) && head[0..4] == head;
    FourBytes(METADATA + |p.body|, head, 0);
  }
}
