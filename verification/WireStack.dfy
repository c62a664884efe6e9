/** From messages to a byte stream and back, whatever pieces the stream arrives in. */
module WireStack {
  import opened Common
  import opened Serializer
  import opened Messages
  import opened PacketCodec

  // ---- A connected socket ------------------------------------------------------------------------

  /** `pending` is what the peer has sent and nobody has read; `cuts` says how much of it each
      receive call delivers, clipped to what the call asks for and to what there is. An empty chunk
      means that the peer has closed the connection. */
  class Socket {
    var pending: Bytes
    var cuts: seq<nat>

    constructor (pending: Bytes, cuts: seq<nat>)
      ensures this.pending == pending && this.cuts == cuts
    {
      this.pending, this.cuts := pending, cuts;
    }

    method Recv(size: nat) returns (chunk: Bytes)
      requires size > 0
      modifies this
      ensures old(pending) == chunk + pending
      ensures |chunk| <= size && (chunk == [] <==> old(pending) == [])
    {
      var most := Min(size, |pending|);
      var k := most;
      if cuts != [] {
        k := Min(most, if cuts[0] == 0 then 1 else cuts[0]);
        cuts := cuts[1..];
      }
      chunk := pending[..k];
      pending := pending[k..];
    }
  }

  /** However the stream is cut, exactly the next `size` bytes are returned and consumed; a stream
      that ends sooner is an error. */
  method RecvExact(sock: Socket, size: nat) returns (r: Option<Bytes>)
    modifies sock
    ensures r.Some? <==> size <= |old(sock.pending)|
    ensures r.Some? ==> r.value == old(sock.pending)[..size] && sock.pending == old(sock.pending)[size..]
    ensures r.None? ==> sock.pending == []
  {
    var chunks, received := [], 0;
    while received < size
      invariant old(sock.pending) == chunks + sock.pending && received == |chunks| <= size
      decreases size - received
    {
      var chunk := sock.Recv(size - received);
      if chunk == [] {
        return None;
      }
      chunks, received := chunks + chunk, received + |chunk|;
    }
    return Some(chunks);
  }

  /** The Python client's receive: two exact reads and the bounds check between them. */
  method RecvBusinessPacket(sock: Socket) returns (r: Result<Packet, PythonError>)
    modifies sock
    ensures var expected := PythonReadFrame(old(sock.pending));
            && (r.Ok? <==> expected.Ok?)
            && (r.Ok? ==> r.value == expected.value.value && sock.pending == expected.value.rest)
            && (r.Err? ==> r.error == expected.error)
  {
    var header := RecvExact(sock, 4);
    if header.None? {
      return Err(ConnectionClosed);
    }
    var length := FromBigEndian(header.value);
    if length < METADATA || length > PYTHON_FRAME_LIMIT {
      return Err(InvalidLength);
    }
    var payload := RecvExact(sock, length);
    if payload.None? {
      return Err(ConnectionClosed);
    }
    return Ok(PythonUnpack(payload.value));
  }

  // ---- Streams of frames -------------------------------------------------------------------------

  function Frames(ps: seq<Packet>): Bytes {
    if ps == [] then [] else Frame(ps[0]) + Frames(ps[1..])
  }

  function ReadFrames(stream: Bytes): Option<seq<Packet>>
    decreases |stream|
  {
    if stream == [] then Some([])
    else
      var r := ReadFrame(stream);
      if r.None? then None
      else
        var ps := ReadFrames(r.value.rest);
        if ps.None? then None else Some([r.value.value] + ps.value)
  }

  predicate AllEncodable(ps: seq<Packet>) {
    forall i :: 0 <= i < |ps| ==> Encodable(ps[i])
  }

  lemma {:induction false} FramesRoundTrip(ps: seq<Packet>)
    requires AllEncodable(ps)
    ensures ReadFrames(Frames(ps)) == Some(ps)
  {
    if ps != [] {
      FrameRoundTrip(ps[0], Frames(ps[1..]));
      FramesRoundTrip(ps[1..]);
      assert ps == [ps[0]] + ps[1..];
    }
  }

  ghost function Continue(ps: seq<Packet>, r: Option<seq<Packet>>): Option<seq<Packet>> {
    if r.None? then None else Some(ps + r.value)
  }

  /** The C++ client's read loop: the length header, then as many bytes as it says, decoded. */
  method ReceiveAll(sock: Socket) returns (r: Option<seq<Packet>>)
    modifies sock
    ensures r == ReadFrames(old(sock.pending))
  {
    var packets := [];
    ghost var all := ReadFrames(sock.pending);
    assert all.Some? ==> [] + all.value == all.value;
    while sock.pending != []
      invariant Continue(packets, ReadFrames(sock.pending)) == all
      decreases |sock.pending|
    {
      ghost var stream := sock.pending;
      var header := RecvExact(sock, LENGTH_HEADER);
      if header.None? {
        return None;
      }
      var payload := RecvExact(sock, DecodeLength(header.value));
      if payload.None? {
        return None;
      }
      var packet := DecodePayload(payload.value);
      if packet.None? {
        return None;
      }
      assert ReadFrame(stream) == Some(Read(packet.value, sock.pending));
      ghost var more := ReadFrames(sock.pending);
      assert more.Some? ==> packets + ([packet.value] + more.value) == packets + [packet.value] + more.value;
      packets := packets + [packet.value];
    }
    assert packets + [] == packets;
    return Some(packets);
  }

  // ---- Messages end to end -----------------------------------------------------------------------

  const PROTOCOL_VERSION: byte := 1

  function MessageId(k: Kind): u16 {
    match k
    case KEchoRequest => 1001
    case KEchoResponse => 1002
    case KLoginRequest => 2001
    case KLoginResponse => 2002
    case KRoomCreateRequest => 3001
    case KRoomCreateResponse => 3002
    case KRoomJoinRequest => 3003
    case KRoomJoinResponse => 3004
    case KRoomReadyRequest => 3007
    case KRoomReadyResponse => 3008
    case KRoomStatePush => 3009
    case KBattleStartRequest => 4001
    case KBattleStartResponse => 4002
    case KBattleInputRequest => 4003
    case KBattleInputResponse => 4004
    case KBattleInputPush => 4005
    case KBattleStatePush => 4006
  }

  function KindOfId(id: u16): Option<Kind> {
    match id
    case 1001 => Some(KEchoRequest)
    case 1002 => Some(KEchoResponse)
    case 2001 => Some(KLoginRequest)
    case 2002 => Some(KLoginResponse)
    case 3001 => Some(KRoomCreateRequest)
    case 3002 => Some(KRoomCreateResponse)
    case 3003 => Some(KRoomJoinRequest)
    case 3004 => Some(KRoomJoinResponse)
    case 3007 => Some(KRoomReadyRequest)
    case 3008 => Some(KRoomReadyResponse)
    case 3009 => Some(KRoomStatePush)
    case 4001 => Some(KBattleStartRequest)
    case 4002 => Some(KBattleStartResponse)
    case 4003 => Some(KBattleInputRequest)
    case 4004 => Some(KBattleInputResponse)
    case 4005 => Some(KBattleInputPush)
    case 4006 => Some(KBattleStatePush)
    case _ => None
  }

  datatype Envelope = Envelope(requestId: u32, sequenceNumber: u32, errorCode: i32, flags: byte, message: Message)

  function ToPacket(e: Envelope): Packet {
    Packet(PROTOCOL_VERSION, MessageId(KindOf(e.message)), e.requestId, e.sequenceNumber, e.errorCode, e.flags,
           Serialize(e.message))
  }

  function FromPacket(p: Packet): Option<Envelope> {
    var k := KindOfId(p.messageId);
    if p.version != PROTOCOL_VERSION || k.None? then None
    else
      var m := Deserialize(k.value, p.body);
      if m.None? then None
      else Some(Envelope(p.requestId, p.sequenceNumber, p.errorCode, p.flags, m.value))
  }

  predicate Sendable(e: Envelope) {
    Numbers64(FieldsOf(e.message)) && Encodable(ToPacket(e))
  }

  lemma {:induction false} PacketRoundTrip(e: Envelope)
    requires Sendable(e)
    ensures FromPacket(ToPacket(e)) == Some(e) <==> Fits(e.message)
  {
    var k, body := KindOf(e.message), Serialize(e.message);
    assert KindOfId(MessageId(k)) == Some(k) by { IdRoundTrip(k); }
    assert Deserialize(k, body) == Some(e.message) <==> Fits(e.message) by {
      MessageRoundTrip(e.message, []);
      assert body + [] == body;
    }
    Addressed(ToPacket(e), k);
  }

  lemma {:induction false} IdRoundTrip(k: Kind)
    ensures KindOfId(MessageId(k)) == Some(k)
  {
  }

  lemma {:induction false} Addressed(p: Packet, k: Kind)
    requires p.version == PROTOCOL_VERSION && KindOfId(p.messageId) == Some(k)
    ensures FromPacket(p).Some? <==> Deserialize(k, p.body).Some?
    ensures FromPacket(p).Some? ==>
      FromPacket(p).value == Envelope(p.requestId, p.sequenceNumber, p.errorCode, p.flags, Deserialize(k, p.body).value)
  {
  }

  function Packets(es: seq<Envelope>): (ps: seq<Packet>)
    ensures |ps| == |es|
  {
    seq(|es|, i requires 0 <= i < |es| => ToPacket(es[i]))
  }

  function Stream(es: seq<Envelope>): Bytes {
    Frames(Packets(es))
  }

  /** A list of decoded messages; None when one of the packets does not decode. */
  function Envelopes(ps: seq<Packet>): Option<seq<Envelope>> {
    if ps == [] then Some([])
    else
      var e, es := FromPacket(ps[0]), Envelopes(ps[1..]);
      if e.None? || es.None? then None else Some([e.value] + es.value)
  }

  function Receive(stream: Bytes): Option<seq<Envelope>> {
    var ps := ReadFrames(stream);
    if ps.None? then None else Envelopes(ps.value)
  }

  lemma {:induction false} EnvelopesStep(p: Packet, ps: seq<Packet>, e: Envelope, es: seq<Envelope>)
    ensures Envelopes([p] + ps) == Some([e] + es) <==> FromPacket(p) == Some(e) && Envelopes(ps) == Some(es)
  {
    assert ([p] + ps)[1..] == ps;
    var first, more := FromPacket(p), Envelopes(ps);
    if first.Some? && more.Some? {
      assert ([first.value] + more.value)[1..] == more.value && ([e] + es)[1..] == es;
    }
  }

  lemma {:induction false} EnvelopesPointwise(ps: seq<Packet>, es: seq<Envelope>)
    requires |ps| == |es|
    ensures Envelopes(ps) == Some(es) <==> forall i :: 0 <= i < |es| ==> FromPacket(ps[i]) == Some(es[i])
  {
    if es != [] {
      var p, e := ps[0], es[0];
      assert ps == [p] + ps[1..] && es == [e] + es[1..];
      EnvelopesPointwise(ps[1..], es[1..]);
      EnvelopesStep(p, ps[1..], e, es[1..]);
    }
  }

  lemma {:induction false} EnvelopesRoundTrip(es: seq<Envelope>)
    requires forall i :: 0 <= i < |es| ==> Sendable(es[i])
    ensures Envelopes(Packets(es)) == Some(es) <==> forall i :: 0 <= i < |es| ==> Fits(es[i].message)
  {
    EnvelopesPointwise(Packets(es), es);
    forall i | 0 <= i < |es| ensures FromPacket(Packets(es)[i]) == Some(es[i]) <==> Fits(es[i].message) {
      PacketRoundTrip(es[i]);
    }
  }

  /** The whole stack: a list of messages, serialised, framed and concatenated, is received as the
      same list if and only if every string and list fits its length. */
  lemma {:induction false} EndToEnd(es: seq<Envelope>)
    requires forall i :: 0 <= i < |es| ==> Sendable(es[i])
    ensures Receive(Stream(es)) == Some(es) <==> forall i :: 0 <= i < |es| ==> Fits(es[i].message)
  {
    FramesRoundTrip(Packets(es));
    EnvelopesRoundTrip(es);
  }

  method Send(es: seq<Envelope>) returns (stream: Bytes)
    requires forall i :: 0 <= i < |es| ==> Sendable(es[i])
    ensures stream == Stream(es)
  {
    stream := [];
    ghost var ps := Packets(es);
    for i := 0 to |es|
      invariant stream == Frames(ps[..i])
    {
      var frame := Encode(ToPacket(es[i]));
      assert Frames(ps[..i + 1]) == Frames(ps[..i]) + Frame(ps[i]) by {
        FramesAppend(ps[..i], ps[i]);
        assert ps[..i + 1] == ps[..i] + [ps[i]];
      }
      stream := stream + frame;
    }
    assert ps[..|es|] == ps;
  }

  lemma {:induction false} FramesAppend(ps: seq<Packet>, p: Packet)
    ensures Frames(ps + [p]) == Frames(ps) + Frame(p)
  {
    if ps == [] {
      assert ps + [p] == [p] && [p][1..] == [];
    } else {
      assert (ps + [p])[1..] == ps[1..] + [p];
      FramesAppend(ps[1..], p);
    }
  }

  /** The same over a socket: however the stream is cut into chunks, the messages arrive. */
  method Transfer(es: seq<Envelope>, cuts: seq<nat>) returns (received: Option<seq<Envelope>>)
    requires forall i :: 0 <= i < |es| ==> Sendable(es[i])
    ensures received == Some(es) <==> forall i :: 0 <= i < |es| ==> Fits(es[i].message)
  {
    var stream := Send(es);
    var sock := new Socket(stream, cuts);
    var packets := ReceiveAll(sock);
    EndToEnd(es);
    if packets.None? {
      return None;
    }
    return Envelopes(packets.value);
  }
}
