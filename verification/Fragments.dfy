/** Splitting a large body into fragments, and the assembler that puts fragments together again. */
module Fragments {
  import opened Common
  import opened Serializer
  import opened PacketCodec

  const FRAGMENT_THRESHOLD := 8192
  const FRAGMENT_PAYLOAD := 4096
  const FRAGMENT_BIT := 0x10
  const LAST_BIT := 0x20

  /** `bit` is a power of two. */
  predicate HasBit(x: nat, bit: nat)
    requires bit > 0
  {
    x / bit % 2 == 1
  }

  function SetBit(x: nat, bit: nat): nat
    requires bit > 0
  {
    if HasBit(x, bit) then x else x + bit
  }

  // ---- The assembler -------------------------------------------------------------------------

  datatype Assembly = Assembly(messageId: u16, requestId: u32, errorCode: i32,
                               fragmentCount: byte, received: byte, body: Bytes)

  const EMPTY_ASSEMBLY := Assembly(0, 0, 0, 0, 0, [])

  /** One fragment for one request: what is left open, and what is delivered. */
  function Absorb(open: Option<Assembly>, f: Packet): (Option<Assembly>, Option<Packet>) {
    if !HasBit(f.flags, FRAGMENT_BIT) then (open, Some(f))
    else
      var current := match open { case Some(a) => a case None => EMPTY_ASSEMBLY };
      var begun :=
        if f.flags % 4 == 0
        then Assembly(f.messageId, f.requestId, f.errorCode, f.flags / 16 % 8, 0, [])
        else current;
      var a := begun.(body := begun.body + f.body, received := (begun.received + 1) % 256);
      if HasBit(f.flags, LAST_BIT) || a.received >= a.fragmentCount
      then (None, Some(Packet(0, a.messageId, a.requestId, 0, a.errorCode, 0, a.body)))
      else (Some(a), None)
  }

  function Lookup(m: map<u32, Assembly>, id: u32): Option<Assembly> {
    if id in m then Some(m[id]) else None
  }

  function Store(m: map<u32, Assembly>, id: u32, a: Option<Assembly>): map<u32, Assembly> {
    match a
    case Some(value) => m[id := value]
    case None => m - {id}
  }

  /** The assembler keeps one open assembly per request id. */
  class FragmentAssembler {
    var assemblies: map<u32, Assembly>

    constructor ()
      ensures assemblies == map[]
    {
      assemblies := map[];
    }

    method Feed(fragment: Packet) returns (complete: Option<Packet>)
      modifies this
      ensures (Lookup(assemblies, fragment.requestId), complete) ==
              Absorb(Lookup(old(assemblies), fragment.requestId), fragment)
      ensures assemblies - {fragment.requestId} == old(assemblies) - {fragment.requestId}
    {
      if !HasBit(fragment.flags, FRAGMENT_BIT) {
        return Some(fragment);
      }
      var isLast := HasBit(fragment.flags, LAST_BIT);
      var totalCount := fragment.flags / 16 % 8;
      var index := fragment.flags % 4;
      var assembly :=
        if fragment.requestId in assemblies then assemblies[fragment.requestId] else EMPTY_ASSEMBLY;
      if index == 0 {
        assembly := Assembly(fragment.messageId, fragment.requestId, fragment.errorCode, totalCount, 0, []);
      }
      assembly := assembly.(body := assembly.body + fragment.body);
      assembly := assembly.(received := (assembly.received + 1) % 256);
      if isLast || assembly.received >= assembly.fragmentCount {
        complete := Some(Packet(0, assembly.messageId, assembly.requestId, 0, assembly.errorCode, 0, assembly.body));
        assemblies := assemblies - {fragment.requestId};
        return;
      }
      assemblies := assemblies[fragment.requestId := assembly];
      return None;
    }
  }

  // ---- Runs of the assembler -------------------------------------------------------------------

  /** The packets that an input sequence delivers, each with the request id of the input that
      delivered it. */
  function Delivered(m: map<u32, Assembly>, input: seq<Packet>): seq<(u32, Packet)>
    decreases input
  {
    if input == [] then []
    else
      var f := input[0];
      var (a, out) := Absorb(Lookup(m, f.requestId), f);
      (if out.Some? then [(f.requestId, out.value)] else []) + Delivered(Store(m, f.requestId, a), input[1..])
  }

  function For(out: seq<(u32, Packet)>, id: u32): seq<Packet> {
    if out == [] then []
    else (if out[0].0 == id then [out[0].1] else []) + For(out[1..], id)
  }

  function Select(input: seq<Packet>, id: u32): seq<Packet> {
    if input == [] then []
    else (if input[0].requestId == id then [input[0]] else []) + Select(input[1..], id)
  }

  /** One request on its own. */
  function Replies(open: Option<Assembly>, input: seq<Packet>): seq<Packet>
    decreases input
  {
    if input == [] then []
    else
      var (a, out) := Absorb(open, input[0]);
      (if out.Some? then [out.value] else []) + Replies(a, input[1..])
  }

  lemma {:induction false} ForConcat(a: seq<(u32, Packet)>, b: seq<(u32, Packet)>, id: u32)
    ensures For(a + b, id) == For(a, id) + For(b, id)
  {
    if a == [] {
      assert a + b == b;
    } else {
      ForConcat(a[1..], b, id);
      assert (a + b)[1..] == a[1..] + b && (a + b)[0] == a[0];
      var first := if a[0].0 == id then [a[0].1] else [];
      assert For(a + b, id) == first + (For(a[1..], id) + For(b, id));
      assert For(a, id) == first + For(a[1..], id);
    }
  }

  lemma {:induction false} LookupStore(m: map<u32, Assembly>, id: u32, a: Option<Assembly>, other: u32)
    ensures Lookup(Store(m, id, a), other) == if other == id then a else Lookup(m, other)
  {
  }

  lemma {:induction false} SelectFirst(input: seq<Packet>, id: u32)
    requires input != []
    ensures Select(input, id) ==
            if input[0].requestId == id then [input[0]] + Select(input[1..], id) else Select(input[1..], id)
  {
  }

  lemma {:induction false} RepliesFirst(open: Option<Assembly>, f: Packet, rest: seq<Packet>)
    ensures var (a, out) := Absorb(open, f);
      Replies(open, [f] + rest) == (if out.Some? then [out.value] else []) + Replies(a, rest)
  {
    assert ([f] + rest)[1..] == rest;
  }

  /** For every interleaving, what is delivered for a request depends only on that request's own
      packets and on what was open for it. */
  lemma {:induction false} RequestsIndependent(m: map<u32, Assembly>, input: seq<Packet>, id: u32)
    ensures For(Delivered(m, input), id) == Replies(Lookup(m, id), Select(input, id))
    decreases input
  {
    if input != [] {
      var f := input[0];
      var (a, out) := Absorb(Lookup(m, f.requestId), f);
      var m', rest := Store(m, f.requestId, a), input[1..];
      var first := if out.Some? then [(f.requestId, out.value)] else [];
      RequestsIndependent(m', rest, id);
      ForConcat(first, Delivered(m', rest), id);
      LookupStore(m, f.requestId, a, id);
      SelectFirst(input, id);
      if f.requestId == id {
        RepliesFirst(Lookup(m, id), f, Select(rest, id));
      }
    }
  }

  // ---- Fragmenting -----------------------------------------------------------------------------

  /** ceil(size / 4096), before it is narrowed to eight bits. */
  function Pieces(size: nat): nat {
    (size + FRAGMENT_PAYLOAD - 1) / FRAGMENT_PAYLOAD
  }

  /** The flag byte of fragment `i` of `total`: the count is shifted over the two fragment bits and
      loses its own upper four bits. */
  function FragmentFlags(total: nat, i: nat): byte {
    FlagsFitByte(total % 16, i % 4);
    var flags := SetBit(16 * (total % 16) + i % 4, FRAGMENT_BIT);
    if i + 1 == total then SetBit(flags, LAST_BIT) else flags
  }

  lemma {:induction false} Nibble(n: nat, i: nat)
    requires i < 4
    ensures (16 * n + i) / 16 == n && (16 * n + i) / 32 == n / 2 && (16 * n + i) % 4 == i
  {
  }

  lemma {:induction false} FlagsFitByte(n: nat, i: nat)
    requires n < 16 && i < 4
    ensures SetBit(16 * n + i, FRAGMENT_BIT) < 256
    ensures SetBit(SetBit(16 * n + i, FRAGMENT_BIT), LAST_BIT) < 256
  {
  }

  function Piece(body: Bytes, i: nat): Bytes
    requires i < Pieces(|body|)
  {
    body[i * FRAGMENT_PAYLOAD..Min((i + 1) * FRAGMENT_PAYLOAD, |body|)]
  }

  function Fragment(messageId: u16, requestId: u32, errorCode: i32, body: Bytes, total: nat, i: nat): Packet
    requires i < total <= Pieces(|body|)
  {
    Packet(0, messageId, requestId, 0, errorCode, FragmentFlags(total, i), Piece(body, i))
  }

  function Fragmented(messageId: u16, requestId: u32, errorCode: i32, body: Bytes): seq<Packet> {
    if |body| <= FRAGMENT_THRESHOLD then [Packet(0, messageId, requestId, 0, errorCode, 0, body)]
    else
      var total := Pieces(|body|) % 256;
      seq(total, i requires 0 <= i < total => Fragment(messageId, requestId, errorCode, body, total, i))
  }

  method FragmentPacket(messageId: u16, requestId: u32, errorCode: i32, body: Bytes)
    returns (fragments: seq<Packet>)
    ensures fragments == Fragmented(messageId, requestId, errorCode, body)
  {
    if |body| <= FRAGMENT_THRESHOLD {
      return [Packet(0, messageId, requestId, 0, errorCode, 0, body)];
    }
    fragments := [];
    var total := (|body| + FRAGMENT_PAYLOAD - 1) / FRAGMENT_PAYLOAD % 256;
    for i := 0 to total
      invariant |fragments| == i
      invariant forall j :: 0 <= j < i ==>
        fragments[j] == Fragment(messageId, requestId, errorCode, body, total, j)
    {
      var offset := i * FRAGMENT_PAYLOAD;
      var len := Min(FRAGMENT_PAYLOAD, |body| - offset);
      FlagsFitByte(total % 16, i % 4);
      var flags := SetBit(16 * (total % 16) + i % 4, FRAGMENT_BIT);
      if i == total - 1 {
        flags := SetBit(flags, LAST_BIT);
      }
      fragments := fragments + [Packet(0, messageId, requestId, 0, errorCode, flags, body[offset..offset + len])];
    }
  }

  /** All that a list of packets carries. */
  function Carried(fs: seq<Packet>): Bytes {
    if fs == [] then [] else Carried(fs[..|fs| - 1]) + fs[|fs| - 1].body
  }

  lemma {:induction false} CarriedPrefix(messageId: u16, requestId: u32, errorCode: i32, body: Bytes, total: nat,
                                         fs: seq<Packet>)
    requires |fs| <= total <= Pieces(|body|)
    requires forall i :: 0 <= i < |fs| ==> fs[i] == Fragment(messageId, requestId, errorCode, body, total, i)
    ensures Carried(fs) == body[..Min(|fs| * FRAGMENT_PAYLOAD, |body|)]
  {
    if fs != [] {
      var n := |fs| - 1;
      CarriedPrefix(messageId, requestId, errorCode, body, total, fs[..n]);
      assert n * FRAGMENT_PAYLOAD < |body|;
      assert Piece(body, n) == body[n * FRAGMENT_PAYLOAD..Min((n + 1) * FRAGMENT_PAYLOAD, |body|)];
    }
  }

  /** The fragments carry the whole body if and only if there are at most 255 of them. */
  lemma {:induction false} FragmentsCarryBody(messageId: u16, requestId: u32, errorCode: i32, body: Bytes)
    ensures Carried(Fragmented(messageId, requestId, errorCode, body)) == body <==> |body| <= 1_044_480
  {
    var fs := Fragmented(messageId, requestId, errorCode, body);
    if |body| <= FRAGMENT_THRESHOLD {
      assert fs[..0] == [] && [] + body == body;
    } else {
      PiecesWrap(|body|);
      CarriedPrefix(messageId, requestId, errorCode, body, |fs|, fs);
    }
  }

  lemma {:induction false} PiecesWrap(size: nat)
    ensures size <= 1_044_480 ==> Pieces(size) % 256 == Pieces(size) && size <= Pieces(size) * FRAGMENT_PAYLOAD
    ensures size > 1_044_480 ==> Pieces(size) % 256 * FRAGMENT_PAYLOAD < size
  {
  }

  /** A packet that is no fragment passes through at once and disturbs no assembly. */
  lemma {:induction false} PassThrough(open: Option<Assembly>, f: Packet, rest: seq<Packet>)
    requires f.flags / 16 % 2 == 0
    ensures Replies(open, [f] + rest) == [f] + Replies(open, rest)
  {
    RepliesFirst(open, f, rest);
  }

  // ---- Which bodies survive ----------------------------------------------------------------------

  lemma {:induction false} FlagFacts(total: nat, i: nat)
    ensures HasBit(FragmentFlags(total, i), FRAGMENT_BIT)
    ensures FragmentFlags(total, i) % 4 == i % 4
  {
    var n, index := total % 16, i % 4;
    Nibble(n, index);
    Nibble(n + 1, index);
    Nibble(n + 2, index);
    Nibble(n + 3, index);
  }

  /** Every fourth fragment carries index 0 and starts the assembly over, so nothing longer than four
      fragments is ever delivered. */
  lemma {:induction false} DeliveredShort(open: Option<Assembly>, fs: seq<Packet>, i: nat)
    requires forall j :: 0 <= j < |fs| ==>
      HasBit(fs[j].flags, FRAGMENT_BIT) && fs[j].flags % 4 == (i + j) % 4 && |fs[j].body| <= FRAGMENT_PAYLOAD
    requires i % 4 != 0 && open.Some? ==> |open.value.body| <= FRAGMENT_PAYLOAD * (i % 4)
    ensures forall p :: p in Replies(open, fs) ==> |p.body| <= 4 * FRAGMENT_PAYLOAD
    decreases fs
  {
    if fs != [] {
      var (a, out) := Absorb(open, fs[0]);
      assert fs[0].flags % 4 == (i + 0) % 4;
      forall j | 0 <= j < |fs[1..]| ensures fs[1..][j].flags % 4 == (i + 1 + j) % 4 {
        assert fs[1..][j] == fs[j + 1];
      }
      DeliveredShort(a, fs[1..], i + 1);
    }
  }

  lemma {:induction false} FourPieces(body: Bytes)
    requires Pieces(|body|) == 4
    ensures [] + Piece(body, 0) + Piece(body, 1) + Piece(body, 2) + Piece(body, 3) == body
  {
  }

  lemma {:induction false} FourFragmentsReassemble(open: Option<Assembly>, messageId: u16, requestId: u32,
                                                   errorCode: i32, body: Bytes)
    requires Pieces(|body|) == 4 && |body| > FRAGMENT_THRESHOLD
    ensures Replies(open, Fragmented(messageId, requestId, errorCode, body)) ==
            [Packet(0, messageId, requestId, 0, errorCode, 0, body)]
  {
    var fs := Fragmented(messageId, requestId, errorCode, body);
    assert fs[0].flags == 0x50 && fs[1].flags == 0x51 && fs[2].flags == 0x52 && fs[3].flags == 0x73;
    FourReplies(open, fs, Packet(0, messageId, requestId, 0, errorCode, 0, body));
    FourPieces(body);
  }

  lemma {:induction false} AbsorbFirst(open: Option<Assembly>, f: Packet)
    requires f.flags == 0x50
    ensures Absorb(open, f) == (Some(Assembly(f.messageId, f.requestId, f.errorCode, 5, 1, [] + f.body)), None)
  {
  }

  lemma {:induction false} AbsorbNext(a: Assembly, f: Packet)
    requires f.flags in {0x51, 0x52} && 1 <= a.received <= 3 && a.fragmentCount == 5
    ensures Absorb(Some(a), f) == (Some(a.(received := a.received + 1, body := a.body + f.body)), None)
  {
  }

  lemma {:induction false} AbsorbLast(a: Assembly, f: Packet)
    requires f.flags == 0x73
    ensures Absorb(Some(a), f) == (None, Some(Packet(0, a.messageId, a.requestId, 0, a.errorCode, 0, a.body + f.body)))
  {
  }

  lemma {:induction false} FourReplies(open: Option<Assembly>, fs: seq<Packet>, h: Packet)
    requires |fs| == 4 && fs[0].flags == 0x50 && fs[1].flags == 0x51 && fs[2].flags == 0x52 && fs[3].flags == 0x73
    requires fs[0].messageId == h.messageId && fs[0].requestId == h.requestId && fs[0].errorCode == h.errorCode
    ensures Replies(open, fs) == [Packet(0, h.messageId, h.requestId, 0, h.errorCode, 0,
                                         [] + fs[0].body + fs[1].body + fs[2].body + fs[3].body)]
  {
    var a0 := Assembly(h.messageId, h.requestId, h.errorCode, 5, 1, [] + fs[0].body);
    var a1 := a0.(received := 2, body := a0.body + fs[1].body);
    var a2 := a1.(received := 3, body := a1.body + fs[2].body);
    AbsorbFirst(open, fs[0]);
    StillOpen(open, fs, 0, a0);
    AbsorbNext(a0, fs[1]);
    StillOpen(Some(a0), fs, 1, a1);
    AbsorbNext(a1, fs[2]);
    StillOpen(Some(a1), fs, 2, a2);
    AbsorbLast(a2, fs[3]);
    Closes(Some(a2), fs, 3);
  }

  lemma {:induction false} StillOpen(open: Option<Assembly>, fs: seq<Packet>, i: nat, a: Assembly)
    requires i < |fs| && Absorb(open, fs[i]) == (Some(a), None)
    ensures Replies(open, fs[i..]) == Replies(Some(a), fs[i + 1..])
    ensures i == 0 ==> Replies(open, fs) == Replies(Some(a), fs[1..])
  {
  }

  lemma {:induction false} Closes(open: Option<Assembly>, fs: seq<Packet>, i: nat)
    requires i + 1 == |fs| && Absorb(open, fs[i]).1.Some?
    ensures Replies(open, fs[i..]) == [Absorb(open, fs[i]).1.value]
  {
  }

  lemma {:induction false} ThreeFragmentsCut(open: Option<Assembly>, messageId: u16, requestId: u32, errorCode: i32,
                                             body: Bytes)
    requires Pieces(|body|) == 3 && |body| > FRAGMENT_THRESHOLD
    ensures var out := Replies(open, Fragmented(messageId, requestId, errorCode, body));
            out != [] && |out[0].body| == FRAGMENT_PAYLOAD
  {
    var fs := Fragmented(messageId, requestId, errorCode, body);
    assert fs[0].flags == 0x30;
    assert Absorb(open, fs[0]).1.Some?;
  }

  /** The sizes for which the flag byte has room for the count. */
  predicate Transportable(size: nat) {
    size <= 8192 || 12289 <= size <= 16384
  }

  /** From any assembler state, feeding the fragments of a body delivers exactly that body, in one
      packet, if and only if its size is transportable. */
  lemma {:induction false} ReassemblyExact(open: Option<Assembly>, messageId: u16, requestId: u32, errorCode: i32,
                                           body: Bytes)
    ensures Replies(open, Fragmented(messageId, requestId, errorCode, body)) ==
              [Packet(0, messageId, requestId, 0, errorCode, 0, body)]
            <==> Transportable(|body|)
  {
    var fs := Fragmented(messageId, requestId, errorCode, body);
    var whole := Packet(0, messageId, requestId, 0, errorCode, 0, body);
    if |body| <= FRAGMENT_THRESHOLD {
      assert Absorb(open, fs[0]) == (open, Some(whole));
      assert Replies(open, fs[1..]) == [];
    } else if |body| <= 12288 {
      ThreeFragmentsCut(open, messageId, requestId, errorCode, body);
    } else if |body| <= 16384 {
      FourFragmentsReassemble(open, messageId, requestId, errorCode, body);
    } else {
      ManyFragmentsCut(open, messageId, requestId, errorCode, body);
      assert Replies(open, fs) == [whole] ==> whole in Replies(open, fs);
    }
  }

  lemma {:induction false} ManyFragmentsCut(open: Option<Assembly>, messageId: u16, requestId: u32, errorCode: i32,
                                            body: Bytes)
    requires |body| > 16384
    ensures forall p :: p in Replies(open, Fragmented(messageId, requestId, errorCode, body)) ==> |p.body| <= 16384
  {
    var fs := Fragmented(messageId, requestId, errorCode, body);
    forall j | 0 <= j < |fs| ensures HasBit(fs[j].flags, FRAGMENT_BIT) && fs[j].flags % 4 == (0 + j) % 4 {
      FlagFacts(|fs|, j);
    }
    DeliveredShort(open, fs, 0);
  }

  /** Transport through a shared assembler: whatever other requests are interleaved with it, a
      transportable body comes out whole and nothing else is delivered for its request. */
  lemma {:induction false} InterleavedTransport(m: map<u32, Assembly>, input: seq<Packet>, messageId: u16,
                                                requestId: u32, errorCode: i32, body: Bytes)
    requires Select(input, requestId) == Fragmented(messageId, requestId, errorCode, body)
    ensures For(Delivered(m, input), requestId) == [Packet(0, messageId, requestId, 0, errorCode, 0, body)]
            <==> Transportable(|body|)
  {
    RequestsIndependent(m, input, requestId);
    ReassemblyExact(Lookup(m, requestId), messageId, requestId, errorCode, body);
  }
}
