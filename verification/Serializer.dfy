/** The little-endian body format of the gateway's messages. Writers append to the output; readers
    take a value off the front of the input and hand back what is left, also when they fail. */
module Serializer {
  import opened Arithmetic
  import opened Common

  type byte = x: int | 0 <= x < 256

  type Bytes = seq<byte>

  const U16 := 0x1_0000
  const U32 := 0x1_0000_0000
  const U64 := 0x1_0000_0000_0000_0000

  // ---- Integers --------------------------------------------------------------------------------

  function WriteU16(v: nat): Bytes {
    [v % 256, v / 256 % 256]
  }

  function WriteU32(v: nat): Bytes {
    [v % 256, v / 256 % 256, v / 0x1_0000 % 256, v / 0x100_0000 % 256]
  }

  function WriteU64(v: nat): Bytes {
    WriteU32(v % U32) + WriteU32(v / U32 % U32)
  }

  function ReadU16(data: Bytes): (Option<nat>, Bytes) {
    if |data| < 2 then (None, data) else (Some(data[0] as int + data[1] as int * 256), data[2..])
  }

  function ReadU32(data: Bytes): (Option<nat>, Bytes) {
    if |data| < 4 then (None, data)
    else
      var value := data[0] as int + data[1] as int * 256 + data[2] as int * 0x1_0000 + data[3] as int * 0x100_0000;
      (Some(value), data[4..])
  }

  function ReadU64(data: Bytes): (Option<nat>, Bytes) {
    var (lo, rest) := ReadU32(data);
    if lo.None? then (None, rest)
    else
      var (hi, rest') := ReadU32(rest);
      if hi.None? then (None, rest') else (Some(hi.value * U32 + lo.value), rest')
  }

  /** The number that bytes stand for, the least significant first. */
  function Value(data: Bytes): nat {
    if data == [] then 0 else data[0] + 256 * Value(data[1..])
  }

  lemma {:induction false} ValueCons(b: byte, rest: Bytes)
    ensures Value([b] + rest) == b + 256 * Value(rest)
  {
    assert ([b] + rest)[1..] == rest;
  }

  lemma {:induction false} ValueFour(a: byte, b: byte, c: byte, d: byte, rest: Bytes)
    ensures Value([a, b, c, d] + rest) == a + 256 * b + 0x1_0000 * c + 0x100_0000 * d + U32 * Value(rest)
  {
    var three, two, one := [b] + ([c] + ([d] + rest)), [c] + ([d] + rest), [d] + rest;
    assert [a, b, c, d] + rest == [a] + three;
    ValueCons(a, three);
    ValueCons(b, two);
    ValueCons(c, one);
    ValueCons(d, rest);
  }

  lemma {:induction false} ValueU16(v: nat)
    requires v < U16
    ensures |WriteU16(v)| == 2 && Value(WriteU16(v)) == v
  {
    assert WriteU16(v) == [v % 256] + ([v / 256] + []);
    ValueCons(v % 256, [v / 256] + []);
    ValueCons(v / 256, []);
  }

  lemma {:induction false} ValueU32(v: nat, rest: Bytes)
    requires v < U32
    ensures |WriteU32(v)| == 4 && Value(WriteU32(v) + rest) == v + U32 * Value(rest)
  {
    FourBytesSum(v);
    ValueFour(v % 256, v / 256 % 256, v / 0x1_0000 % 256, v / 0x100_0000 % 256, rest);
  }

  lemma {:induction false} ValueU64(v: nat)
    requires v < U64
    ensures |WriteU64(v)| == 8 && Value(WriteU64(v)) == v
  {
    var lo, hi := v % U32, v / U32;
    assert hi % U32 == hi && v == lo + U32 * hi;
    ValueU32(lo, WriteU32(hi));
    ValueU32(hi, []);
    assert WriteU32(hi) + [] == WriteU32(hi);
  }

  /** The writers put the least significant byte first. */
  lemma {:induction false} WritesLittleEndian(v: nat)
    ensures v < U16 ==> |WriteU16(v)| == 2 && Value(WriteU16(v)) == v
    ensures v < U32 ==> |WriteU32(v)| == 4 && Value(WriteU32(v)) == v
    ensures v < U64 ==> |WriteU64(v)| == 8 && Value(WriteU64(v)) == v
  {
    if v < U16 {
      ValueU16(v);
    }
    if v < U32 {
      ValueU32(v, []);
      assert WriteU32(v) + [] == WriteU32(v);
    }
    if v < U64 {
      ValueU64(v);
    }
  }

  lemma {:induction false} U16RoundTrip(v: nat, tail: Bytes)
    requires v < U16
    ensures ReadU16(WriteU16(v) + tail) == (Some(v), tail)
  {
  }

  lemma {:induction false} U32RoundTrip(v: nat, tail: Bytes)
    requires v < U32
    ensures ReadU32(WriteU32(v) + tail) == (Some(v), tail)
  {
    var b := WriteU32(v);
    var d := b + tail;
    assert d[0] == b[0] && d[1] == b[1] && d[2] == b[2] && d[3] == b[3];
    assert d[4..] == tail;
    FourBytesSum(v);
  }

  lemma {:induction false} U64RoundTrip(v: nat, tail: Bytes)
    requires v < U64
    ensures ReadU64(WriteU64(v) + tail) == (Some(v), tail)
  {
    var hi := v / U32;
    assert hi % U32 == hi;
    assert WriteU64(v) + tail == WriteU32(v % U32) + (WriteU32(hi) + tail);
    U32RoundTrip(v % U32, WriteU32(hi) + tail);
    U32RoundTrip(hi, tail);
  }

  // ---- Strings and lists of strings --------------------------------------------------------------

  /** The length is narrowed to sixteen bits; the bytes are written in full. */
  function WriteStr(s: Bytes): Bytes {
    WriteU16(|s| % U16) + s
  }

  function ReadStr(data: Bytes): (Option<Bytes>, Bytes) {
    var (len, rest) := ReadU16(data);
    if len.None? then (None, rest)
    else if |rest| < len.value then (None, rest)
    else (Some(rest[..len.value]), rest[len.value..])
  }

  function WriteEach(list: seq<Bytes>): Bytes {
    if list == [] then [] else WriteStr(list[0]) + WriteEach(list[1..])
  }

  function WriteVec(list: seq<Bytes>): Bytes {
    WriteU16(|list| % U16) + WriteEach(list)
  }

  function ReadEach(data: Bytes, count: nat): (Option<seq<Bytes>>, Bytes)
    decreases count
  {
    if count == 0 then (Some([]), data)
    else
      var (item, rest) := ReadStr(data);
      if item.None? then (None, rest)
      else
        var (items, rest') := ReadEach(rest, count - 1);
        if items.None? then (None, rest') else (Some([item.value] + items.value), rest')
  }

  function ReadVec(data: Bytes): (Option<seq<Bytes>>, Bytes) {
    var (count, rest) := ReadU16(data);
    if count.None? then (None, rest) else ReadEach(rest, count.value)
  }

  lemma {:induction false} WriteEachAppend(list: seq<Bytes>, s: Bytes)
    ensures WriteEach(list + [s]) == WriteEach(list) + WriteStr(s)
  {
    if list == [] {
      assert list + [s] == [s];
    } else {
      assert (list + [s])[1..] == list[1..] + [s];
      WriteEachAppend(list[1..], s);
    }
  }

  method WriteVecLoop(out: Bytes, list: seq<Bytes>) returns (out': Bytes)
    ensures out' == out + WriteVec(list)
  {
    out' := out + WriteU16(|list| % U16);
    ghost var header := out';
    for i := 0 to |list|
      invariant out' == header + WriteEach(list[..i])
    {
      WriteEachAppend(list[..i], list[i]);
      assert list[..i + 1] == list[..i] + [list[i]];
      out' := out' + WriteStr(list[i]);
    }
    assert list[..|list|] == list;
  }

  ghost function Prepend(items: seq<Bytes>, r: (Option<seq<Bytes>>, Bytes)): (Option<seq<Bytes>>, Bytes) {
    match r.0
    case None => r
    case Some(more) => (Some(items + more), r.1)
  }

  method ReadVecLoop(data: Bytes) returns (result: Option<seq<Bytes>>, rest: Bytes)
    ensures (result, rest) == ReadVec(data)
  {
    var (count, view) := ReadU16(data);
    if count.None? {
      return None, view;
    }
    var items := [];
    ghost var whole := ReadEach(view, count.value);
    assert whole.0.Some? ==> [] + whole.0.value == whole.0.value;
    for i := 0 to count.value
      invariant Prepend(items, ReadEach(view, count.value - i)) == whole
    {
      var (item, view') := ReadStr(view);
      if item.None? {
        return None, view';
      }
      ghost var next := ReadEach(view', count.value - i - 1);
      assert next.0.Some? ==> items + ([item.value] + next.0.value) == items + [item.value] + next.0.value;
      items, view := items + [item.value], view';
    }
    assert items + [] == items;
    return Some(items), view;
  }

  lemma {:induction false} ModU16(n: nat)
    ensures n % U16 == n <==> n < U16
  {
  }

  lemma {:induction false} StrRoundTrip(s: Bytes, tail: Bytes)
    ensures |s| < U16 ==> ReadStr(WriteStr(s) + tail) == (Some(s), tail)
    ensures |s| >= U16 ==> ReadStr(WriteStr(s) + tail).0 != Some(s)
  {
    assert WriteStr(s) + tail == WriteU16(|s| % U16) + (s + tail);
    U16RoundTrip(|s| % U16, s + tail);
    assert (s + tail)[..|s|] == s && (s + tail)[|s|..] == tail;
    ModU16(|s|);
  }

  predicate AllFit(list: seq<Bytes>) {
    forall i :: 0 <= i < |list| ==> |list[i]| < U16
  }

  lemma {:induction false} EachStep(s: Bytes, data: Bytes, list: seq<Bytes>)
    ensures var (first, rest) := ReadStr(data);
      var (others, end) := ReadEach(rest, |list|);
      && (ReadEach(data, 1 + |list|).0 == Some([s] + list) <==> first == Some(s) && others == Some(list))
      && (first.Some? ==> ReadEach(data, 1 + |list|).1 == end)
  {
    var (first, rest) := ReadStr(data);
    if first.Some? {
      var (others, end) := ReadEach(rest, |list|);
      if others.Some? {
        assert [first.value] + others.value == [s] + list <==> first.value == s && others.value == list by {
          assert ([first.value] + others.value)[0] == first.value;
          assert ([first.value] + others.value)[1..] == others.value;
          assert ([s] + list)[0] == s && ([s] + list)[1..] == list;
        }
      }
    }
  }

  lemma {:induction false} EachRoundTrip(list: seq<Bytes>, tail: Bytes)
    ensures AllFit(list) ==> ReadEach(WriteEach(list) + tail, |list|) == (Some(list), tail)
    ensures !AllFit(list) ==> ReadEach(WriteEach(list) + tail, |list|).0 != Some(list)
  {
    if list == [] {
      assert WriteEach(list) + tail == tail;
    } else {
      var rest := WriteEach(list[1..]) + tail;
      assert WriteEach(list) + tail == WriteStr(list[0]) + rest;
      assert list == [list[0]] + list[1..];
      assert AllFit(list) <==> |list[0]| < U16 && AllFit(list[1..]);
      EachRoundTrip(list[1..], tail);
      StrRoundTrip(list[0], rest);
      EachStep(list[0], WriteStr(list[0]) + rest, list[1..]);
    }
  }

  lemma {:induction false} ReadEachLength(data: Bytes, count: nat)
    ensures ReadEach(data, count).0.Some? ==> |ReadEach(data, count).0.value| == count
    decreases count
  {
    if count > 0 && ReadStr(data).0.Some? {
      ReadEachLength(ReadStr(data).1, count - 1);
    }
  }

  lemma {:induction false} VecRoundTrip(list: seq<Bytes>, tail: Bytes)
    ensures |list| < U16 && AllFit(list) ==> ReadVec(WriteVec(list) + tail) == (Some(list), tail)
    ensures !(|list| < U16 && AllFit(list)) ==> ReadVec(WriteVec(list) + tail).0 != Some(list)
  {
    var rest := WriteEach(list) + tail;
    assert WriteVec(list) + tail == WriteU16(|list| % U16) + rest;
    U16RoundTrip(|list| % U16, rest);
    ModU16(|list|);
    EachRoundTrip(list, tail);
    ReadEachLength(rest, |list| % U16);
  }
}
