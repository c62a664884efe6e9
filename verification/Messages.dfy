/** The gateway's messages and the order in which their fields travel. */
module Messages {
  import opened Common
  import opened Serializer

  datatype Message =
    | EchoRequest(payload: Bytes)
    | EchoResponse(payload: Bytes)
    | LoginRequest(userId: Bytes, token: Bytes, displayName: Bytes)
    | LoginResponse(userId: Bytes, displayName: Bytes, ok: bool)
    | RoomCreateRequest(roomId: Bytes)
    | RoomCreateResponse(roomId: Bytes, ownerId: Bytes)
    | RoomJoinRequest(roomId: Bytes)
    | RoomJoinResponse(roomId: Bytes)
    | RoomReadyRequest(ready: bool)
    | RoomReadyResponse(userId: Bytes, ready: bool)
    | RoomStatePush(roomId: Bytes, ownerId: Bytes, memberIds: seq<Bytes>, readyIds: seq<Bytes>)
    | BattleStartRequest(roomId: Bytes)
    | BattleStartResponse(battleId: Bytes, roomId: Bytes)
    | BattleInputRequest(inputData: Bytes)
    | BattleInputResponse(inputSeq: nat)
    | BattleInputPush(userId: Bytes, inputSeq: nat, inputData: Bytes)
    | BattleStatePush(battleId: Bytes, roomId: Bytes, state: Bytes)

  datatype Field = Text(s: Bytes) | Flag(b: bool) | Number(n: nat) | Texts(list: seq<Bytes>)

  datatype FieldType = TextField | FlagField | NumberField | TextsField

  function TypeOf(f: Field): FieldType {
    match f
    case Text(_) => TextField
    case Flag(_) => FlagField
    case Number(_) => NumberField
    case Texts(_) => TextsField
  }

  function WriteField(f: Field): Bytes {
    match f
    case Text(s) => WriteStr(s)
    case Flag(b) => [if b then 1 else 0]
    case Number(n) => WriteU64(n)
    case Texts(list) => WriteVec(list)
  }

  function ReadField(t: FieldType, data: Bytes): (r: (Option<Field>, Bytes))
    ensures r.0.Some? ==> TypeOf(r.0.value) == t
  {
    match t
    case TextField =>
      var (s, rest) := ReadStr(data);
      (if s.None? then None else Some(Text(s.value)), rest)
    case FlagField =>
      if data == [] then (None, data) else (Some(Flag(data[0] != 0)), data[1..])
    case NumberField =>
      var (n, rest) := ReadU64(data);
      (if n.None? then None else Some(Number(n.value)), rest)
    case TextsField =>
      var (list, rest) := ReadVec(data);
      (if list.None? then None else Some(Texts(list.value)), rest)
  }

  /** Every string and every list fits its sixteen-bit length, every number its sixty-four bits. */
  predicate FieldFits(f: Field) {
    match f
    case Text(s) => |s| < U16
    case Flag(_) => true
    case Number(n) => n < U64
    case Texts(list) => |list| < U16 && AllFit(list)
  }

  lemma {:induction false} FieldRoundTrip(f: Field, tail: Bytes)
    requires f.Number? ==> f.n < U64
    ensures FieldFits(f) ==> ReadField(TypeOf(f), WriteField(f) + tail) == (Some(f), tail)
    ensures !FieldFits(f) ==> ReadField(TypeOf(f), WriteField(f) + tail).0 != Some(f)
  {
    match f
    case Text(s) => StrRoundTrip(s, tail);
    case Flag(b) => assert (WriteField(f) + tail)[1..] == tail;
    case Number(n) => U64RoundTrip(n, tail);
    case Texts(list) => VecRoundTrip(list, tail);
  }

  function WriteFields(fs: seq<Field>): Bytes {
    if fs == [] then [] else WriteField(fs[0]) + WriteFields(fs[1..])
  }

  function Types(fs: seq<Field>): seq<FieldType> {
    seq(|fs|, i requires 0 <= i < |fs| => TypeOf(fs[i]))
  }

  /** All fields are read, also after one has failed; one failure fails the message. */
  function ReadFields(ts: seq<FieldType>, data: Bytes): (r: Option<seq<Field>>)
    ensures r.Some? ==> Types(r.value) == ts
    decreases ts
  {
    if ts == [] then Some([])
    else
      var (f, rest) := ReadField(ts[0], data);
      var fs := ReadFields(ts[1..], rest);
      if f.None? || fs.None? then None
      else
        assert Types([f.value] + fs.value) == [ts[0]] + Types(fs.value);
        Some([f.value] + fs.value)
  }

  predicate FieldsFit(fs: seq<Field>) {
    forall i :: 0 <= i < |fs| ==> FieldFits(fs[i])
  }

  predicate Numbers64(fs: seq<Field>) {
    forall i :: 0 <= i < |fs| && fs[i].Number? ==> fs[i].n < U64
  }

  lemma {:induction false} ReadFieldsStep(f: Field, ts: seq<FieldType>, data: Bytes, fs: seq<Field>)
    ensures var (first, rest) := ReadField(TypeOf(f), data);
            ReadFields([TypeOf(f)] + ts, data) == Some([f] + fs) <==>
            first == Some(f) && ReadFields(ts, rest) == Some(fs)
  {
    var (first, rest) := ReadField(TypeOf(f), data);
    assert ([TypeOf(f)] + ts)[1..] == ts;
    var more := ReadFields(ts, rest);
    if first.Some? && more.Some? {
      assert ([first.value] + more.value)[1..] == more.value && ([f] + fs)[1..] == fs;
    }
  }

  lemma {:induction false} FieldsRoundTrip(fs: seq<Field>, tail: Bytes)
    requires Numbers64(fs)
    ensures ReadFields(Types(fs), WriteFields(fs) + tail) == Some(fs) <==> FieldsFit(fs)
  {
    if fs != [] {
      var f, more := fs[0], fs[1..];
      var rest := WriteFields(more) + tail;
      assert WriteFields(fs) + tail == WriteField(f) + rest;
      assert Types(fs) == [TypeOf(f)] + Types(more) && fs == [f] + more;
      ReadFieldsStep(f, Types(more), WriteField(f) + rest, more);
      FieldRoundTrip(f, rest);
      FieldsRoundTrip(more, tail);
    }
  }

  // ---- Messages as fields, in wire order ---------------------------------------------------------

  datatype Kind =
    | KEchoRequest | KEchoResponse | KLoginRequest | KLoginResponse
    | KRoomCreateRequest | KRoomCreateResponse | KRoomJoinRequest | KRoomJoinResponse
    | KRoomReadyRequest | KRoomReadyResponse | KRoomStatePush
    | KBattleStartRequest | KBattleStartResponse | KBattleInputRequest | KBattleInputResponse
    | KBattleInputPush | KBattleStatePush

  function KindOf(m: Message): Kind {
    match m
    case EchoRequest(_) => KEchoRequest
    case EchoResponse(_) => KEchoResponse
    case LoginRequest(_, _, _) => KLoginRequest
    case LoginResponse(_, _, _) => KLoginResponse
    case RoomCreateRequest(_) => KRoomCreateRequest
    case RoomCreateResponse(_, _) => KRoomCreateResponse
    case RoomJoinRequest(_) => KRoomJoinRequest
    case RoomJoinResponse(_) => KRoomJoinResponse
    case RoomReadyRequest(_) => KRoomReadyRequest
    case RoomReadyResponse(_, _) => KRoomReadyResponse
    case RoomStatePush(_, _, _, _) => KRoomStatePush
    case BattleStartRequest(_) => KBattleStartRequest
    case BattleStartResponse(_, _) => KBattleStartResponse
    case BattleInputRequest(_) => KBattleInputRequest
    case BattleInputResponse(_) => KBattleInputResponse
    case BattleInputPush(_, _, _) => KBattleInputPush
    case BattleStatePush(_, _, _) => KBattleStatePush
  }

  function FieldsOf(m: Message): seq<Field> {
    match m
    case EchoRequest(payload) => [Text(payload)]
    case EchoResponse(payload) => [Text(payload)]
    case LoginRequest(user, token, name) => [Text(user), Text(token), Text(name)]
    case LoginResponse(user, name, ok) => [Flag(ok), Text(user), Text(name)]
    case RoomCreateRequest(room) => [Text(room)]
    case RoomCreateResponse(room, owner) => [Text(room), Text(owner)]
    case RoomJoinRequest(room) => [Text(room)]
    case RoomJoinResponse(room) => [Text(room)]
    case RoomReadyRequest(ready) => [Flag(ready)]
    case RoomReadyResponse(user, ready) => [Flag(ready), Text(user)]
    case RoomStatePush(room, owner, members, readies) => [Text(room), Text(owner), Texts(members), Texts(readies)]
    case BattleStartRequest(room) => [Text(room)]
    case BattleStartResponse(battle, room) => [Text(battle), Text(room)]
    case BattleInputRequest(input) => [Text(input)]
    case BattleInputResponse(n) => [Number(n)]
    case BattleInputPush(user, n, input) => [Text(user), Number(n), Text(input)]
    case BattleStatePush(battle, room, state) => [Text(battle), Text(room), Text(state)]
  }

  function Layout(k: Kind): seq<FieldType> {
    match k
    case KEchoRequest | KEchoResponse | KRoomCreateRequest | KRoomJoinRequest | KRoomJoinResponse
       | KBattleStartRequest | KBattleInputRequest => [TextField]
    case KRoomCreateResponse | KBattleStartResponse => [TextField, TextField]
    case KLoginRequest | KBattleStatePush => [TextField, TextField, TextField]
    case KLoginResponse => [FlagField, TextField, TextField]
    case KRoomReadyRequest => [FlagField]
    case KRoomReadyResponse => [FlagField, TextField]
    case KRoomStatePush => [TextField, TextField, TextsField, TextsField]
    case KBattleInputResponse => [NumberField]
    case KBattleInputPush => [TextField, NumberField, TextField]
  }

  function Build(k: Kind, fs: seq<Field>): Message
    requires Types(fs) == Layout(k)
  {
    assert |fs| == |Layout(k)|;
    assert forall i :: 0 <= i < |fs| ==> TypeOf(fs[i]) == Layout(k)[i];
    match k
    case KEchoRequest => EchoRequest(fs[0].s)
    case KEchoResponse => EchoResponse(fs[0].s)
    case KLoginRequest => LoginRequest(fs[0].s, fs[1].s, fs[2].s)
    case KLoginResponse => LoginResponse(fs[1].s, fs[2].s, fs[0].b)
    case KRoomCreateRequest => RoomCreateRequest(fs[0].s)
    case KRoomCreateResponse => RoomCreateResponse(fs[0].s, fs[1].s)
    case KRoomJoinRequest => RoomJoinRequest(fs[0].s)
    case KRoomJoinResponse => RoomJoinResponse(fs[0].s)
    case KRoomReadyRequest => RoomReadyRequest(fs[0].b)
    case KRoomReadyResponse => RoomReadyResponse(fs[1].s, fs[0].b)
    case KRoomStatePush => RoomStatePush(fs[0].s, fs[1].s, fs[2].list, fs[3].list)
    case KBattleStartRequest => BattleStartRequest(fs[0].s)
    case KBattleStartResponse => BattleStartResponse(fs[0].s, fs[1].s)
    case KBattleInputRequest => BattleInputRequest(fs[0].s)
    case KBattleInputResponse => BattleInputResponse(fs[0].n)
    case KBattleInputPush => BattleInputPush(fs[0].s, fs[1].n, fs[2].s)
    case KBattleStatePush => BattleStatePush(fs[0].s, fs[1].s, fs[2].s)
  }

  function Serialize(m: Message): Bytes {
    WriteFields(FieldsOf(m))
  }

  function Deserialize(k: Kind, data: Bytes): (r: Option<Message>) {
    var fs := ReadFields(Layout(k), data);
    if fs.None? then None else Some(Build(k, fs.value))
  }

  lemma {:induction false} BuildFields(m: Message)
    ensures Types(FieldsOf(m)) == Layout(KindOf(m))
    ensures Build(KindOf(m), FieldsOf(m)) == m
  {
  }

  lemma {:induction false} FieldsBuild(k: Kind, fs: seq<Field>)
    requires Types(fs) == Layout(k)
    ensures FieldsOf(Build(k, fs)) == fs
  {
    assert |fs| == |Layout(k)|;
    assert forall i :: 0 <= i < |fs| ==> TypeOf(fs[i]) == Layout(k)[i];
    assert forall i :: 0 <= i < |fs| ==> FieldsOf(Build(k, fs))[i] == fs[i];
  }

  lemma {:induction false} WriteOne(a: Field)
    ensures WriteFields([a]) == WriteField(a)
  {
    assert [a][1..] == [];
    assert WriteField(a) + [] == WriteField(a);
  }

  lemma {:induction false} WriteTwo(a: Field, b: Field)
    ensures WriteFields([a, b]) == WriteField(a) + WriteField(b)
  {
    assert [a, b][1..] == [b];
    WriteOne(b);
  }

  lemma {:induction false} WriteThree(a: Field, b: Field, c: Field)
    ensures WriteFields([a, b, c]) == WriteField(a) + WriteField(b) + WriteField(c)
  {
    assert [a, b, c][1..] == [b, c];
    WriteTwo(b, c);
  }

  lemma {:induction false} WriteFour(a: Field, b: Field, c: Field, d: Field)
    ensures WriteFields([a, b, c, d]) == WriteField(a) + WriteField(b) + WriteField(c) + WriteField(d)
  {
    assert [a, b, c, d][1..] == [b, c, d];
    WriteThree(b, c, d);
  }

  function FlagByte(b: bool): Bytes { [if b then 1 else 0] }

  /** The bytes of every message. */
  lemma {:induction false} MessageBytes(m: Message)
    ensures Serialize(m) ==
      match m
      case EchoRequest(payload) => WriteStr(payload)
      case EchoResponse(payload) => WriteStr(payload)
      case LoginRequest(user, token, name) => WriteStr(user) + WriteStr(token) + WriteStr(name)
      case LoginResponse(user, name, ok) => FlagByte(ok) + WriteStr(user) + WriteStr(name)
      case RoomCreateRequest(room) => WriteStr(room)
      case RoomCreateResponse(room, owner) => WriteStr(room) + WriteStr(owner)
      case RoomJoinRequest(room) => WriteStr(room)
      case RoomJoinResponse(room) => WriteStr(room)
      case RoomReadyRequest(ready) => FlagByte(ready)
      case RoomReadyResponse(user, ready) => FlagByte(ready) + WriteStr(user)
      case RoomStatePush(room, owner, members, readies) =>
        WriteStr(room) + WriteStr(owner) + WriteVec(members) + WriteVec(readies)
      case BattleStartRequest(room) => WriteStr(room)
      case BattleStartResponse(battle, room) => WriteStr(battle) + WriteStr(room)
      case BattleInputRequest(input) => WriteStr(input)
      case BattleInputResponse(n) => WriteU64(n)
      case BattleInputPush(user, n, input) => WriteStr(user) + WriteU64(n) + WriteStr(input)
      case BattleStatePush(battle, room, state) => WriteStr(battle) + WriteStr(room) + WriteStr(state)
  {
    var fs := FieldsOf(m);
    if |fs| == 1 {
      WriteOne(fs[0]);
    } else if |fs| == 2 {
      WriteTwo(fs[0], fs[1]);
    } else if |fs| == 3 {
      WriteThree(fs[0], fs[1], fs[2]);
    } else {
      WriteFour(fs[0], fs[1], fs[2], fs[3]);
    }
  }

  predicate Fits(m: Message) {
    FieldsFit(FieldsOf(m))
  }

  /** A message survives serialisation if and only if its strings and lists fit their lengths. */
  lemma {:induction false} MessageRoundTrip(m: Message, tail: Bytes)
    requires Numbers64(FieldsOf(m))
    ensures Deserialize(KindOf(m), Serialize(m) + tail) == Some(m) <==> Fits(m)
  {
    BuildFields(m);
    FieldsRoundTrip(FieldsOf(m), tail);
    var fs := ReadFields(Layout(KindOf(m)), Serialize(m) + tail);
    if fs.Some? {
      FieldsBuild(KindOf(m), fs.value);
    }
  }
}
