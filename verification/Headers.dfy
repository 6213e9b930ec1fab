/** The headers that start a connection, and how the accepting side reads them. */
module Headers {
  import opened Wrappers
  import opened Bytes
  import opened WireTypes
  import opened Codec
  import opened Containment
  import opened Reader
  import opened Writer
  import opened WireBytes

  /** Addresses and URLs by their text. */
  datatype ConnectInfo = TcpStream(text: seq<byte>) | Url(text: seq<byte>)

  datatype WireInfo = WireInfo(wireId: nat, accessKey: nat, connectInfo: ConnectInfo)

  /** The id and key of the wire that a nested one belongs to. */
  datatype Forward = Forward(wireId: nat, accessKey: nat)

  /** The four ways of connecting. */
  datatype Connection =
    | Client
    | Bidirectional(info: WireInfo)
    | NestedOneWay(parent: Forward)
    | NestedBidirectional(info: WireInfo, parent: Forward)

  const U64 := TInt(8, false)
  const U128 := TInt(16, false)
  const CONNECT_INFO := TEnum(1, [Variant(false, [TString]), Variant(false, [TString])])
  const WIRE_INFO := TStruct([U64, U128, CONNECT_INFO], false)
  const FORWARD := TTuple([U64, U128])

  predicate ValidIds(wireId: nat, accessKey: nat) {
    wireId < Pow256(8) && accessKey < Pow256(16)
  }

  predicate ValidInfo(i: WireInfo) {
    && ValidIds(i.wireId, i.accessKey)
    && ValidUtf8(i.connectInfo.text) && |i.connectInfo.text| < U64_LIMIT
  }

  predicate ValidConnection(c: Connection) {
    && (c.Bidirectional? || c.NestedBidirectional? ==> ValidInfo(c.info))
    && (c.NestedOneWay? || c.NestedBidirectional? ==> ValidIds(c.parent.wireId, c.parent.accessKey))
  }

  function ConnectInfoValue(i: ConnectInfo): Value {
    VVariant(if i.TcpStream? then 0 else 1, [VString(i.text)])
  }

  function InfoValue(i: WireInfo): Value {
    VList([VInt(i.wireId), VInt(i.accessKey), ConnectInfoValue(i.connectInfo)])
  }

  function ForwardValue(f: Forward): Value {
    VList([VInt(f.wireId), VInt(f.accessKey)])
  }

  /** The bytes each side writes first. */
  function Header(c: Connection): seq<byte> {
    match c
    case Client => EncodeInt(2, 0)
    case Bidirectional(i) => Encode(TOption(WIRE_INFO), VSome(InfoValue(i))) + Encode(TOption(FORWARD), VNone)
    case NestedOneWay(f) => [0] + Encode(TOption(FORWARD), VSome(ForwardValue(f)))
    case NestedBidirectional(i, f) =>
      Encode(TOption(WIRE_INFO), VSome(InfoValue(i))) + Encode(TOption(FORWARD), VSome(ForwardValue(f)))
  }

  /** What the accepting side should learn. */
  function Intended(c: Connection): (Option<WireInfo>, Option<Forward>) {
    match c
    case Client => (None, None)
    case Bidirectional(i) => (Some(i), None)
    case NestedOneWay(f) => (None, Some(f))
    case NestedBidirectional(i, f) => (Some(i), Some(f))
  }

  // ----- reading them back -----

  function InfoOf(v: Value): Option<WireInfo> {
    match v
    case VSome(VList(vs)) =>
      if |vs| == 3 && vs[0].VInt? && vs[1].VInt? && vs[2].VVariant? && |vs[2].vs| == 1 && vs[2].vs[0].VString? then
        var text := vs[2].vs[0].bytes;
        Some(WireInfo(vs[0].n, vs[1].n, if vs[2].index == 0 then TcpStream(text) else Url(text)))
      else None
    case _ => None
  }

  function ForwardOf(v: Value): Option<Forward> {
    match v
    case VSome(VList(vs)) =>
      if |vs| == 2 && vs[0].VInt? && vs[1].VInt? then Some(Forward(vs[0].n, vs[1].n)) else None
    case _ => None
  }

  /** `WireConfig::wire`: an optional info, then an optional parent. */
  function Parse(b: seq<byte>, pos: nat): Parsed<(Option<WireInfo>, Option<Forward>)>
    requires pos <= |b|
  {
    match Decode(TOption(WIRE_INFO), b, pos)
    case Ok(i, p) =>
      (match Decode(TOption(FORWARD), b, p)
       case Ok(f, q) => Ok((InfoOf(i), ForwardOf(f)), q)
       case Err(e) => Err(e))
    case Err(e) => Err(e)
  }

  function InfoOption(o: Option<WireInfo>): Value {
    if o.Some? then VSome(InfoValue(o.value)) else VNone
  }

  function ForwardOption(o: Option<Forward>): Value {
    if o.Some? then VSome(ForwardValue(o.value)) else VNone
  }

  /** Whatever shortcut a side takes, it writes the two options of the intended pair. */
  lemma HeaderIsTwoOptions(c: Connection)
    ensures Header(c) == Encode(TOption(WIRE_INFO), InfoOption(Intended(c).0))
                         + Encode(TOption(FORWARD), ForwardOption(Intended(c).1))
  {
    if c.Client? { ZeroInt(2); }
  }

  lemma FitCons(t: Ty, ts: seq<Ty>)
    requires Valid(t) && TagsFit(t) && Reservable(t) && AllValid(ts) && AllTagsFit(ts) && AllReservable(ts)
    ensures AllValid([t] + ts) && AllTagsFit([t] + ts) && AllReservable([t] + ts)
  {
    assert ([t] + ts)[1..] == ts;
  }

  lemma InfoTypeIsFit()
    ensures Valid(WIRE_INFO) && TagsFit(WIRE_INFO) && Reservable(WIRE_INFO)
  {
    assert Pow256(1) == 256 && [TString] + [] == [TString];
    FitCons(TString, []);
    FitCons(CONNECT_INFO, []);
    FitCons(U128, [CONNECT_INFO] + []);
    FitCons(U64, [U128] + ([CONNECT_INFO] + []));
    assert [U64] + ([U128] + ([CONNECT_INFO] + [])) == WIRE_INFO.fields;
  }

  lemma ForwardTypeIsFit()
    ensures Valid(FORWARD) && TagsFit(FORWARD) && Reservable(FORWARD)
  {
    FitCons(U128, []);
    FitCons(U64, [U128] + []);
    assert [U64] + ([U128] + []) == FORWARD.fields;
  }

  lemma InfoHasType(i: WireInfo)
    requires ValidInfo(i)
    ensures HasType(WIRE_INFO, InfoValue(i))
  {
    var ts, vs := WIRE_INFO.fields, InfoValue(i).vs;
    var c := ConnectInfoValue(i.connectInfo);
    assert c.vs[1..] == [] && [TString][1..] == [];
    assert FieldsHaveType([TString], c.vs);
    assert ts[1..] == [U128, CONNECT_INFO] && ts[1..][1..] == [CONNECT_INFO] && ts[1..][1..][1..] == [];
    assert vs[1..] == [vs[1], c] && vs[1..][1..] == [c] && vs[1..][1..][1..] == [];
    assert FieldsHaveType(ts[1..][1..], vs[1..][1..]);
    assert FieldsHaveType(ts[1..], vs[1..]);
  }

  lemma ForwardHasType(f: Forward)
    requires ValidIds(f.wireId, f.accessKey)
    ensures HasType(FORWARD, ForwardValue(f))
  {
    var ts, vs := FORWARD.fields, ForwardValue(f).vs;
    assert ts[1..] == [U128] && vs[1..] == [VInt(f.accessKey)] && [U128][1..] == [] && [VInt(f.accessKey)][1..] == [];
    assert FieldsHaveType([], []);
    assert FieldsHaveType([U128], [VInt(f.accessKey)]);
  }

  lemma InfoTells(i: Option<WireInfo>, f: Option<Forward>)
    ensures InfoOf(InfoOption(i)) == i && ForwardOf(ForwardOption(f)) == f
  {
  }

  /** An option reads back as soon as its content has the type. */
  lemma OptionBack(t: Ty, o: Value, b: seq<byte>, pos: nat)
    requires TagsFit(t) && (o == VNone || (o.VSome? && HasType(t, o.v))) && Stands(b, pos, Encode(TOption(t), o))
    ensures Decode(TOption(t), b, pos) == Ok(o, pos + |Encode(TOption(t), o)|)
  {
    RoundTrip(TOption(t), o, b, pos);
  }

  lemma InfoBack(i: Option<WireInfo>, b: seq<byte>, pos: nat)
    requires (i.Some? ==> ValidInfo(i.value)) && Stands(b, pos, Encode(TOption(WIRE_INFO), InfoOption(i)))
    ensures Decode(TOption(WIRE_INFO), b, pos) == Ok(InfoOption(i), pos + |Encode(TOption(WIRE_INFO), InfoOption(i))|)
  {
    InfoTypeIsFit();
    if i.Some? { InfoHasType(i.value); }
    OptionBack(WIRE_INFO, InfoOption(i), b, pos);
  }

  lemma ForwardBack(f: Option<Forward>, b: seq<byte>, pos: nat)
    requires f.Some? ==> ValidIds(f.value.wireId, f.value.accessKey)
    requires Stands(b, pos, Encode(TOption(FORWARD), ForwardOption(f)))
    ensures Decode(TOption(FORWARD), b, pos) == Ok(ForwardOption(f), pos + |Encode(TOption(FORWARD), ForwardOption(f))|)
  {
    ForwardTypeIsFit();
    if f.Some? { ForwardHasType(f.value); }
    OptionBack(FORWARD, ForwardOption(f), b, pos);
  }

  lemma OptionsRoundTrip(i: Option<WireInfo>, f: Option<Forward>, b: seq<byte>, pos: nat)
    requires i.Some? ==> ValidInfo(i.value)
    requires f.Some? ==> ValidIds(f.value.wireId, f.value.accessKey)
    requires Stands(b, pos, Encode(TOption(WIRE_INFO), InfoOption(i)) + Encode(TOption(FORWARD), ForwardOption(f)))
    ensures Parse(b, pos)
      == Ok((i, f), pos + |Encode(TOption(WIRE_INFO), InfoOption(i)) + Encode(TOption(FORWARD), ForwardOption(f))|)
  {
    var s, z := Encode(TOption(WIRE_INFO), InfoOption(i)), Encode(TOption(FORWARD), ForwardOption(f));
    StandsSplit(b, pos, s, z);
    InfoBack(i, b, pos);
    ForwardBack(f, b, pos + |s|);
    InfoTells(i, f);
  }

  /** Every header is read back to the intended pair, and the bytes behind it are left alone. */
  lemma HeadersAgree(c: Connection, rest: seq<byte>)
    requires ValidConnection(c)
    ensures Parse(Header(c) + rest, 0) == Ok(Intended(c), |Header(c)|)
  {
    HeaderIsTwoOptions(c);
    var b := Header(c) + rest;
    assert Stands(b, 0, Header(c));
    OptionsRoundTrip(Intended(c).0, Intended(c).1, b, 0);
  }

  /** Different connections start differently: no header is a prefix of another one. */
  lemma HeadersArePrefixFree(c: Connection, d: Connection)
    requires ValidConnection(c) && ValidConnection(d) && Header(c) <= Header(d)
    ensures c == d
  {
    var x, y := Header(c), Header(d);
    var rest := y[|x|..];
    assert y == x + rest && y + [] == y;
    HeadersAgree(c, rest);
    HeadersAgree(d, []);
    IntendedTells(c, d);
  }

  lemma IntendedTells(c: Connection, d: Connection)
    ensures Intended(c) == Intended(d) ==> c == d
  {
  }

  // ----- byte by byte -----

  /** The bytes of a wire's id, its key and its address: 0 for one of a socket, 1 for a URL. */
  function InfoBytes(id: byte, key: byte, kind: byte, letter: byte): seq<byte> {
    Small(8, id) + (Small(16, key) + ([kind] + (Small(8, 1) + [letter])))
  }

  /** Small ids and keys, and an address of one letter. */
  lemma HeaderBytes(id: byte, key: byte, c: ConnectInfo, letter: byte, parent: byte, parentKey: byte)
    requires c.text == [letter]
    ensures var i, f, kind := WireInfo(id, key, c), Forward(parent, parentKey), if c.TcpStream? then 0 else 1;
      && Header(Client) == [0, 0]
      && Header(Bidirectional(i)) == ([1] + InfoBytes(id, key, kind, letter)) + [0]
      && Header(NestedOneWay(f)) == [0] + ([1] + (Small(8, parent) + Small(16, parentKey)))
      && Header(NestedBidirectional(i, f))
         == ([1] + InfoBytes(id, key, kind, letter)) + ([1] + (Small(8, parent) + Small(16, parentKey)))
  {
    AddressIs(id, key, c, letter);
    ForwardIs(parent, parentKey);
    ZeroInt(2);
  }

  lemma ForwardIs(id: byte, key: byte)
    ensures Encode(FORWARD, ForwardValue(Forward(id, key))) == Small(8, id) + Small(16, key)
  {
    var ts, vs := [U64, U128], [VInt(id), VInt(key)];
    assert ts[1..] == [U128] && vs[1..] == [VInt(key)] && [U128][1..] == [] && [VInt(key)][1..] == [];
    SmallInt(8, id);
    SmallInt(16, key);
    assert EncodeFields([U128], [VInt(key)]) == EncodeInt(16, key) + EncodeFields([], []) == EncodeInt(16, key);
    assert EncodeFields(ts, vs) == EncodeInt(8, id) + EncodeInt(16, key);
    assert FORWARD == TTuple(ts) && ForwardValue(Forward(id, key)) == VList(vs);
  }

  lemma ConnectIs(c: ConnectInfo, letter: byte)
    requires c.text == [letter]
    ensures Encode(CONNECT_INFO, ConnectInfoValue(c)) == [if c.TcpStream? then 0 else 1] + (Small(8, 1) + [letter])
  {
    var ss := [VString([letter])];
    SmallInt(8, 1);
    OneByte(0);
    OneByte(1);
    assert [TString][1..] == [] && ss[1..] == [];
    assert EncodeFields([TString], ss) == (Small(8, 1) + [letter]) + EncodeFields([], []) == Small(8, 1) + [letter];
  }

  lemma AddressIs(id: byte, key: byte, c: ConnectInfo, letter: byte)
    requires c.text == [letter]
    ensures Encode(WIRE_INFO, InfoValue(WireInfo(id, key, c)))
      == InfoBytes(id, key, if c.TcpStream? then 0 else 1, letter)
  {
    var x := ConnectInfoValue(c);
    var s := Encode(CONNECT_INFO, x);
    ConnectIs(c, letter);
    SmallInt(8, id);
    SmallInt(16, key);
    var ts, vs := [U64, U128, CONNECT_INFO], [VInt(id), VInt(key), x];
    var t1, v1 := [CONNECT_INFO], [x];
    var t2, v2 := [U128, CONNECT_INFO], [VInt(key), x];
    assert ts[1..] == t2 && vs[1..] == v2 && t2[1..] == t1 && v2[1..] == v1 && t1[1..] == [] && v1[1..] == [];
    assert EncodeFields(t1, v1) == s + EncodeFields([], []) == s;
    assert EncodeFields(t2, v2) == EncodeInt(16, key) + s;
    assert EncodeFields(ts, vs) == EncodeInt(8, id) + (EncodeInt(16, key) + s);
    assert WIRE_INFO == TStruct(ts, false) && InfoValue(WireInfo(id, key, c)) == VList(vs);
  }

  // ----- step by step -----

  /** `connect` without a listener */
  method WriteClient(wire: VecBuf)
    requires wire.Valid()
    modifies wire, wire.data
    ensures wire.Appended(Header(Client))
  {
    wire.Wiring(TInt(2, false), VInt(0), false);
  }

  lemma InfoReady(i: Option<WireInfo>)
    requires i.Some? ==> ValidInfo(i.value)
    ensures Valid(WIRE_INFO) && HasType(TOption(WIRE_INFO), InfoOption(i)) && Contained(TOption(WIRE_INFO), InfoOption(i))
  {
    InfoTypeIsFit();
    if i.Some? {
      InfoHasType(i.value);
      ReservableIsContained(WIRE_INFO, InfoValue(i.value));
    }
  }

  lemma ForwardReady(f: Option<Forward>)
    requires f.Some? ==> ValidIds(f.value.wireId, f.value.accessKey)
    ensures Valid(FORWARD) && HasType(TOption(FORWARD), ForwardOption(f)) && Contained(TOption(FORWARD), ForwardOption(f))
  {
    ForwardTypeIsFit();
    if f.Some? {
      ForwardHasType(f.value);
      ReservableIsContained(FORWARD, ForwardValue(f.value));
    }
  }

  method WriteForward(f: Option<Forward>, wire: VecBuf)
    requires wire.Valid() && (f.Some? ==> ValidIds(f.value.wireId, f.value.accessKey))
    modifies wire, wire.data
    ensures wire.Appended(Encode(TOption(FORWARD), ForwardOption(f)))
  {
    ForwardReady(f);
    wire.Wiring(TOption(FORWARD), ForwardOption(f), false);
  }

  /** `stream` without a listener: 0u8 for the missing info, then the parent. */
  method WriteOneWay(parent: Forward, wire: VecBuf)
    requires wire.Valid() && ValidConnection(NestedOneWay(parent))
    modifies wire, wire.data
    ensures wire.Appended(Header(NestedOneWay(parent)))
  {
    ghost var x := Encode(TOption(FORWARD), ForwardOption(Some(parent)));
    ghost var was := wire.Contents();
    wire.SyncWireAll([0], true);
    WriteForward(Some(parent), wire);
    Assoc(was, [0], x);
  }

  method WriteInfo(info: WireInfo, wire: VecBuf)
    requires wire.Valid() && ValidInfo(info)
    modifies wire, wire.data
    ensures wire.Appended(Encode(TOption(WIRE_INFO), InfoOption(Some(info))))
  {
    InfoReady(Some(info));
    wire.Wiring(TOption(WIRE_INFO), InfoOption(Some(info)), false);
  }

  function Outgoing(info: WireInfo, parent: Option<Forward>): Connection {
    match parent
    case None => Bidirectional(info)
    case Some(f) => NestedBidirectional(info, f)
  }

  /** The listener's `OutgoingWire` arm, for `connect` and, with a parent, for `stream`. */
  method OutgoingWire(info: WireInfo, parent: Option<Forward>, wire: VecBuf)
    requires wire.Valid() && ValidInfo(info)
    requires parent.Some? ==> ValidIds(parent.value.wireId, parent.value.accessKey)
    modifies wire, wire.data
    ensures wire.Appended(Header(Outgoing(info, parent)))
  {
    ghost var was := wire.Contents();
    WriteInfo(info, wire);
    WriteForward(parent, wire);
    Assoc(was, Encode(TOption(WIRE_INFO), InfoOption(Some(info))), Encode(TOption(FORWARD), ForwardOption(parent)));
    HeaderIsTwoOptions(Outgoing(info, parent));
  }

  method ReadHeader(stream: Reader) returns (r: Parsed<(Option<WireInfo>, Option<Forward>)>)
    requires stream.Valid() && stream.checked
    modifies stream
    ensures stream.Valid() && r == Parse(stream.buf, old(stream.position))
    ensures r.Ok? ==> stream.position == r.pos
  {
    var i := stream.Unwiring(TOption(WIRE_INFO));
    if i.Err? { return Err(i.error); }
    var f := stream.Unwiring(TOption(FORWARD));
    if f.Err? { return Err(f.error); }
    r := Ok((InfoOf(i.value), ForwardOf(f.value)), stream.position);
  }
}
