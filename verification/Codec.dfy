/**
 The plain codec: what `sync_wiring` writes and what `sync_unwiring` reads from a checked
 slice.  A reader is a buffer and a position, so that the bytes left over are simply those
 behind the position.
 */
module Codec {
  import opened Bytes
  import opened WireTypes

  datatype Error = Eof | Invalid | OutOfBounds

  datatype Parsed<+T> = Ok(value: T, pos: nat) | Err(error: Error)

  // ----- encoding -----

  /** Only meaningful for values of type `t`. */
  function Encode(t: Ty, v: Value): seq<byte>
    decreases t, 0, 0
  {
    match (t, v)
    case (TInt(w, _), VInt(n)) => EncodeInt(w, n)
    case (TFloat(w), VInt(n)) => EncodeInt(w, n)
    case (TBool, VBool(x)) => [if x then 1 else 0]
    case (TUnit, _) => [0]
    case (TUnitStruct, _) => [0]
    case (TString, VString(s)) => EncodeInt(8, |s|) + s
    case (TOption(_), VNone) => [0]
    case (TOption(e), VSome(x)) => [1] + Encode(e, x)
    case (TVec(e), VList(vs)) => EncodeInt(8, |vs|) + EncodeAll(e, vs)
    case (TArray(e, _), VList(vs)) => EncodeAll(e, vs)
    case (TTuple(ts), VList(vs)) => EncodeFields(ts, vs)
    case (TStruct(ts, _), VList(vs)) => EncodeFields(ts, vs)
    case (TEnum(tag, variants), VVariant(i, vs)) =>
      if i < |variants| then EncodeInt(tag, i) + EncodeFields(variants[i].fields, vs) else []
    case _ => []
  }

  function EncodeAll(t: Ty, vs: seq<Value>): seq<byte>
    decreases t, 1, |vs|
  {
    if vs == [] then [] else Encode(t, vs[0]) + EncodeAll(t, vs[1..])
  }

  function EncodeFields(ts: seq<Ty>, vs: seq<Value>): seq<byte>
    decreases ts, 0, 0
  {
    if ts == [] || vs == [] then [] else Encode(ts[0], vs[0]) + EncodeFields(ts[1..], vs[1..])
  }

  // ----- decoding -----

  /** `read_exact` of `n` bytes */
  function Read(b: seq<byte>, pos: nat, n: nat): (r: Parsed<seq<byte>>)
    requires pos <= |b|
    ensures r.Ok? ==> r.pos == pos + n <= |b| && |r.value| == n && Stands(b, pos, r.value)
  {
    if pos + n <= |b| then Ok(b[pos..pos + n], pos + n) else Err(Eof)
  }

  function ReadInt(b: seq<byte>, pos: nat, w: nat): (r: Parsed<nat>)
    requires pos <= |b|
    ensures r.Ok? ==> r.pos == pos + w <= |b| && r.value < Pow256(w)
  {
    match Read(b, pos, w)
    case Ok(s, p) => Ok(DecodeInt(s), p)
    case Err(e) => Err(e)
  }

  function Decode(t: Ty, b: seq<byte>, pos: nat): (r: Parsed<Value>)
    requires pos <= |b|
    ensures r.Ok? ==> pos <= r.pos <= |b|
    decreases t, 0, 0
  {
    match t
    case TInt(w, _) => DecodeWidth(b, pos, w)
    case TFloat(w) => DecodeWidth(b, pos, w)
    case TBool =>
      (match ReadInt(b, pos, 1)
       case Ok(n, p) => Ok(VBool(n != 0), p)
       case Err(e) => Err(e))
    case TUnit => DecodeUnit(b, pos)
    case TUnitStruct => DecodeUnit(b, pos)
    case TString =>
      (match ReadInt(b, pos, 8)
       case Ok(n, p) =>
         (match Read(b, p, n)
          case Ok(s, q) => if ValidUtf8(s) then Ok(VString(s), q) else Err(Invalid)
          case Err(e) => Err(e))
       case Err(e) => Err(e))
    case TOption(e) =>
      (match ReadInt(b, pos, 1)
       case Ok(n, p) =>
         if n == 0 then Ok(VNone, p)
         else if n == 1 then
           (match Decode(e, b, p)
            case Ok(v, q) => Ok(VSome(v), q)
            case Err(er) => Err(er))
         else Err(Invalid)
       case Err(er) => Err(er))
    case TVec(e) =>
      (match ReadInt(b, pos, 8)
       case Ok(n, p) => AsList(DecodeAll(e, n, b, p))
       case Err(er) => Err(er))
    case TArray(e, n) => AsList(DecodeAll(e, n, b, pos))
    case TTuple(ts) => AsList(DecodeFields(ts, b, pos))
    case TStruct(ts, _) => AsList(DecodeFields(ts, b, pos))
    case TEnum(tag, variants) =>
      (match ReadInt(b, pos, tag)
       case Ok(n, p) =>
         if n < |variants| then
           (match DecodeFields(variants[n].fields, b, p)
            case Ok(vs, q) => Ok(VVariant(n, vs), q)
            case Err(er) => Err(er))
         else Err(Invalid)
       case Err(er) => Err(er))
  }

  function AsList(r: Parsed<seq<Value>>): Parsed<Value> {
    if r.Ok? then Ok(VList(r.value), r.pos) else Err(r.error)
  }

  function DecodeWidth(b: seq<byte>, pos: nat, w: nat): (r: Parsed<Value>)
    requires pos <= |b|
    ensures r.Ok? ==> pos <= r.pos <= |b|
  {
    match ReadInt(b, pos, w)
    case Ok(n, p) => Ok(VInt(n), p)
    case Err(e) => Err(e)
  }

  function DecodeUnit(b: seq<byte>, pos: nat): (r: Parsed<Value>)
    requires pos <= |b|
    ensures r.Ok? ==> pos <= r.pos <= |b|
  {
    match ReadInt(b, pos, 1)
    case Ok(n, p) => if n == 0 then Ok(VUnit, p) else Err(Invalid)
    case Err(e) => Err(e)
  }

  function DecodeAll(t: Ty, n: nat, b: seq<byte>, pos: nat): (r: Parsed<seq<Value>>)
    requires pos <= |b|
    ensures r.Ok? ==> pos <= r.pos <= |b| && |r.value| == n
    decreases t, 1, n
  {
    if n == 0 then Ok([], pos)
    else
      match Decode(t, b, pos)
      case Ok(v, p) =>
        (match DecodeAll(t, n - 1, b, p)
         case Ok(vs, q) => Ok([v] + vs, q)
         case Err(e) => Err(e))
      case Err(e) => Err(e)
  }

  function DecodeFields(ts: seq<Ty>, b: seq<byte>, pos: nat): (r: Parsed<seq<Value>>)
    requires pos <= |b|
    ensures r.Ok? ==> pos <= r.pos <= |b|
    decreases ts, 0, 0
  {
    if ts == [] then Ok([], pos)
    else
      match Decode(ts[0], b, pos)
      case Ok(v, p) =>
        (match DecodeFields(ts[1..], b, p)
         case Ok(vs, q) => Ok([v] + vs, q)
         case Err(e) => Err(e))
      case Err(e) => Err(e)
  }

  // ----- types without bytes -----

  lemma {:induction false} EmptyEncoding(t: Ty, v: Value)
    requires HasType(t, v)
    ensures Empty(t) ==> Encode(t, v) == []
    ensures Valid(t) && Encode(t, v) == [] ==> Empty(t)
    decreases t, 1, 0
  {
    match t
    case TArray(e, n) => EmptyAll(e, v.vs);
    case TTuple(ts) => EmptyFields(ts, v.vs);
    case TStruct(ts, _) => EmptyFields(ts, v.vs);
    case _ =>
  }

  lemma {:induction false} EmptyAll(t: Ty, vs: seq<Value>)
    requires AllHaveType(t, vs)
    ensures vs == [] || Empty(t) ==> EncodeAll(t, vs) == []
    ensures Valid(t) && EncodeAll(t, vs) == [] ==> vs == [] || Empty(t)
    decreases t, 1, |vs| + 1
  {
    if vs != [] {
      EmptyEncoding(t, vs[0]);
      EmptyAll(t, vs[1..]);
    }
  }

  lemma {:induction false} EmptyFields(ts: seq<Ty>, vs: seq<Value>)
    requires FieldsHaveType(ts, vs)
    ensures AllEmpty(ts) ==> EncodeFields(ts, vs) == []
    ensures AllValid(ts) && EncodeFields(ts, vs) == [] ==> AllEmpty(ts)
    decreases ts, 0, 0
  {
    if ts != [] {
      EmptyEncoding(ts[0], vs[0]);
      EmptyFields(ts[1..], vs[1..]);
    }
  }

  // ----- round trip -----

  /** Every enum that can be reached numbers its variants within its tag. */
  predicate TagsFit(t: Ty) {
    match t
    case TOption(e) => TagsFit(e)
    case TVec(e) => TagsFit(e)
    case TArray(e, n) => n == 0 || TagsFit(e)
    case TTuple(ts) => AllTagsFit(ts)
    case TStruct(ts, _) => AllTagsFit(ts)
    case TEnum(tag, variants) =>
      |variants| <= Pow256(tag) && forall i :: 0 <= i < |variants| ==> AllTagsFit(variants[i].fields)
    case _ => true
  }

  predicate AllTagsFit(ts: seq<Ty>) {
    ts == [] || (TagsFit(ts[0]) && AllTagsFit(ts[1..]))
  }

  lemma ReadIntBack(b: seq<byte>, pos: nat, w: nat, n: nat)
    requires Stands(b, pos, EncodeInt(w, n))
    ensures ReadInt(b, pos, w).Ok? && ReadInt(b, pos, w).pos == pos + w
    ensures n < Pow256(w) ==> ReadInt(b, pos, w).value == n
  {
    if n < Pow256(w) { DecodeEncodeInt(w, n); }
  }

  lemma ReadByteBack(b: seq<byte>, pos: nat, n: byte)
    requires Stands(b, pos, [n])
    ensures ReadInt(b, pos, 1) == Ok(n, pos + 1)
  {
    var s := b[pos..pos + 1];
    assert s == [n] && s[..0] == [];
    assert DecodeInt(s) == 256 * DecodeInt(s[..0]) + n;
  }

  lemma EncodeOne(e: Ty, v: Value)
    ensures EncodeAll(e, [v]) == Encode(e, v) && (AllHaveType(e, [v]) <==> HasType(e, v))
  {
    assert [v][1..] == [];
    assert Encode(e, v) + [] == Encode(e, v);
  }

  /** One element and then `n` others. */
  lemma AllDecode(t: Ty, n: nat, b: seq<byte>, pos: nat, v: Value, p: nat, vs: seq<Value>, q: nat)
    requires pos <= |b| && p <= |b|
    requires Decode(t, b, pos) == Ok(v, p) && DecodeAll(t, n, b, p) == Ok(vs, q)
    ensures DecodeAll(t, n + 1, b, pos) == Ok([v] + vs, q)
  {
  }

  /** One field and then the others. */
  lemma FieldsDecode(ts: seq<Ty>, b: seq<byte>, pos: nat, v: Value, p: nat, vs: seq<Value>, q: nat)
    requires ts != [] && pos <= |b| && p <= |b|
    requires Decode(ts[0], b, pos) == Ok(v, p) && DecodeFields(ts[1..], b, p) == Ok(vs, q)
    ensures DecodeFields(ts, b, pos) == Ok([v] + vs, q)
  {
  }

  lemma AllStand(t: Ty, vs: seq<Value>, b: seq<byte>, pos: nat)
    requires AllHaveType(t, vs) && vs != [] && Stands(b, pos, EncodeAll(t, vs))
    ensures Stands(b, pos, Encode(t, vs[0])) && Stands(b, pos + |Encode(t, vs[0])|, EncodeAll(t, vs[1..]))
  {
    StandsSplit(b, pos, Encode(t, vs[0]), EncodeAll(t, vs[1..]));
  }

  lemma FieldsStand(ts: seq<Ty>, vs: seq<Value>, b: seq<byte>, pos: nat)
    requires FieldsHaveType(ts, vs) && ts != [] && Stands(b, pos, EncodeFields(ts, vs))
    ensures Stands(b, pos, Encode(ts[0], vs[0]))
    ensures Stands(b, pos + |Encode(ts[0], vs[0])|, EncodeFields(ts[1..], vs[1..]))
  {
    StandsSplit(b, pos, Encode(ts[0], vs[0]), EncodeFields(ts[1..], vs[1..]));
  }

  lemma RoundTripScalar(t: Ty, v: Value, b: seq<byte>, pos: nat)
    requires HasType(t, v) && Stands(b, pos, Encode(t, v))
    requires t.TInt? || t.TFloat? || t.TBool? || t.TUnit? || t.TUnitStruct?
    ensures Decode(t, b, pos) == Ok(v, pos + |Encode(t, v)|)
  {
    match t
    case TInt(w, _) => ReadIntBack(b, pos, w, v.n);
    case TFloat(w) => ReadIntBack(b, pos, w, v.n);
    case TBool => ReadByteBack(b, pos, if v.b then 1 else 0);
    case TUnit => ReadByteBack(b, pos, 0);
    case TUnitStruct => ReadByteBack(b, pos, 0);
  }

  lemma RoundTripString(v: Value, b: seq<byte>, pos: nat)
    requires HasType(TString, v) && Stands(b, pos, Encode(TString, v))
    ensures Decode(TString, b, pos) == Ok(v, pos + |Encode(TString, v)|)
  {
    StandsSplit(b, pos, EncodeInt(8, |v.bytes|), v.bytes);
    U64Limit();
    ReadIntBack(b, pos, 8, |v.bytes|);
  }

  lemma VecStands(e: Ty, vs: seq<Value>, b: seq<byte>, pos: nat)
    requires AllHaveType(e, vs) && |vs| < U64_LIMIT && Stands(b, pos, EncodeInt(8, |vs|) + EncodeAll(e, vs))
    ensures ReadInt(b, pos, 8) == Ok(|vs|, pos + 8) && Stands(b, pos + 8, EncodeAll(e, vs))
  {
    StandsSplit(b, pos, EncodeInt(8, |vs|), EncodeAll(e, vs));
    U64Limit();
    ReadIntBack(b, pos, 8, |vs|);
  }

  lemma OptionStands(e: Ty, v: Value, b: seq<byte>, pos: nat)
    requires HasType(TOption(e), v) && Stands(b, pos, Encode(TOption(e), v))
    ensures ReadInt(b, pos, 1) == Ok(if v.VNone? then 0 else 1, pos + 1)
    ensures v.VSome? ==> Stands(b, pos + 1, Encode(e, v.v))
  {
    if v.VNone? {
      ReadByteBack(b, pos, 0);
    } else {
      StandsSplit(b, pos, [1], Encode(e, v.v));
      ReadByteBack(b, pos, 1);
    }
  }

  lemma EnumStands(t: Ty, v: Value, b: seq<byte>, pos: nat)
    requires t.TEnum? && HasType(t, v) && Stands(b, pos, Encode(t, v))
    ensures ReadInt(b, pos, t.tag).Ok? && ReadInt(b, pos, t.tag).pos == pos + t.tag
    ensures v.index < Pow256(t.tag) ==> ReadInt(b, pos, t.tag).value == v.index
    ensures Stands(b, pos + t.tag, EncodeFields(t.variants[v.index].fields, v.vs))
  {
    StandsSplit(b, pos, EncodeInt(t.tag, v.index), EncodeFields(t.variants[v.index].fields, v.vs));
    ReadIntBack(b, pos, t.tag, v.index);
  }

  lemma {:induction false} RoundTripVec(e: Ty, v: Value, b: seq<byte>, pos: nat)
    requires TagsFit(e) && HasType(TVec(e), v) && Stands(b, pos, Encode(TVec(e), v))
    ensures Decode(TVec(e), b, pos) == Ok(v, pos + |Encode(TVec(e), v)|)
    decreases e, 2, 0
  {
    VecStands(e, v.vs, b, pos);
    RoundTripAll(e, v.vs, b, pos + 8);
  }

  lemma {:induction false} RoundTripEnum(t: Ty, v: Value, b: seq<byte>, pos: nat)
    requires t.TEnum? && TagsFit(t) && HasType(t, v) && Stands(b, pos, Encode(t, v))
    ensures Decode(t, b, pos) == Ok(v, pos + |Encode(t, v)|)
    decreases t, 0, 0
  {
    EnumStands(t, v, b, pos);
    RoundTripFields(t.variants[v.index].fields, v.vs, b, pos + t.tag);
  }

  /** Decoding an encoding with anything behind it gives the value and stops exactly behind it. */
  lemma {:induction false} RoundTrip(t: Ty, v: Value, b: seq<byte>, pos: nat)
    requires TagsFit(t) && HasType(t, v) && Stands(b, pos, Encode(t, v))
    ensures Decode(t, b, pos) == Ok(v, pos + |Encode(t, v)|)
    decreases t, 1, 0
  {
    match t
    case TString => RoundTripString(v, b, pos);
    case TOption(e) =>
      OptionStands(e, v, b, pos);
      if v.VSome? { RoundTrip(e, v.v, b, pos + 1); }
    case TVec(e) => RoundTripVec(e, v, b, pos);
    case TArray(e, n) => if n > 0 { RoundTripAll(e, v.vs, b, pos); }
    case TTuple(ts) => RoundTripFields(ts, v.vs, b, pos);
    case TStruct(ts, _) => RoundTripFields(ts, v.vs, b, pos);
    case TEnum(_, _) => RoundTripEnum(t, v, b, pos);
    case _ => RoundTripScalar(t, v, b, pos);
  }

  lemma {:induction false} RoundTripAll(t: Ty, vs: seq<Value>, b: seq<byte>, pos: nat)
    requires TagsFit(t) && AllHaveType(t, vs) && Stands(b, pos, EncodeAll(t, vs))
    ensures DecodeAll(t, |vs|, b, pos) == Ok(vs, pos + |EncodeAll(t, vs)|)
    decreases t, 1, |vs| + 1
  {
    if vs != [] {
      AllStand(t, vs, b, pos);
      RoundTrip(t, vs[0], b, pos);
      RoundTripAll(t, vs[1..], b, Decode(t, b, pos).pos);
      assert [vs[0]] + vs[1..] == vs;
    }
  }

  lemma {:induction false} RoundTripFields(ts: seq<Ty>, vs: seq<Value>, b: seq<byte>, pos: nat)
    requires AllTagsFit(ts) && FieldsHaveType(ts, vs) && Stands(b, pos, EncodeFields(ts, vs))
    ensures DecodeFields(ts, b, pos) == Ok(vs, pos + |EncodeFields(ts, vs)|)
    decreases ts, 0, 0
  {
    if ts != [] {
      FieldsStand(ts, vs, b, pos);
      RoundTrip(ts[0], vs[0], b, pos);
      RoundTripFields(ts[1..], vs[1..], b, Decode(ts[0], b, pos).pos);
      assert [vs[0]] + vs[1..] == vs;
    }
  }

  /** Encodings of one type are prefix-free. */
  lemma PrefixFree(t: Ty, v: Value, w: Value)
    requires TagsFit(t) && HasType(t, v) && HasType(t, w)
    requires Encode(t, v) <= Encode(t, w)
    ensures v == w
  {
    var b := Encode(t, w);
    assert Stands(b, 0, Encode(t, v));
    assert b[0..|b|] == b;
    RoundTrip(t, v, b, 0);
    RoundTrip(t, w, b, 0);
  }

  // ----- exactly when -----

  /** Some value of `t` that its own encoding cannot bring back, whatever follows it. */
  ghost predicate Lost(t: Ty, v: Value) {
    HasType(t, v) && forall b, pos: nat :: Stands(b, pos, Encode(t, v)) ==> Lose(Decode(t, b, pos), v)
  }

  ghost predicate Lose(r: Parsed<Value>, v: Value) {
    !(r.Ok? && r.value == v)
  }

  lemma OptionLoses(e: Ty, w: Value)
    requires Lost(e, w)
    ensures Lost(TOption(e), VSome(w))
  {
    var t, v := TOption(e), VSome(w);
    forall b, pos: nat | Stands(b, pos, Encode(t, v)) ensures Lose(Decode(t, b, pos), v) {
      OptionStands(e, v, b, pos);
      assert Lose(Decode(e, b, pos + 1), w);
    }
  }

  lemma AllLose(e: Ty, w: Value, vs: seq<Value>, b: seq<byte>, pos: nat)
    requires Lost(e, w) && vs != [] && vs[0] == w && AllHaveType(e, vs) && Stands(b, pos, EncodeAll(e, vs))
    ensures FieldsLose(DecodeAll(e, |vs|, b, pos), vs)
  {
    AllStand(e, vs, b, pos);
    assert Lose(Decode(e, b, pos), w);
  }

  lemma VecLoses(e: Ty, w: Value)
    requires Lost(e, w)
    ensures Lost(TVec(e), VList([w]))
  {
    var t, v := TVec(e), VList([w]);
    assert [w][1..] == [];
    forall b, pos: nat | Stands(b, pos, Encode(t, v)) ensures Lose(Decode(t, b, pos), v) {
      VecStands(e, [w], b, pos);
      AllLose(e, w, [w], b, pos + 8);
    }
  }

  lemma ArrayLoses(e: Ty, n: nat, w: Value, vs: seq<Value>)
    requires Lost(e, w) && vs != [] && vs[0] == w && |vs| == n && AllHaveType(e, vs)
    ensures Lost(TArray(e, n), VList(vs))
  {
    var t, v := TArray(e, n), VList(vs);
    forall b, pos: nat | Stands(b, pos, Encode(t, v)) ensures Lose(Decode(t, b, pos), v) {
      AllLose(e, w, vs, b, pos);
    }
  }

  lemma EnumLoses(t: Ty, i: nat, vs: seq<Value>)
    requires t.TEnum? && i < |t.variants| && FieldsHaveType(t.variants[i].fields, vs)
    requires i >= Pow256(t.tag) || FieldsLost(t.variants[i].fields, vs)
    ensures Lost(t, VVariant(i, vs))
  {
    var v := VVariant(i, vs);
    forall b, pos: nat | Stands(b, pos, Encode(t, v)) ensures Lose(Decode(t, b, pos), v) {
      EnumStands(t, v, b, pos);
      if i < Pow256(t.tag) {
        assert FieldsLose(DecodeFields(t.variants[i].fields, b, pos + t.tag), vs);
      }
    }
  }

  lemma {:induction false} OverfullTagLoses(t: Ty) returns (v: Value)
    requires Valid(t) && !TagsFit(t)
    ensures Lost(t, v)
    decreases t, 0, 0
  {
    match t
    case TOption(e) =>
      var w := OverfullTagLoses(e);
      OptionLoses(e, w);
      v := VSome(w);
    case TVec(e) =>
      var w := OverfullTagLoses(e);
      VecLoses(e, w);
      v := VList([w]);
    case TArray(e, n) =>
      var w := OverfullTagLoses(e);
      var vs := [w] + Repeat(e, Default(e), n - 1);
      assert vs[1..] == Repeat(e, Default(e), n - 1);
      ArrayLoses(e, n, w, vs);
      v := VList(vs);
    case TTuple(ts) =>
      var vs := OverfullFieldLoses(ts);
      v := VList(vs);
      forall b, pos: nat | Stands(b, pos, Encode(t, v)) ensures Lose(Decode(t, b, pos), v) {
        assert FieldsLose(DecodeFields(ts, b, pos), vs);
      }
    case TStruct(ts, _) =>
      var vs := OverfullFieldLoses(ts);
      v := VList(vs);
      forall b, pos: nat | Stands(b, pos, Encode(t, v)) ensures Lose(Decode(t, b, pos), v) {
        assert FieldsLose(DecodeFields(ts, b, pos), vs);
      }
    case TEnum(tag, variants) =>
      var i: nat :| i < |variants| && (i >= Pow256(tag) || !AllTagsFit(variants[i].fields));
      var vs := Defaults(variants[i].fields);
      if i < Pow256(tag) {
        vs := OverfullFieldLoses(variants[i].fields);
      }
      EnumLoses(t, i, vs);
      v := VVariant(i, vs);
  }

  ghost predicate FieldsLost(ts: seq<Ty>, vs: seq<Value>) {
    && FieldsHaveType(ts, vs)
    && forall b, pos: nat :: Stands(b, pos, EncodeFields(ts, vs)) ==> FieldsLose(DecodeFields(ts, b, pos), vs)
  }

  ghost predicate FieldsLose(r: Parsed<seq<Value>>, vs: seq<Value>) {
    !(r.Ok? && r.value == vs)
  }

  lemma {:induction false} OverfullFieldLoses(ts: seq<Ty>) returns (vs: seq<Value>)
    requires AllValid(ts) && !AllTagsFit(ts)
    ensures FieldsLost(ts, vs)
    decreases ts, 0, 0
  {
    if !TagsFit(ts[0]) {
      var w := OverfullTagLoses(ts[0]);
      vs := [w] + Defaults(ts[1..]);
      assert vs[1..] == Defaults(ts[1..]);
      forall b, pos: nat | Stands(b, pos, EncodeFields(ts, vs)) ensures FieldsLose(DecodeFields(ts, b, pos), vs) {
        FieldsStand(ts, vs, b, pos);
        assert Lose(Decode(ts[0], b, pos), w);
      }
    } else {
      var rest := OverfullFieldLoses(ts[1..]);
      vs := [Default(ts[0])] + rest;
      assert vs[1..] == rest;
      forall b, pos: nat | Stands(b, pos, EncodeFields(ts, vs)) ensures FieldsLose(DecodeFields(ts, b, pos), vs) {
        FieldsStand(ts, vs, b, pos);
        RoundTrip(ts[0], vs[0], b, pos);
        assert FieldsLose(DecodeFields(ts[1..], b, Decode(ts[0], b, pos).pos), rest);
      }
    }
  }

  ghost predicate ComesBack(t: Ty, v: Value, b: seq<byte>, pos: nat) {
    HasType(t, v) && Stands(b, pos, Encode(t, v)) ==> Decode(t, b, pos) == Ok(v, pos + |Encode(t, v)|)
  }

  /**
   A type survives its own encoding exactly when its enums number their variants within their
   tags.  `get_tag` compares a u8 tag against u16::MAX, so it accepts enums that do not.
   */
  lemma RoundTripExactlyWhenTagsFit(t: Ty)
    requires Valid(t)
    ensures TagsFit(t) <==> forall v, b, pos: nat :: ComesBack(t, v, b, pos)
  {
    if TagsFit(t) {
      forall v, b, pos: nat ensures ComesBack(t, v, b, pos) {
        if HasType(t, v) && Stands(b, pos, Encode(t, v)) { RoundTrip(t, v, b, pos); }
      }
    } else {
      var v := OverfullTagLoses(t);
      var b := Encode(t, v);
      assert Stands(b, 0, b);
      assert Lose(Decode(t, b, 0), v);
      assert !ComesBack(t, v, b, 0);
    }
  }

  /** A u8 tag on 257 variants, which `get_tag` accepts: the last one is read back as the first. */
  lemma OverfullTagExample()
    ensures var t := TEnum(1, seq(257, _ => Variant(true, [])));
      Valid(t) && Decode(t, Encode(t, VVariant(256, [])), 0) == Ok(VVariant(0, []), 1)
  {
    var t := TEnum(1, seq(257, _ => Variant(true, [])));
    var b := Encode(t, VVariant(256, []));
    assert EncodeInt(0, 1) == [];
    assert EncodeInt(1, 256) == [0];
    assert t.variants[256].fields == [] && EncodeFields([], []) == [];
    assert b == EncodeInt(1, 256) + EncodeFields([], []) == [0];
    assert Stands(b, 0, [0]);
    ReadByteBack(b, 0, 0);
  }
}
