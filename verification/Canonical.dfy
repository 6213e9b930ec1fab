/** Canonical decoding: which types have only one encoding per value. */
module Canonical {
  import opened Bytes
  import opened WireTypes
  import opened Codec

  /** No bool can be reached: any nonzero byte decodes to true. */
  predicate BoolFree(t: Ty) {
    match t
    case TBool => false
    case TOption(e) => BoolFree(e)
    case TVec(e) => BoolFree(e)
    case TArray(e, n) => n == 0 || BoolFree(e)
    case TTuple(ts) => AllBoolFree(ts)
    case TStruct(ts, _) => AllBoolFree(ts)
    case TEnum(_, variants) => forall i :: 0 <= i < |variants| ==> AllBoolFree(variants[i].fields)
    case _ => true
  }

  predicate AllBoolFree(ts: seq<Ty>) {
    ts == [] || (BoolFree(ts[0]) && AllBoolFree(ts[1..]))
  }

  lemma ReadIntStands(b: seq<byte>, pos: nat, w: nat)
    requires pos <= |b| && ReadInt(b, pos, w).Ok?
    ensures Stands(b, pos, EncodeInt(w, ReadInt(b, pos, w).value))
  {
    EncodeDecodeInt(b[pos..pos + w]);
  }

  lemma ReadByteStands(b: seq<byte>, pos: nat)
    requires pos <= |b| && ReadInt(b, pos, 1).Ok?
    ensures ReadInt(b, pos, 1).value < 256 && Stands(b, pos, [ReadInt(b, pos, 1).value])
  {
    var s := b[pos..pos + 1];
    assert DecodeInt(s) == 256 * DecodeInt(s[..0]) + s[0];
  }

  lemma CanonicalScalar(t: Ty, b: seq<byte>, pos: nat)
    requires t.TInt? || t.TFloat? || t.TUnit? || t.TUnitStruct?
    requires pos <= |b| && Decode(t, b, pos).Ok?
    ensures HasType(t, Decode(t, b, pos).value) && Stands(b, pos, Encode(t, Decode(t, b, pos).value))
    ensures Decode(t, b, pos).pos == pos + |Encode(t, Decode(t, b, pos).value)|
  {
    match t
    case TInt(w, _) => ReadIntStands(b, pos, w);
    case TFloat(w) => ReadIntStands(b, pos, w);
    case TUnit => ReadByteStands(b, pos);
    case TUnitStruct => ReadByteStands(b, pos);
  }

  lemma CanonicalString(b: seq<byte>, pos: nat)
    requires pos <= |b| && Decode(TString, b, pos).Ok?
    ensures HasType(TString, Decode(TString, b, pos).value)
    ensures Stands(b, pos, Encode(TString, Decode(TString, b, pos).value))
    ensures Decode(TString, b, pos).pos == pos + |Encode(TString, Decode(TString, b, pos).value)|
  {
    ReadIntStands(b, pos, 8);
    U64Limit();
    var v := Decode(TString, b, pos).value;
    StandsSplit(b, pos, EncodeInt(8, |v.bytes|), v.bytes);
  }

  lemma {:induction false} CanonicalVec(e: Ty, b: seq<byte>, pos: nat)
    requires BoolFree(e) && pos <= |b| && Decode(TVec(e), b, pos).Ok?
    ensures HasType(TVec(e), Decode(TVec(e), b, pos).value)
    ensures Stands(b, pos, Encode(TVec(e), Decode(TVec(e), b, pos).value))
    ensures Decode(TVec(e), b, pos).pos == pos + |Encode(TVec(e), Decode(TVec(e), b, pos).value)|
    decreases e, 2, 0
  {
    ReadIntStands(b, pos, 8);
    U64Limit();
    var n := ReadInt(b, pos, 8).value;
    DecodeIsCanonicalAll(e, n, b, pos + 8);
    StandsSplit(b, pos, EncodeInt(8, n), EncodeAll(e, DecodeAll(e, n, b, pos + 8).value));
  }

  lemma {:induction false} CanonicalOption(e: Ty, b: seq<byte>, pos: nat)
    requires BoolFree(e) && pos <= |b| && Decode(TOption(e), b, pos).Ok?
    ensures HasType(TOption(e), Decode(TOption(e), b, pos).value)
    ensures Stands(b, pos, Encode(TOption(e), Decode(TOption(e), b, pos).value))
    ensures Decode(TOption(e), b, pos).pos == pos + |Encode(TOption(e), Decode(TOption(e), b, pos).value)|
    decreases e, 2, 0
  {
    ReadByteStands(b, pos);
    OptionRead(e, b, pos);
    if b[pos] == 1 {
      var v := Decode(e, b, pos + 1).value;
      DecodeIsCanonical(e, b, pos + 1);
      StandsSplit(b, pos, [1], Encode(e, v));
      assert Encode(TOption(e), VSome(v)) == [1] + Encode(e, v);
    }
  }

  lemma OptionRead(e: Ty, b: seq<byte>, pos: nat)
    requires pos <= |b| && Decode(TOption(e), b, pos).Ok?
    ensures pos < |b|
    ensures if b[pos] == 1 then
              Decode(e, b, pos + 1).Ok? && Decode(TOption(e), b, pos) == Decode(e, b, pos + 1).(value := VSome(Decode(e, b, pos + 1).value))
            else b[pos] == 0 && Decode(TOption(e), b, pos) == Ok(VNone, pos + 1)
  {
    ReadByteStands(b, pos);
  }

  lemma {:induction false} CanonicalEnum(t: Ty, b: seq<byte>, pos: nat)
    requires t.TEnum? && BoolFree(t) && pos <= |b| && Decode(t, b, pos).Ok?
    ensures HasType(t, Decode(t, b, pos).value) && Stands(b, pos, Encode(t, Decode(t, b, pos).value))
    ensures Decode(t, b, pos).pos == pos + |Encode(t, Decode(t, b, pos).value)|
    decreases t, 0, 0
  {
    ReadIntStands(b, pos, t.tag);
    var i := ReadInt(b, pos, t.tag).value;
    DecodeIsCanonicalFields(t.variants[i].fields, b, pos + t.tag);
    StandsSplit(b, pos, EncodeInt(t.tag, i),
                EncodeFields(t.variants[i].fields, DecodeFields(t.variants[i].fields, b, pos + t.tag).value));
  }

  /** The bytes a successful decoding consumes are the encoding of what it returns. */
  lemma {:induction false} DecodeIsCanonical(t: Ty, b: seq<byte>, pos: nat)
    requires BoolFree(t) && pos <= |b| && Decode(t, b, pos).Ok?
    ensures HasType(t, Decode(t, b, pos).value) && Stands(b, pos, Encode(t, Decode(t, b, pos).value))
    ensures Decode(t, b, pos).pos == pos + |Encode(t, Decode(t, b, pos).value)|
    decreases t, 1, 0
  {
    match t
    case TString => CanonicalString(b, pos);
    case TOption(e) => CanonicalOption(e, b, pos);
    case TVec(e) => CanonicalVec(e, b, pos);
    case TArray(e, n) => if n > 0 { DecodeIsCanonicalAll(e, n, b, pos); }
    case TTuple(ts) => DecodeIsCanonicalFields(ts, b, pos);
    case TStruct(ts, _) => DecodeIsCanonicalFields(ts, b, pos);
    case TEnum(_, _) => CanonicalEnum(t, b, pos);
    case _ => CanonicalScalar(t, b, pos);
  }

  lemma {:induction false} DecodeIsCanonicalAll(t: Ty, n: nat, b: seq<byte>, pos: nat)
    requires BoolFree(t) && pos <= |b| && DecodeAll(t, n, b, pos).Ok?
    ensures AllHaveType(t, DecodeAll(t, n, b, pos).value)
    ensures Stands(b, pos, EncodeAll(t, DecodeAll(t, n, b, pos).value))
    ensures DecodeAll(t, n, b, pos).pos == pos + |EncodeAll(t, DecodeAll(t, n, b, pos).value)|
    decreases t, 1, n + 1
  {
    if n > 0 {
      DecodeIsCanonical(t, b, pos);
      var r := Decode(t, b, pos);
      var rest := DecodeAll(t, n - 1, b, r.pos);
      DecodeIsCanonicalAll(t, n - 1, b, r.pos);
      AllDecode(t, n - 1, b, pos, r.value, r.pos, rest.value, rest.pos);
      AllCons(t, r.value, rest.value, b, pos);
    }
  }

  lemma AllCons(t: Ty, v: Value, vs: seq<Value>, b: seq<byte>, pos: nat)
    requires Stands(b, pos, Encode(t, v)) && Stands(b, pos + |Encode(t, v)|, EncodeAll(t, vs))
    ensures Stands(b, pos, EncodeAll(t, [v] + vs)) && |EncodeAll(t, [v] + vs)| == |Encode(t, v)| + |EncodeAll(t, vs)|
    ensures HasType(t, v) && AllHaveType(t, vs) ==> AllHaveType(t, [v] + vs)
  {
    StandsSplit(b, pos, Encode(t, v), EncodeAll(t, vs));
    assert ([v] + vs)[1..] == vs;
  }

  lemma {:induction false} DecodeIsCanonicalFields(ts: seq<Ty>, b: seq<byte>, pos: nat)
    requires AllBoolFree(ts) && pos <= |b| && DecodeFields(ts, b, pos).Ok?
    ensures FieldsHaveType(ts, DecodeFields(ts, b, pos).value)
    ensures Stands(b, pos, EncodeFields(ts, DecodeFields(ts, b, pos).value))
    ensures DecodeFields(ts, b, pos).pos == pos + |EncodeFields(ts, DecodeFields(ts, b, pos).value)|
    decreases ts, 0, 0
  {
    if ts != [] {
      DecodeIsCanonical(ts[0], b, pos);
      var r := Decode(ts[0], b, pos);
      var rest := DecodeFields(ts[1..], b, r.pos);
      DecodeIsCanonicalFields(ts[1..], b, r.pos);
      FieldsDecode(ts, b, pos, r.value, r.pos, rest.value, rest.pos);
      FieldsCons(ts, r.value, rest.value, b, pos);
    }
  }

  lemma FieldsCons(ts: seq<Ty>, v: Value, vs: seq<Value>, b: seq<byte>, pos: nat)
    requires ts != [] && Stands(b, pos, Encode(ts[0], v)) && Stands(b, pos + |Encode(ts[0], v)|, EncodeFields(ts[1..], vs))
    ensures Stands(b, pos, EncodeFields(ts, [v] + vs))
    ensures |EncodeFields(ts, [v] + vs)| == |Encode(ts[0], v)| + |EncodeFields(ts[1..], vs)|
    ensures HasType(ts[0], v) && FieldsHaveType(ts[1..], vs) ==> FieldsHaveType(ts, [v] + vs)
  {
    StandsSplit(b, pos, Encode(ts[0], v), EncodeFields(ts[1..], vs));
    assert ([v] + vs)[1..] == vs;
  }

  // ----- exactly when -----

  /** `s` decodes to `v` wherever it stands. */
  ghost predicate Yields(t: Ty, s: seq<byte>, v: Value) {
    forall b, pos: nat :: Stands(b, pos, s) ==> Decode(t, b, pos) == Ok(v, pos + |s|)
  }

  /** ... although it is not the encoding of `v`. */
  ghost predicate Alias(t: Ty, s: seq<byte>, v: Value) {
    s != Encode(t, v) && HasType(t, v) && Yields(t, s, v)
  }

  ghost predicate FieldsYield(ts: seq<Ty>, s: seq<byte>, vs: seq<Value>) {
    forall b, pos: nat :: Stands(b, pos, s) ==> DecodeFields(ts, b, pos) == Ok(vs, pos + |s|)
  }

  ghost predicate FieldsAlias(ts: seq<Ty>, s: seq<byte>, vs: seq<Value>) {
    s != EncodeFields(ts, vs) && FieldsHaveType(ts, vs) && FieldsYield(ts, s, vs)
  }

  lemma PrependDiffers(p: seq<byte>, s: seq<byte>, s': seq<byte>)
    ensures p + s == p + s' ==> s == s'
    ensures s + p == s' + p ==> s == s'
  {
    if p + s == p + s' {
      assert s == (p + s)[|p|..] && s' == (p + s')[|p|..];
    }
    if s + p == s' + p {
      assert |s| == |s'| && s == (s + p)[..|s|] && s' == (s' + p)[..|s'|];
    }
  }

  lemma OptionAlias(e: Ty, s: seq<byte>, v: Value)
    requires Alias(e, s, v)
    ensures Alias(TOption(e), [1] + s, VSome(v))
  {
    PrependDiffers([1], s, Encode(e, v));
    forall b, pos: nat | Stands(b, pos, [1] + s) ensures Decode(TOption(e), b, pos) == Ok(VSome(v), pos + |[1] + s|) {
      StandsSplit(b, pos, [1], s);
      ReadByteBack(b, pos, 1);
    }
  }

  /** An alias in front of the encodings of further elements. */
  lemma YieldsHere(e: Ty, s: seq<byte>, v: Value, b: seq<byte>, pos: nat)
    requires Yields(e, s, v) && Stands(b, pos, s)
    ensures Decode(e, b, pos) == Ok(v, pos + |s|)
  {
  }

  lemma AliasInFront(e: Ty, s: seq<byte>, v: Value, vs: seq<Value>, b: seq<byte>, pos: nat)
    requires TagsFit(e) && Yields(e, s, v) && AllHaveType(e, vs)
    requires Stands(b, pos, s + EncodeAll(e, vs))
    ensures DecodeAll(e, |vs| + 1, b, pos) == Ok([v] + vs, pos + |s| + |EncodeAll(e, vs)|)
  {
    StandsSplit(b, pos, s, EncodeAll(e, vs));
    var p := pos + |s|;
    YieldsHere(e, s, v, b, pos);
    RoundTripAll(e, vs, b, p);
    AllDecode(e, |vs|, b, pos, v, p, vs, p + |EncodeAll(e, vs)|);
  }

  lemma ArrayYields(e: Ty, n: nat, s: seq<byte>, v: Value, vs: seq<Value>)
    requires TagsFit(e) && Yields(e, s, v) && AllHaveType(e, vs) && n == |vs| + 1
    ensures Yields(TArray(e, n), s + EncodeAll(e, vs), VList([v] + vs))
  {
    var z := s + EncodeAll(e, vs);
    forall b, pos: nat | Stands(b, pos, z) ensures Decode(TArray(e, n), b, pos) == Ok(VList([v] + vs), pos + |z|) {
      AliasInFront(e, s, v, vs, b, pos);
    }
  }

  lemma ArrayAlias(e: Ty, n: nat, s: seq<byte>, v: Value, vs: seq<Value>)
    requires TagsFit(e) && Alias(e, s, v) && AllHaveType(e, vs) && n == |vs| + 1
    ensures Alias(TArray(e, n), s + EncodeAll(e, vs), VList([v] + vs))
  {
    assert ([v] + vs)[1..] == vs;
    PrependDiffers(EncodeAll(e, vs), s, Encode(e, v));
    ArrayYields(e, n, s, v, vs);
  }

  lemma OneYields(e: Ty, s: seq<byte>, v: Value, n: nat, b: seq<byte>, pos: nat)
    requires Yields(e, s, v) && Stands(b, pos, s) && n == 1
    ensures DecodeAll(e, n, b, pos) == Ok([v], pos + |s|)
  {
    YieldsHere(e, s, v, b, pos);
    var p := pos + |s|;
    assert DecodeAll(e, n - 1, b, p) == Ok([], p) && [v] + [] == [v];
  }

  lemma VecOfOne(e: Ty, s: seq<byte>, v: Value, b: seq<byte>, pos: nat)
    requires Stands(b, pos, EncodeInt(8, 1) + s) && (Stands(b, pos + 8, s) ==> DecodeAll(e, 1, b, pos + 8) == Ok([v], pos + 8 + |s|))
    ensures Decode(TVec(e), b, pos) == Ok(VList([v]), pos + 8 + |s|)
  {
    U64Limit();
    StandsSplit(b, pos, EncodeInt(8, 1), s);
    ReadIntBack(b, pos, 8, 1);
  }

  lemma VecYields(e: Ty, s: seq<byte>, v: Value)
    requires Yields(e, s, v)
    ensures Yields(TVec(e), EncodeInt(8, 1) + s, VList([v]))
  {
    var z := EncodeInt(8, 1) + s;
    forall b, pos: nat | Stands(b, pos, z) ensures Decode(TVec(e), b, pos) == Ok(VList([v]), pos + |z|) {
      if Stands(b, pos + 8, s) { OneYields(e, s, v, 1, b, pos + 8); }
      VecOfOne(e, s, v, b, pos);
    }
  }

  lemma VecAlias(e: Ty, s: seq<byte>, v: Value)
    requires Alias(e, s, v)
    ensures Alias(TVec(e), EncodeInt(8, 1) + s, VList([v]))
  {
    EncodeOne(e, v);
    PrependDiffers(EncodeInt(8, 1), s, Encode(e, v));
    VecYields(e, s, v);
  }

  lemma EnumAlias(t: Ty, i: nat, s: seq<byte>, vs: seq<Value>)
    requires t.TEnum? && i < |t.variants| <= Pow256(t.tag) && FieldsAlias(t.variants[i].fields, s, vs)
    ensures Alias(t, EncodeInt(t.tag, i) + s, VVariant(i, vs))
  {
    PrependDiffers(EncodeInt(t.tag, i), s, EncodeFields(t.variants[i].fields, vs));
    forall b, pos: nat | Stands(b, pos, EncodeInt(t.tag, i) + s)
      ensures Decode(t, b, pos) == Ok(VVariant(i, vs), pos + |EncodeInt(t.tag, i) + s|)
    {
      StandsSplit(b, pos, EncodeInt(t.tag, i), s);
      ReadIntBack(b, pos, t.tag, i);
    }
  }

  lemma {:induction false} BoolsAlias(t: Ty) returns (s: seq<byte>, v: Value)
    requires Valid(t) && TagsFit(t) && !BoolFree(t)
    ensures Alias(t, s, v)
    decreases t, 0, 0
  {
    match t
    case TBool =>
      s, v := [2], VBool(true);
      forall b, pos: nat | Stands(b, pos, s) ensures Decode(t, b, pos) == Ok(v, pos + |s|) {
        ReadByteBack(b, pos, 2);
      }
    case TOption(e) =>
      s, v := BoolsAlias(e);
      OptionAlias(e, s, v);
      s, v := [1] + s, VSome(v);
    case TVec(e) =>
      s, v := BoolsAlias(e);
      VecAlias(e, s, v);
      s, v := EncodeInt(8, 1) + s, VList([v]);
    case TArray(e, n) =>
      s, v := BoolsAlias(e);
      var vs := Repeat(e, Default(e), n - 1);
      ArrayAlias(e, n, s, v, vs);
      s, v := s + EncodeAll(e, vs), VList([v] + vs);
    case TTuple(ts) =>
      var vs;
      s, vs := FieldBoolsAlias(ts);
      v := VList(vs);
    case TStruct(ts, _) =>
      var vs;
      s, vs := FieldBoolsAlias(ts);
      v := VList(vs);
    case TEnum(tag, variants) =>
      var i: nat :| i < |variants| && !AllBoolFree(variants[i].fields);
      var vs;
      s, vs := FieldBoolsAlias(variants[i].fields);
      EnumAlias(t, i, s, vs);
      s, v := EncodeInt(tag, i) + s, VVariant(i, vs);
  }

  lemma {:induction false} FieldBoolsAlias(ts: seq<Ty>) returns (s: seq<byte>, vs: seq<Value>)
    requires AllValid(ts) && AllTagsFit(ts) && !AllBoolFree(ts)
    ensures FieldsAlias(ts, s, vs)
    decreases ts, 0, 0
  {
    if !BoolFree(ts[0]) {
      var v;
      s, v := BoolsAlias(ts[0]);
      var rest := Defaults(ts[1..]);
      FirstFieldAlias(ts, s, v, rest);
      s, vs := s + EncodeFields(ts[1..], rest), [v] + rest;
    } else {
      var rest;
      s, rest := FieldBoolsAlias(ts[1..]);
      LaterFieldAlias(ts, s, Default(ts[0]), rest);
      s, vs := Encode(ts[0], Default(ts[0])) + s, [Default(ts[0])] + rest;
    }
  }

  lemma FieldAliasInFront(ts: seq<Ty>, s: seq<byte>, v: Value, rest: seq<Value>, b: seq<byte>, pos: nat)
    requires ts != [] && AllTagsFit(ts) && Yields(ts[0], s, v) && FieldsHaveType(ts[1..], rest)
    requires Stands(b, pos, s + EncodeFields(ts[1..], rest))
    ensures DecodeFields(ts, b, pos) == Ok([v] + rest, pos + |s| + |EncodeFields(ts[1..], rest)|)
  {
    StandsSplit(b, pos, s, EncodeFields(ts[1..], rest));
    YieldsHere(ts[0], s, v, b, pos);
    RoundTripFields(ts[1..], rest, b, pos + |s|);
    FieldsDecode(ts, b, pos, v, pos + |s|, rest, pos + |s| + |EncodeFields(ts[1..], rest)|);
  }

  lemma FirstFieldAlias(ts: seq<Ty>, s: seq<byte>, v: Value, rest: seq<Value>)
    requires ts != [] && AllTagsFit(ts) && Alias(ts[0], s, v) && FieldsHaveType(ts[1..], rest)
    ensures FieldsAlias(ts, s + EncodeFields(ts[1..], rest), [v] + rest)
  {
    var vs, s' := [v] + rest, s + EncodeFields(ts[1..], rest);
    assert vs[1..] == rest;
    PrependDiffers(EncodeFields(ts[1..], rest), s, Encode(ts[0], v));
    forall b, pos: nat | Stands(b, pos, s') ensures DecodeFields(ts, b, pos) == Ok(vs, pos + |s'|) {
      FieldAliasInFront(ts, s, v, rest, b, pos);
    }
  }

  lemma AliasBehind(ts: seq<Ty>, s: seq<byte>, v: Value, rest: seq<Value>, b: seq<byte>, pos: nat)
    requires ts != [] && AllTagsFit(ts) && HasType(ts[0], v) && FieldsYield(ts[1..], s, rest)
    requires Stands(b, pos, Encode(ts[0], v) + s)
    ensures DecodeFields(ts, b, pos) == Ok([v] + rest, pos + |Encode(ts[0], v)| + |s|)
  {
    StandsSplit(b, pos, Encode(ts[0], v), s);
    RoundTrip(ts[0], v, b, pos);
    var p := pos + |Encode(ts[0], v)|;
    assert DecodeFields(ts[1..], b, p) == Ok(rest, p + |s|);
    FieldsDecode(ts, b, pos, v, p, rest, p + |s|);
  }

  lemma LaterFieldAlias(ts: seq<Ty>, s: seq<byte>, v: Value, rest: seq<Value>)
    requires ts != [] && AllTagsFit(ts) && HasType(ts[0], v) && FieldsAlias(ts[1..], s, rest)
    ensures FieldsAlias(ts, Encode(ts[0], v) + s, [v] + rest)
  {
    var vs, s' := [v] + rest, Encode(ts[0], v) + s;
    assert vs[1..] == rest;
    PrependDiffers(Encode(ts[0], v), s, EncodeFields(ts[1..], rest));
    forall b, pos: nat | Stands(b, pos, s') ensures DecodeFields(ts, b, pos) == Ok(vs, pos + |s'|) {
      AliasBehind(ts, s, v, rest, b, pos);
    }
  }

  ghost predicate ConsumesItsEncoding(t: Ty, b: seq<byte>) {
    var r := Decode(t, b, 0);
    r.Ok? ==> b[..r.pos] == Encode(t, r.value)
  }

  /** Among the types that round-trip, decoding is canonical exactly for those without a bool. */
  lemma CanonicalExactlyWhenBoolFree(t: Ty)
    requires Valid(t) && TagsFit(t)
    ensures BoolFree(t) <==> forall b :: ConsumesItsEncoding(t, b)
  {
    if BoolFree(t) {
      forall b ensures ConsumesItsEncoding(t, b) {
        if Decode(t, b, 0).Ok? {
          DecodeIsCanonical(t, b, 0);
          assert b[..Decode(t, b, 0).pos] == b[0..Decode(t, b, 0).pos];
        }
      }
    } else {
      var s, v := BoolsAlias(t);
      assert Stands(s, 0, s);
      assert s[..|s|] == s;
      assert !ConsumesItsEncoding(t, s);
    }
  }

  /** The byte 2 is read as true, which is written as 1. */
  lemma TrueHasManyEncodings()
    ensures Decode(TBool, [2], 0) == Ok(VBool(true), 1) && Encode(TBool, VBool(true)) == [1]
  {
    assert Stands([2], 0, [2]);
    ReadByteBack([2], 0, 2);
  }

  /** Any byte but 0 is true. */
  lemma NonZeroIsTrue(x: byte, b: seq<byte>, pos: nat)
    requires Stands(b, pos, [x])
    ensures Decode(TBool, b, pos) == Ok(VBool(x != 0), pos + 1)
  {
    ReadByteBack(b, pos, x);
  }
}
