/** When the single reservation for a vector of `!MIXED` elements is large enough. */
module Reserve {
  import opened Bytes
  import opened WireTypes
  import opened Codec
  import opened Sums

  /** Every value takes exactly `<T as Wiring>::FIXED_SIZE` bytes. */
  predicate SizeHolds(t: Ty) {
    match t
    case TInt(_, _) => true
    case TFloat(_) => true
    case TBool => true
    case TUnitStruct => true
    case TArray(e, n) => n == 0 || SizeHolds(e)
    case TTuple(ts) => AllSizesHold(ts)
    case TStruct(ts, _) => AllSizesHold(ts)
    case TEnum(_, variants) => forall i :: 0 <= i < |variants| ==> AllEmpty(variants[i].fields)
    case _ => false
  }

  predicate AllSizesHold(ts: seq<Ty>) {
    ts == [] || (SizeHolds(ts[0]) && AllSizesHold(ts[1..]))
  }

  lemma {:induction false} SizeOfValue(t: Ty, v: Value)
    requires HasType(t, v)
    ensures |Encode(t, v)| >= WireSize(t)
    ensures SizeHolds(t) ==> |Encode(t, v)| == WireSize(t)
    decreases t, 1, 0
  {
    match t
    case TArray(e, n) => SizeOfValues(e, v.vs);
    case TTuple(ts) => SizeOfFieldValues(ts, v.vs);
    case TStruct(ts, _) => SizeOfFieldValues(ts, v.vs);
    case TEnum(_, variants) => if SizeHolds(t) { EmptyFields(variants[v.index].fields, v.vs); }
    case _ =>
  }

  lemma {:induction false} SizeOfValues(t: Ty, vs: seq<Value>)
    requires AllHaveType(t, vs)
    ensures |EncodeAll(t, vs)| >= WireSize(t) * |vs|
    ensures SizeHolds(t) ==> |EncodeAll(t, vs)| == WireSize(t) * |vs|
    decreases t, 1, |vs| + 1
  {
    if vs != [] {
      SizeOfValue(t, vs[0]);
      SizeOfValues(t, vs[1..]);
      Times(WireSize(t), |vs|);
    }
  }

  lemma {:induction false} SizeOfFieldValues(ts: seq<Ty>, vs: seq<Value>)
    requires FieldsHaveType(ts, vs)
    ensures |EncodeFields(ts, vs)| >= WireSizes(ts)
    ensures AllSizesHold(ts) ==> |EncodeFields(ts, vs)| == WireSizes(ts)
    decreases ts, 0, 0
  {
    if ts != [] {
      SizeOfValue(ts[0], vs[0]);
      SizeOfFieldValues(ts[1..], vs[1..]);
    }
  }

  // ----- values that do not fit -----

  lemma {:induction false} Oversized(t: Ty) returns (v: Value)
    requires Valid(t) && !SizeHolds(t)
    ensures HasType(t, v) && |Encode(t, v)| > WireSize(t)
    decreases t, 0, 0
  {
    match t
    case TArray(e, n) =>
      var w := Oversized(e);
      var rest := Repeat(e, Default(e), n - 1);
      v := VList([w] + rest);
      assert ([w] + rest)[1..] == rest;
      SizeOfValues(e, rest);
      Times(WireSize(e), n);
    case TTuple(ts) =>
      var vs := OversizedFields(ts);
      v := VList(vs);
    case TStruct(ts, _) =>
      var vs := OversizedFields(ts);
      v := VList(vs);
    case TEnum(_, variants) =>
      var i: nat :| i < |variants| && !AllEmpty(variants[i].fields);
      v := VVariant(i, Defaults(variants[i].fields));
      EmptyFields(variants[i].fields, Defaults(variants[i].fields));
    case TUnit => v := VUnit;
    case TString => v := VString([]);
    case TOption(_) => v := VNone;
    case TVec(_) => v := VList([]);
  }

  lemma {:induction false} OversizedFields(ts: seq<Ty>) returns (vs: seq<Value>)
    requires AllValid(ts) && !AllSizesHold(ts)
    ensures FieldsHaveType(ts, vs) && |EncodeFields(ts, vs)| > WireSizes(ts)
    decreases ts, 0, 0
  {
    var first, rest := Default(ts[0]), Defaults(ts[1..]);
    if !SizeHolds(ts[0]) {
      first := Oversized(ts[0]);
      SizeOfFieldValues(ts[1..], rest);
    } else {
      rest := OversizedFields(ts[1..]);
      SizeOfValue(ts[0], first);
    }
    vs := [first] + rest;
    assert vs[1..] == rest;
  }

  /** `len * FIXED_SIZE` bytes are enough for `vs`. */
  predicate Enough(t: Ty, vs: seq<Value>) {
    AllHaveType(t, vs) ==> |EncodeAll(t, vs)| <= WireSize(t) * |vs|
  }

  /**
   The reservation covers every slice exactly for the types whose values take `FIXED_SIZE` bytes.
   A pair whose second field is mixed, say, is not one of them although it is not MIXED itself.
   */
  lemma EnoughExactlyWhenSizeHolds(t: Ty)
    requires Valid(t)
    ensures SizeHolds(t) <==> forall vs :: Enough(t, vs)
  {
    if SizeHolds(t) {
      forall vs ensures Enough(t, vs) {
        if AllHaveType(t, vs) { SizeOfValues(t, vs); }
      }
    } else {
      var v := Oversized(t);
      EncodeOne(t, v);
      assert WireSize(t) * |[v]| == WireSize(t);
      assert !Enough(t, [v]);
    }
  }

  /** A pair of a byte and a unit counts as not MIXED, but takes one byte more than is reserved for it. */
  lemma PairOverflows()
    ensures var t := TTuple([TInt(1, false), TUnit]);
      && !WireMixed(t) && WireSize(t) == 1
      && !Enough(t, [VList([VInt(0), VUnit])])
  {
    var ts, vs := [TInt(1, false), TUnit], [VInt(0), VUnit];
    assert ts[1..] == [TUnit] && ts[1..][1..] == [] && vs[1..] == [VUnit] && vs[1..][1..] == [];
    assert WireSizes(ts) == 1 + WireSizes(ts[1..]) && WireSizes(ts[1..]) == 0 + WireSizes([]);
    assert EncodeFields(ts, vs) == EncodeInt(1, 0) + EncodeFields(ts[1..], vs[1..]);
    EncodeOne(TTuple(ts), VList(vs));
  }
}
