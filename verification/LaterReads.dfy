/**
 Reads behind the front of the buffer.  The guard measures the front again, so it bounds what is
 read at another position only if all values of the type are equally long.
 */
module LaterReads {
  import opened Bytes
  import opened Sums
  import opened WireTypes
  import opened Codec
  import opened Truncation
  import opened Capacity
  import opened PreScan
  import opened ScanLimits
  import opened Reader
  import opened FastReader

  /** All values are encoded with the same number of bytes. */
  predicate Steady(t: Ty)
    decreases t, 0
  {
    match t
    case TString => false
    case TOption(e) => Empty(e)
    case TVec(e) => Empty(e)
    case TArray(e, n) => n == 0 || Steady(e)
    case TTuple(ts) => AllSteady(ts)
    case TStruct(ts, _) => AllSteady(ts)
    case TEnum(_, variants) => forall i :: 0 <= i < |variants| ==> SteadyLike(variants[i].fields, variants[0].fields)
    case _ => true
  }

  predicate AllSteady(ts: seq<Ty>)
    decreases ts, 0
  {
    ts == [] || (Steady(ts[0]) && AllSteady(ts[1..]))
  }

  predicate SteadyLike(ts: seq<Ty>, us: seq<Ty>)
    decreases ts, 1
  {
    AllSteady(ts) && SteadySizes(ts) == SteadySizes(us)
  }

  /** That number. */
  function SteadySize(t: Ty): nat {
    match t
    case TInt(w, _) => w
    case TFloat(w) => w
    case TVec(_) => 8
    case TString => 8
    case TArray(e, n) => Sum(SteadySize(e), n)
    case TTuple(ts) => SteadySizes(ts)
    case TStruct(ts, _) => SteadySizes(ts)
    case TEnum(tag, variants) => tag + if variants == [] then 0 else SteadySizes(variants[0].fields)
    case _ => 1
  }

  function SteadySizes(ts: seq<Ty>): nat {
    if ts == [] then 0 else SteadySize(ts[0]) + SteadySizes(ts[1..])
  }

  lemma {:induction false} EmptyIsSteady(t: Ty)
    requires Empty(t)
    ensures Steady(t) && SteadySize(t) == 0 && UnwireSize(t) == 0
  {
    match t
    case TArray(e, n) =>
      if n > 0 { EmptyIsSteady(e); }
      SumOfZeros(n);
    case TTuple(ts) => AllEmptyAreSteady(ts);
    case TStruct(ts, _) => AllEmptyAreSteady(ts);
  }

  lemma {:induction false} AllEmptyAreSteady(ts: seq<Ty>)
    requires AllEmpty(ts)
    ensures AllSteady(ts) && SteadySizes(ts) == 0 && UnwireSizes(ts) == 0
  {
    if ts != [] {
      EmptyIsSteady(ts[0]);
      AllEmptyAreSteady(ts[1..]);
    }
  }

  // ----- steady types take the same number of bytes on every buffer -----

  /** The decoder ends after `n` bytes, if it succeeds, and does not ask for more. */
  ghost predicate Takes<T>(d: Parsed<T>, b: seq<byte>, pos: nat, n: nat) {
    && (d.Ok? ==> d.pos == pos + n)
    && (pos + n <= |b| ==> d != Err(Eof))
  }

  lemma {:induction false} SteadyTakes(t: Ty, b: seq<byte>, pos: nat)
    requires Steady(t) && pos <= |b|
    ensures Takes(Decode(t, b, pos), b, pos, SteadySize(t))
    decreases t, 1, 0
  {
    match t
    case TOption(e) =>
      EmptyIsSteady(e);
      if ReadInt(b, pos, 1).Ok? { SteadyTakes(e, b, pos + 1); }
    case TVec(e) => VecTakes(e, b, pos);
    case TArray(e, n) => if n > 0 { AllTake(e, n, b, pos); }
    case TTuple(ts) => FieldsTake(ts, b, pos);
    case TStruct(ts, _) => FieldsTake(ts, b, pos);
    case TEnum(_, _) => EnumTakes(t, b, pos);
    case _ =>
  }

  lemma {:induction false} VecTakes(e: Ty, b: seq<byte>, pos: nat)
    requires Empty(e) && pos <= |b|
    ensures Takes(Decode(TVec(e), b, pos), b, pos, 8)
    decreases e, 2, 0
  {
    EmptyIsSteady(e);
    var r := ReadInt(b, pos, 8);
    if r.Ok? {
      SumOfZeros(r.value);
      AllTake(e, r.value, b, r.pos);
    }
  }

  lemma {:induction false} EnumTakes(t: Ty, b: seq<byte>, pos: nat)
    requires t.TEnum? && Steady(t) && pos <= |b|
    ensures Takes(Decode(t, b, pos), b, pos, SteadySize(t))
    decreases t, 0, 0
  {
    var r := ReadInt(b, pos, t.tag);
    if r.Ok? && r.value < |t.variants| {
      assert SteadyLike(t.variants[r.value].fields, t.variants[0].fields);
      FieldsTake(t.variants[r.value].fields, b, r.pos);
    }
  }

  lemma {:induction false} AllTake(t: Ty, n: nat, b: seq<byte>, pos: nat)
    requires Steady(t) && pos <= |b|
    ensures Takes(DecodeAll(t, n, b, pos), b, pos, Sum(SteadySize(t), n))
    decreases t, 1, n + 1
  {
    if n > 0 {
      SteadyTakes(t, b, pos);
      if pos + SteadySize(t) <= |b| { AllTake(t, n - 1, b, pos + SteadySize(t)); }
    }
  }

  lemma {:induction false} FieldsTake(ts: seq<Ty>, b: seq<byte>, pos: nat)
    requires AllSteady(ts) && pos <= |b|
    ensures Takes(DecodeFields(ts, b, pos), b, pos, SteadySizes(ts))
    decreases ts, 0, 0
  {
    if ts != [] {
      SteadyTakes(ts[0], b, pos);
      if pos + SteadySize(ts[0]) <= |b| { FieldsTake(ts[1..], b, pos + SteadySize(ts[0])); }
    }
  }

  /** Every number of a tag that a steady type can reach is that of a variant. */
  predicate FullTags(t: Ty) {
    match t
    case TArray(e, n) => n == 0 || FullTags(e)
    case TTuple(ts) => AllFullTags(ts)
    case TStruct(ts, _) => AllFullTags(ts)
    case TEnum(tag, variants) =>
      |variants| == Pow256(tag) && forall i :: 0 <= i < |variants| ==> AllFullTags(variants[i].fields)
    case _ => true
  }

  predicate AllFullTags(ts: seq<Ty>) {
    ts == [] || (FullTags(ts[0]) && AllFullTags(ts[1..]))
  }

  /** The scan ends after `n` bytes, if it succeeds; if it cannot meet a bad tag, it is nothing but a skip. */
  ghost predicate Measures(s: Scanned, b: seq<byte>, pos: nat, n: nat, full: bool)
    requires pos <= |b|
  {
    && (s.Ok? ==> s.pos == pos + n)
    && (full ==> s == Skip(b, pos, n))
  }

  lemma {:induction false} SteadyScanAll(cap: Machine, t: Ty, n: nat, b: seq<byte>, pos: nat)
    requires Valid(t) && Steady(t) && NoWrapInside(cap, t) && Counts(t, n) && pos <= |b|
    ensures Measures(ScanAll(t, n, b, pos), b, pos, Sum(SteadySize(t), n), FullTags(t))
    decreases t, 2, 0
  {
    if Empty(t) {
      EmptyIsSteady(t);
      SumOfZeros(n);
      EmptyScans(t, n, b, pos);
    } else if IsFlat(t) {
      SumIsProduct(FlatSize(t), n);
    } else if t.TArray? {
      ArrayCounts(t.elem, t.len, n);
      SumOfSums(SteadySize(t.elem), t.len, n);
      SteadyScanAll(cap, t.elem, t.len * n, b, pos);
    } else {
      SteadyScanEach(cap, t, n, b, pos);
    }
  }

  lemma {:induction false} SteadyScanEach(cap: Machine, t: Ty, n: nat, b: seq<byte>, pos: nat)
    requires Valid(t) && Steady(t) && NoWrapInside(cap, t) && !IsFlat(t) && !t.TArray? && pos <= |b|
    ensures Measures(ScanEach(t, n, b, pos), b, pos, Sum(SteadySize(t), n), FullTags(t))
    decreases t, 1, n
  {
    if n > 0 {
      SteadyScanOne(cap, t, b, pos);
      var w := SteadySize(t);
      if pos + w <= |b| { SteadyScanEach(cap, t, n - 1, b, pos + w); }
    }
  }

  lemma {:induction false} SteadyScanOne(cap: Machine, t: Ty, b: seq<byte>, pos: nat)
    requires Valid(t) && Steady(t) && NoWrapInside(cap, t) && !IsFlat(t) && !t.TArray? && pos <= |b|
    ensures Measures(ScanOne(t, b, pos), b, pos, SteadySize(t), FullTags(t))
    decreases t, 0, 1
  {
    match t
    case TOption(e) => if pos < |b| { EmptyScans(e, 1, b, pos + 1); }
    case TVec(e) => EmptyVecScans(e, b, pos);
    case TTuple(ts) => SteadyScanFields(cap, ts, b, pos);
    case TStruct(ts, _) => SteadyScanFields(cap, ts, b, pos);
    case TEnum(tag, variants) =>
      var r := ReadInt(b, pos, tag);
      if r.Ok? && r.value < |variants| {
        assert SteadyLike(variants[r.value].fields, variants[0].fields);
        SteadyScanFields(cap, variants[r.value].fields, b, r.pos);
      }
  }

  lemma EmptyVecScans(e: Ty, b: seq<byte>, pos: nat)
    requires Empty(e) && pos <= |b|
    ensures ScanOne(TVec(e), b, pos) == Skip(b, pos, 8)
  {
    EmptyIsSteady(e);
    var r := ReadInt(b, pos, 8);
    if r.Ok? { EmptyScans(e, r.value, b, r.pos); }
  }

  lemma {:induction false} SteadyScanFields(cap: Machine, ts: seq<Ty>, b: seq<byte>, pos: nat)
    requires AllValid(ts) && AllSteady(ts) && NoneWraps(cap, ts) && pos <= |b|
    ensures Measures(ScanFields(ts, b, pos), b, pos, SteadySizes(ts), AllFullTags(ts))
    decreases ts, 0, 0
  {
    if ts != [] {
      var w := SteadySize(ts[0]);
      assert Sum(w, 1) == w + Sum(w, 0);
      SteadyScanAll(cap, ts[0], 1, b, pos);
      if pos + w <= |b| { SteadyScanFields(cap, ts[1..], b, pos + w); }
    }
  }

  lemma SteadyScan(cap: Machine, t: Ty, b: seq<byte>, pos: nat)
    requires Valid(t) && Steady(t) && NoWrap(cap, t) && pos <= |b|
    ensures Measures(Scan(t, b, pos), b, pos, SteadySize(t), FullTags(t))
  {
    var w := SteadySize(t);
    assert Sum(w, 1) == w + Sum(w, 0);
    SteadyScanAll(cap, t, 1, b, pos);
  }

  /** Every encoded value of a steady type has that length. */
  lemma SteadyEncoding(t: Ty, v: Value)
    requires TagsFit(t) && Steady(t) && HasType(t, v)
    ensures |Encode(t, v)| == SteadySize(t)
  {
    var b := Encode(t, v);
    assert Stands(b, 0, b);
    RoundTrip(t, v, b, 0);
    SteadyTakes(t, b, 0);
  }

  lemma SteadyFieldsEncoding(ts: seq<Ty>, vs: seq<Value>)
    requires AllTagsFit(ts) && AllSteady(ts) && FieldsHaveType(ts, vs)
    ensures |EncodeFields(ts, vs)| == SteadySizes(ts)
  {
    var b := EncodeFields(ts, vs);
    assert Stands(b, 0, b);
    RoundTripFields(ts, vs, b, 0);
    FieldsTake(ts, b, 0);
  }

  // ----- every other type has a longer and a shorter value -----

  ghost predicate Uneven(cap: Machine, t: Ty, v: Value, w: Value) {
    && HasType(t, v) && HasType(t, w) && Modest(cap, t, v) && Modest(cap, t, w)
    && |Encode(t, v)| < |Encode(t, w)|
  }

  ghost predicate FieldsUneven(cap: Machine, ts: seq<Ty>, vs: seq<Value>, ws: seq<Value>) {
    && FieldsHaveType(ts, vs) && FieldsHaveType(ts, ws) && FieldsModest(cap, ts, vs) && FieldsModest(cap, ts, ws)
    && |EncodeFields(ts, vs)| < |EncodeFields(ts, ws)|
  }

  lemma {:induction false} UnsteadyIsUneven(cap: Machine, t: Ty) returns (v: Value, w: Value)
    requires Valid(t) && TagsFit(t) && !Steady(t)
    ensures Uneven(cap, t, v, w)
    decreases t, 1, 0
  {
    match t
    case TString =>
      v, w := VString([]), VString([0x61]);
      assert [0x61][1..] == [] && Utf8Char([0x61]) == 1;
    case TOption(e) =>
      v, w := VNone, VSome(Default(e));
      DefaultIsModest(cap, e);
      EmptyEncoding(e, Default(e));
    case TVec(e) =>
      v, w := VecsAreUneven(cap, e);
    case TArray(e, n) =>
      var x, y := UnsteadyIsUneven(cap, e);
      v, w := ArraysAreUneven(cap, e, n, x, y);
    case TTuple(ts) =>
      var vs, ws := UnsteadyFieldsAreUneven(cap, ts);
      v, w := VList(vs), VList(ws);
    case TStruct(ts, _) =>
      var vs, ws := UnsteadyFieldsAreUneven(cap, ts);
      v, w := VList(vs), VList(ws);
    case TEnum(_, _) => v, w := UnsteadyEnumIsUneven(cap, t);
  }

  lemma VecsAreUneven(cap: Machine, e: Ty) returns (v: Value, w: Value)
    requires Valid(e) && !Empty(e)
    ensures Uneven(cap, TVec(e), v, w)
  {
    v, w := VList([]), VList([Default(e)]);
    EncodeOne(e, Default(e));
    DefaultIsModest(cap, e);
    assert [Default(e)][1..] == [];
    VecOf(cap, e, []);
    VecOf(cap, e, [Default(e)]);
    EmptyEncoding(e, Default(e));
  }

  lemma ArraysAreUneven(cap: Machine, e: Ty, n: nat, x: Value, y: Value) returns (v: Value, w: Value)
    requires Valid(e) && n > 0 && Uneven(cap, e, x, y)
    ensures Uneven(cap, TArray(e, n), v, w)
  {
    var rest := Repeat(e, Default(e), n - 1);
    v, w := VList([x] + rest), VList([y] + rest);
    RepeatIsModest(cap, e, n - 1);
    InFront(cap, e, x, rest);
    InFront(cap, e, y, rest);
    ArrayOf(cap, e, [x] + rest);
    ArrayOf(cap, e, [y] + rest);
  }

  lemma VariantsUneven(cap: Machine, t: Ty, i: nat, vs: seq<Value>, j: nat, ws: seq<Value>)
    requires t.TEnum? && i < |t.variants| && j < |t.variants|
    requires var ts, us := t.variants[i].fields, t.variants[j].fields;
      && FieldsHaveType(ts, vs) && FieldsHaveType(us, ws) && FieldsModest(cap, ts, vs) && FieldsModest(cap, us, ws)
      && |EncodeFields(ts, vs)| < |EncodeFields(us, ws)|
    ensures Uneven(cap, t, VVariant(i, vs), VVariant(j, ws))
  {
  }

  lemma {:induction false} UnsteadyEnumIsUneven(cap: Machine, t: Ty) returns (v: Value, w: Value)
    requires t.TEnum? && Valid(t) && TagsFit(t) && !Steady(t)
    ensures Uneven(cap, t, v, w)
    decreases t, 0, 0
  {
    var i: nat :| i < |t.variants| && !SteadyLike(t.variants[i].fields, t.variants[0].fields);
    var ts, us := t.variants[i].fields, t.variants[0].fields;
    if !AllSteady(ts) {
      var vs, ws := UnsteadyFieldsAreUneven(cap, ts);
      v, w := VVariant(i, vs), VVariant(i, ws);
      VariantsUneven(cap, t, i, vs, i, ws);
    } else if !AllSteady(us) {
      var vs, ws := UnsteadyFieldsAreUneven(cap, us);
      v, w := VVariant(0, vs), VVariant(0, ws);
      VariantsUneven(cap, t, 0, vs, 0, ws);
    } else {
      var vs, ws := Defaults(ts), Defaults(us);
      v, w := VVariant(i, vs), VVariant(0, ws);
      DefaultsAreModest(cap, ts);
      DefaultsAreModest(cap, us);
      SteadyFieldsEncoding(ts, vs);
      SteadyFieldsEncoding(us, ws);
      if SteadySizes(ts) > SteadySizes(us) {
        v, w := w, v;
        VariantsUneven(cap, t, 0, ws, i, vs);
      } else {
        VariantsUneven(cap, t, i, vs, 0, ws);
      }
    }
  }

  lemma {:induction false} UnsteadyFieldsAreUneven(cap: Machine, ts: seq<Ty>) returns (vs: seq<Value>, ws: seq<Value>)
    requires AllValid(ts) && AllTagsFit(ts) && !AllSteady(ts)
    ensures FieldsUneven(cap, ts, vs, ws)
    decreases ts, 0, 0
  {
    var v, w, vr, wr := Default(ts[0]), Default(ts[0]), Defaults(ts[1..]), Defaults(ts[1..]);
    DefaultIsModest(cap, ts[0]);
    DefaultsAreModest(cap, ts[1..]);
    if !Steady(ts[0]) {
      v, w := UnsteadyIsUneven(cap, ts[0]);
    } else {
      vr, wr := UnsteadyFieldsAreUneven(cap, ts[1..]);
    }
    vs, ws := [v] + vr, [w] + wr;
    assert vs[1..] == vr && ws[1..] == wr;
  }

  ghost predicate EquallyLong(t: Ty, v: Value, w: Value) {
    HasType(t, v) && HasType(t, w) ==> |Encode(t, v)| == |Encode(t, w)|
  }

  /** All values of a type are equally long exactly if it is steady. */
  lemma SteadyExactlyWhenEquallyLong(t: Ty)
    requires Valid(t) && TagsFit(t)
    ensures Steady(t) <==> forall v, w :: EquallyLong(t, v, w)
  {
    if Steady(t) {
      forall v, w ensures EquallyLong(t, v, w) {
        if HasType(t, v) && HasType(t, w) {
          SteadyEncoding(t, v);
          SteadyEncoding(t, w);
        }
      }
    } else {
      var v, w := UnsteadyIsUneven((e: Ty) => 1, t);
      assert !EquallyLong(t, v, w);
    }
  }

  // ----- exactly when later reads stay inside -----

  /** The longer value, cut to the length of the shorter one before it: the guard lets it be read. */
  lemma CutSecondStrays(cap: Machine, t: Ty, v: Value, w: Value)
    requires Valid(t) && Scannable(t) && NoWrap(cap, t) && TagsFit(t) && Uneven(cap, t, v, w)
    ensures var k := |Encode(t, v)|; var b := Encode(t, v) + Encode(t, w)[..k];
      && Unwired(t, b, 0) == Ok(v, k) && Guard(t, b, k).Ok? && Decode(t, b, k) == Err(Eof)
      && Affordable(cap, t, b, k) && !StaysInside(t, b, k)
  {
    var k := |Encode(t, v)|;
    var b := Encode(t, v) + Encode(t, w)[..k];
    assert Stands(b, 0, Encode(t, v));
    RoundTrip(t, v, b, 0);
    ModestScans(cap, t, v, b, 0);
    assert b[k..] == Encode(t, w)[..k];
    assert Cut(b, k, Encode(t, w));
    TruncationIsEof(t, w, b, k);
    ModestIsAffordable(cap, t, w, b, k);
  }

  /** Two lengths of byte vectors, 0 and 5: reading the second one leaves the buffer. */
  lemma SecondUnwireStrays()
    ensures var t, b := TVec(TInt(1, false)), EncodeInt(8, 0) + EncodeInt(8, 5);
      && Unwired(t, b, 0) == Ok(VList([]), 8)
      && Guard(t, b, 8).Ok? && Decode(t, b, 8) == Err(Eof) && !StaysInside(t, b, 8)
  {
    var b := EncodeInt(8, 0) + EncodeInt(8, 5);
    U64Limit();
    assert Stands(b, 0, EncodeInt(8, 0)) && Stands(b, 8, EncodeInt(8, 5));
    ReadIntBack(b, 0, 8, 0);
    ReadIntBack(b, 8, 8, 5);
    ScanVec(TInt(1, false), b, 0);
    NothingLeft(TInt(1, false), ReadInt(b, 8, 8).value, b);
  }

  ghost predicate StaysInsideAt(cap: Machine, t: Ty, b: seq<byte>, pos: nat) {
    pos <= |b| && Affordable(cap, t, b, pos) ==> StaysInside(t, b, pos)
  }

  lemma SteadyStaysInside(cap: Machine, t: Ty, b: seq<byte>, pos: nat)
    requires Valid(t) && Steady(t) && NoWrap(cap, t) && pos <= |b|
    ensures StaysInside(t, b, pos)
  {
    SteadyScan(cap, t, b, 0);
    SteadyTakes(t, b, pos);
  }

  lemma UnsteadyStrays(cap: Machine, t: Ty) returns (b: seq<byte>, pos: nat)
    requires Valid(t) && TagsFit(t) && !(Steady(t) && NoWrap(cap, t))
    ensures !StaysInsideAt(cap, t, b, pos)
  {
    if Scannable(t) && NoWrap(cap, t) {
      var v, w := UnsteadyIsUneven(cap, t);
      CutSecondStrays(cap, t, v, w);
      pos := |Encode(t, v)|;
      b := Encode(t, v) + Encode(t, w)[..pos];
    } else {
      b := UnscannableStrays(cap, t);
      pos := 0;
    }
  }

  /** Reads at every position of every buffer stay inside exactly for the steady types of which no product wraps around. */
  lemma StaysInsideExactlyWhenSteady(cap: Machine, t: Ty)
    requires Valid(t) && TagsFit(t)
    ensures Steady(t) && NoWrap(cap, t) <==> forall b, pos: nat :: StaysInsideAt(cap, t, b, pos)
  {
    if Steady(t) && NoWrap(cap, t) {
      forall b, pos: nat ensures StaysInsideAt(cap, t, b, pos) {
        if pos <= |b| { SteadyStaysInside(cap, t, b, pos); }
      }
    } else {
      var b, pos := UnsteadyStrays(cap, t);
    }
  }

  // ----- exactly when they return the right values -----

  /** Wherever the scan of the front succeeds, a steady type is read at any position like by the checked decoder. */
  lemma SteadyLaterReadRefines(cap: Machine, t: Ty, b: seq<byte>, pos: nat)
    requires Valid(t) && Steady(t) && NoWrap(cap, t) && pos <= |b| && Scan(t, b, 0).Ok?
    ensures Agrees(t, b, pos)
  {
    SteadyScan(cap, t, b, 0);
    SteadyTakes(t, b, pos);
  }

  ghost predicate RefinesAt(cap: Machine, t: Ty, b: seq<byte>, pos: nat) {
    pos <= |b| && Affordable(cap, t, b, pos) ==> StaysInside(t, b, pos) && Agrees(t, b, pos)
  }

  lemma {:induction false} SteadyIsScannable(t: Ty)
    requires Steady(t)
    ensures Scannable(t)
    decreases t, 1
  {
    match t
    case TOption(e) => EmptyIsScannable(e);
    case TVec(e) => EmptyIsScannable(e);
    case TArray(e, n) => if n > 0 { SteadyIsScannable(e); }
    case TTuple(ts) => AllSteadyAreScannable(ts);
    case TStruct(ts, _) => AllSteadyAreScannable(ts);
    case TEnum(_, variants) =>
      forall i | 0 <= i < |variants| ensures AllScannable(variants[i].fields) {
        assert SteadyLike(variants[i].fields, variants[0].fields);
        AllSteadyAreScannable(variants[i].fields);
      }
    case _ =>
  }

  lemma EmptyIsScannable(e: Ty)
    requires Empty(e)
    ensures Scannable(e) && Rigid(e)
  {
    EmptyIsRigid(e);
    RigidIsScannable(e);
  }

  lemma {:induction false} AllSteadyAreScannable(ts: seq<Ty>)
    requires AllSteady(ts)
    ensures AllScannable(ts)
    decreases ts, 0
  {
    if ts != [] {
      SteadyIsScannable(ts[0]);
      AllSteadyAreScannable(ts[1..]);
    }
  }

  /** The scan of `n` values that begin with `s` meets a tag without a variant. */
  ghost predicate Refused(t: Ty, n: nat, s: seq<byte>) {
    forall b, pos: nat :: Stands(b, pos, s) ==> ScanAll(t, n, b, pos) == Err(Invalid)
  }

  ghost predicate FieldsRefused(ts: seq<Ty>, s: seq<byte>) {
    forall b, pos: nat :: Stands(b, pos, s) ==> ScanFields(ts, b, pos) == Err(Invalid)
  }

  ghost predicate OneRefused(t: Ty, s: seq<byte>)
    requires !IsFlat(t) && !t.TArray?
  {
    forall b, pos: nat :: Stands(b, pos, s) ==> ScanOne(t, b, pos) == Err(Invalid)
  }

  lemma RefusedAtOnce(t: Ty, n: nat, s: seq<byte>)
    requires !IsFlat(t) && !t.TArray? && OneRefused(t, s) && n > 0
    ensures Refused(t, n, s)
  {
    forall b, pos: nat | Stands(b, pos, s) ensures ScanAll(t, n, b, pos) == Err(Invalid) {
      assert ScanOne(t, b, pos) == Err(Invalid);
    }
  }

  lemma ArrayRefused(e: Ty, m: nat, n: nat, s: seq<byte>)
    requires 0 <= m * n < U64_LIMIT && Refused(e, m * n, s)
    ensures Refused(TArray(e, m), n, s)
  {
  }

  lemma {:induction false} UnusedTagIsRefused(cap: Machine, t: Ty, n: nat) returns (s: seq<byte>)
    requires Valid(t) && TagsFit(t) && Steady(t) && NoWrapInside(cap, t) && Counts(t, n) && !FullTags(t) && n > 0
    ensures Refused(t, n, s)
    decreases t, 1
  {
    if t.TArray? {
      if Empty(t) { EmptyHasFullTags(t); }
      ArrayCounts(t.elem, t.len, n);
      Times(t.len, n);
      s := UnusedTagIsRefused(cap, t.elem, t.len * n);
      ArrayRefused(t.elem, t.len, n, s);
    } else {
      if t.TEnum? {
        s := UnusedEnumTagIsRefused(cap, t);
      } else {
        s := UnusedFieldTagIsRefused(cap, t.fields);
      }
      RefusedAtOnce(t, n, s);
    }
  }

  lemma {:induction false} UnusedEnumTagIsRefused(cap: Machine, t: Ty) returns (s: seq<byte>)
    requires t.TEnum? && Valid(t) && TagsFit(t) && Steady(t) && NoWrapInside(cap, t) && !FullTags(t)
    ensures OneRefused(t, s)
    decreases t, 0
  {
    var i, z := |t.variants|, [];
    if |t.variants| == Pow256(t.tag) {
      i :| 0 <= i < |t.variants| && !AllFullTags(t.variants[i].fields);
      assert SteadyLike(t.variants[i].fields, t.variants[0].fields);
      z := UnusedFieldTagIsRefused(cap, t.variants[i].fields);
    }
    s := EncodeInt(t.tag, i) + z;
    forall b, pos: nat | Stands(b, pos, s) ensures ScanOne(t, b, pos) == Err(Invalid) {
      StandsSplit(b, pos, EncodeInt(t.tag, i), z);
      ReadIntBack(b, pos, t.tag, i);
    }
  }

  lemma {:induction false} UnusedFieldTagIsRefused(cap: Machine, ts: seq<Ty>) returns (s: seq<byte>)
    requires AllValid(ts) && AllTagsFit(ts) && AllSteady(ts) && NoneWraps(cap, ts) && !AllFullTags(ts)
    ensures FieldsRefused(ts, s)
    decreases ts, 0
  {
    if !FullTags(ts[0]) {
      s := UnusedTagIsRefused(cap, ts[0], 1);
    } else {
      var d := Encode(ts[0], Default(ts[0]));
      SteadyIsScannable(ts[0]);
      DefaultScans(cap, ts[0]);
      var z := UnusedFieldTagIsRefused(cap, ts[1..]);
      s := d + z;
      RefusedBehind(ts, d, z);
    }
  }

  lemma RefusedBehind(ts: seq<Ty>, s: seq<byte>, z: seq<byte>)
    requires ts != [] && AllScan(ts[0], 1, s) && FieldsRefused(ts[1..], z)
    ensures FieldsRefused(ts, s + z)
  {
    forall b, pos: nat | Stands(b, pos, s + z) ensures ScanFields(ts, b, pos) == Err(Invalid) {
      StandsSplit(b, pos, s, z);
    }
  }

  lemma {:induction false} EmptyHasFullTags(t: Ty)
    requires Empty(t)
    ensures FullTags(t)
  {
    match t
    case TArray(e, n) => if n > 0 { EmptyHasFullTags(e); }
    case TTuple(ts) => AllEmptyHaveFullTags(ts);
    case TStruct(ts, _) => AllEmptyHaveFullTags(ts);
  }

  lemma {:induction false} AllEmptyHaveFullTags(ts: seq<Ty>)
    requires AllEmpty(ts)
    ensures AllFullTags(ts)
  {
    if ts != [] {
      EmptyHasFullTags(ts[0]);
      AllEmptyHaveFullTags(ts[1..]);
    }
  }

  /** A tag without a variant at the front keeps the reader from a value that stands behind it. */
  lemma UnusedTagHides(cap: Machine, t: Ty) returns (b: seq<byte>, pos: nat)
    requires Valid(t) && TagsFit(t) && Steady(t) && NoWrap(cap, t) && !FullTags(t)
    ensures !RefinesAt(cap, t, b, pos)
  {
    var s := UnusedTagIsRefused(cap, t, 1);
    var d := Encode(t, Default(t));
    b, pos := s + d, |s|;
    assert Stands(b, 0, s) && Stands(b, pos, d);
    RoundTrip(t, Default(t), b, pos);
    DefaultIsModest(cap, t);
    ModestIsAffordable(cap, t, Default(t), b, pos);
  }

  /** An enum of a single variant: a 9 at the front hides the value behind it. */
  lemma UnusedTagExample()
    ensures var t := TEnum(1, [Variant(true, [])]);
      Steady(t) && Decode(t, [9, 0], 1) == Ok(VVariant(0, []), 2) && Unwired(t, [9, 0], 1) == Err(Invalid)
  {
    var t := TEnum(1, [Variant(true, [])]);
    assert Stands([9, 0], 0, [9]) && Stands([9, 0], 1, [0]);
    ReadByteBack([9, 0], 0, 9);
    ReadByteBack([9, 0], 1, 0);
    ScanIsOne(t, [9, 0], 0);
  }

  /**
   Reads at every position of every buffer refine checked decoding exactly for the steady types of
   which no product wraps around and whose tags have no unused number.
   */
  lemma RefinesAnywhereExactlyWhen(cap: Machine, t: Ty)
    requires Valid(t) && TagsFit(t)
    ensures Steady(t) && NoWrap(cap, t) && FullTags(t) <==> forall b, pos: nat :: RefinesAt(cap, t, b, pos)
  {
    if !(Steady(t) && NoWrap(cap, t)) {
      var b, pos := UnsteadyStrays(cap, t);
      assert !RefinesAt(cap, t, b, pos);
    } else if !FullTags(t) {
      var b, pos := UnusedTagHides(cap, t);
    } else {
      forall b, pos: nat ensures RefinesAt(cap, t, b, pos) {
        if pos <= |b| {
          SteadyScan(cap, t, b, 0);
          SteadyTakes(t, b, pos);
        }
      }
    }
  }
}
