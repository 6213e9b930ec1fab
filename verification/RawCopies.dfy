/** Which copies made without a check stay within the allocation. */
module RawCopies {
  import opened Bytes
  import opened WireTypes
  import opened Codec
  import opened Sums
  import opened Reserve

  // ----- series of writes -----

  /** A write of `n` bytes: `raw` copies behind the end as it is, other writes make room first. */
  datatype Write = Write(raw: bool, n: nat)

  function Size(ws: seq<Write>): nat {
    if ws == [] then 0 else ws[0].n + Size(ws[1..])
  }

  /** Where the last raw copy of at least one byte ends, or 0. */
  function LastRaw(ws: seq<Write>): nat {
    if ws == [] then 0
    else
      var rest := LastRaw(ws[1..]);
      if rest > 0 then ws[0].n + rest else if ws[0].raw then ws[0].n else 0
  }

  /** All raw copies end within an allocation that grows no more than it must. */
  predicate Fit(ws: seq<Write>, len: nat, capacity: nat) {
    ws == []
    || (var end := len + ws[0].n;
        if ws[0].raw then end <= capacity && Fit(ws[1..], end, capacity)
        else Fit(ws[1..], end, if end > capacity then end else capacity))
  }

  /** Only the last raw copy matters: what is checked before it cannot help. */
  lemma {:induction false} FitExactlyWhenLastRawDoes(ws: seq<Write>, len: nat, capacity: nat)
    requires len <= capacity
    ensures Fit(ws, len, capacity) <==> len + LastRaw(ws) <= capacity
  {
    if ws != [] {
      var end := len + ws[0].n;
      if !ws[0].raw {
        FitExactlyWhenLastRawDoes(ws[1..], end, if end > capacity then end else capacity);
      } else if end <= capacity {
        FitExactlyWhenLastRawDoes(ws[1..], end, capacity);
      }
    }
  }

  lemma {:induction false} Join(a: seq<Write>, b: seq<Write>)
    ensures Size(a + b) == Size(a) + Size(b)
    ensures LastRaw(a + b) == if LastRaw(b) > 0 then Size(a) + LastRaw(b) else LastRaw(a)
  {
    if a == [] {
      assert a + b == b;
    } else {
      Join(a[1..], b);
      assert (a + b)[1..] == a[1..] + b;
    }
  }

  lemma {:induction false} LastRawWithin(ws: seq<Write>)
    ensures LastRaw(ws) <= Size(ws)
  {
    if ws != [] { LastRawWithin(ws[1..]); }
  }

  lemma One(x: Write)
    ensures Size([x]) == x.n && LastRaw([x]) == if x.raw then x.n else 0
  {
    assert [x][1..] == [];
  }

  /** The room needed for two series is there for the first one, and left for the second one. */
  lemma RoomSplit(a: seq<Write>, b: seq<Write>, len: nat, capacity: nat)
    requires len <= capacity && len + LastRaw(a + b) <= capacity
    ensures len + LastRaw(a) <= capacity && (LastRaw(b) > 0 ==> len + Size(a) + LastRaw(b) <= capacity)
  {
    Join(a, b);
    LastRawWithin(a);
  }

  // ----- the writes of a value on an `Unchecked` wire -----

  /** These are appended with a check even there: i32, u64, f32. */
  predicate AlwaysChecked(t: Ty) {
    t == TInt(4, true) || t == TInt(8, false) || t == TFloat(4)
  }

  function WritesOf(t: Ty, v: Value): seq<Write>
    decreases t, 0, 0
  {
    match (t, v)
    case (TString, VString(s)) => [Write(false, 8), Write(true, |s|)]
    case (TOption(_), VNone) => [Write(true, 1)]
    case (TOption(e), VSome(x)) => [Write(true, 1)] + WritesOf(e, x)
    case (TVec(e), VList(vs)) => [Write(false, 8)] + WritesOfSlice(e, vs)
    case (TArray(e, _), VList(vs)) =>
      if e == TInt(1, false) || e == TInt(4, false) then [Write(true, |EncodeAll(e, vs)|)] else WritesOfAll(e, vs)
    case (TTuple(ts), VList(vs)) => WritesOfFields(ts, vs)
    case (TStruct(ts, group), VList(vs)) =>
      if group then [Write(true, |EncodeFields(ts, vs)|)] else WritesOfFields(ts, vs)
    case (TEnum(tag, variants), VVariant(i, vs)) =>
      if i < |variants| then [Write(true, tag)] + WritesOfFields(variants[i].fields, vs) else []
    case _ => [Write(!AlwaysChecked(t), |Encode(t, v)|)]
  }

  /** Behind the length; the bytes of a byte slice are one write. */
  function WritesOfSlice(e: Ty, vs: seq<Value>): seq<Write>
    decreases e, 2, 0
  {
    if e == TInt(1, false) then [Write(true, |EncodeAll(e, vs)|)] else WritesOfAll(e, vs)
  }

  function WritesOfAll(t: Ty, vs: seq<Value>): seq<Write>
    decreases t, 1, |vs|
  {
    if vs == [] then [] else WritesOf(t, vs[0]) + WritesOfAll(t, vs[1..])
  }

  function WritesOfFields(ts: seq<Ty>, vs: seq<Value>): seq<Write>
    decreases ts, 0, 0
  {
    if ts == [] || vs == [] then [] else WritesOf(ts[0], vs[0]) + WritesOfFields(ts[1..], vs[1..])
  }

  /** They write the encoding. */
  lemma {:induction false} SizeIsEncoding(t: Ty, v: Value)
    requires HasType(t, v)
    ensures Size(WritesOf(t, v)) == |Encode(t, v)|
    decreases t, 1, 0
  {
    match t
    case TString =>
      One(Write(true, |v.bytes|));
      assert [Write(false, 8), Write(true, |v.bytes|)][1..] == [Write(true, |v.bytes|)];
    case TOption(e) =>
      One(Write(true, 1));
      if v.VSome? {
        SizeIsEncoding(e, v.v);
        Join([Write(true, 1)], WritesOf(e, v.v));
      }
    case TVec(e) =>
      One(Write(false, 8));
      One(Write(true, |EncodeAll(e, v.vs)|));
      SizesAreEncodings(e, v.vs);
      Join([Write(false, 8)], WritesOfSlice(e, v.vs));
    case TArray(e, n) =>
      One(Write(true, |EncodeAll(e, v.vs)|));
      SizesAreEncodings(e, v.vs);
    case TTuple(ts) => FieldSizesAreEncodings(ts, v.vs);
    case TStruct(ts, _) =>
      One(Write(true, |EncodeFields(ts, v.vs)|));
      FieldSizesAreEncodings(ts, v.vs);
    case TEnum(tag, variants) =>
      One(Write(true, tag));
      FieldSizesAreEncodings(variants[v.index].fields, v.vs);
      Join([Write(true, tag)], WritesOfFields(variants[v.index].fields, v.vs));
    case _ => One(Write(!AlwaysChecked(t), |Encode(t, v)|));
  }

  lemma {:induction false} SizesAreEncodings(t: Ty, vs: seq<Value>)
    requires AllHaveType(t, vs)
    ensures Size(WritesOfAll(t, vs)) == |EncodeAll(t, vs)|
    decreases t, 1, |vs| + 1
  {
    if vs != [] {
      SizeIsEncoding(t, vs[0]);
      SizesAreEncodings(t, vs[1..]);
      Join(WritesOf(t, vs[0]), WritesOfAll(t, vs[1..]));
    }
  }

  lemma {:induction false} FieldSizesAreEncodings(ts: seq<Ty>, vs: seq<Value>)
    requires FieldsHaveType(ts, vs)
    ensures Size(WritesOfFields(ts, vs)) == |EncodeFields(ts, vs)|
    decreases ts, 0, 0
  {
    if ts != [] {
      SizeIsEncoding(ts[0], vs[0]);
      FieldSizesAreEncodings(ts[1..], vs[1..]);
      Join(WritesOf(ts[0], vs[0]), WritesOfFields(ts[1..], vs[1..]));
    }
  }

  /** Of the scalars only these three are appended with a check there. */
  lemma ScalarWrites(t: Ty, v: Value)
    requires HasType(t, v) && (t.TInt? || t.TFloat? || t.TBool? || t.TUnit? || t.TUnitStruct?)
    ensures WritesOf(t, v) == [Write(t !in {TInt(4, true), TInt(8, false), TFloat(4)}, |Encode(t, v)|)]
  {
  }

  /** The bytes of a slice or an array of bytes, and the words of an array of u32, are one write. */
  lemma BytesAreOneWrite(vs: seq<Value>)
    ensures WritesOf(TVec(TInt(1, false)), VList(vs)) == [Write(false, 8), Write(true, |EncodeAll(TInt(1, false), vs)|)]
    ensures forall w :: w in {1, 4} ==>
      WritesOf(TArray(TInt(w, false), |vs|), VList(vs)) == [Write(true, |EncodeAll(TInt(w, false), vs)|)]
  {
    var e := TInt(1, false);
    assert [Write(false, 8)] + WritesOfSlice(e, vs) == [Write(false, 8), Write(true, |EncodeAll(e, vs)|)];
  }

  // ----- types without any raw copy -----

  predicate AllChecked(t: Ty) {
    match t
    case TInt(_, _) => AlwaysChecked(t)
    case TFloat(_) => AlwaysChecked(t)
    case TVec(e) => AllChecked(e)
    case TArray(e, n) => n == 0 || AllChecked(e)
    case TTuple(ts) => AreAllChecked(ts)
    case TStruct(ts, group) => if group then AllEmpty(ts) else AreAllChecked(ts)
    case _ => false
  }

  predicate AreAllChecked(ts: seq<Ty>) {
    ts == [] || (AllChecked(ts[0]) && AreAllChecked(ts[1..]))
  }

  lemma {:induction false} CheckedHasNoRaw(t: Ty, v: Value)
    requires AllChecked(t) && HasType(t, v)
    ensures LastRaw(WritesOf(t, v)) == 0
    decreases t, 1, 0
  {
    match t
    case TVec(e) =>
      One(Write(false, 8));
      CheckedHaveNoRaw(e, v.vs);
      Join([Write(false, 8)], WritesOfSlice(e, v.vs));
    case TArray(e, n) =>
      One(Write(true, |EncodeAll(e, v.vs)|));
      if n > 0 { CheckedHaveNoRaw(e, v.vs); }
    case TTuple(ts) => CheckedFieldsHaveNoRaw(ts, v.vs);
    case TStruct(ts, group) =>
      One(Write(true, |EncodeFields(ts, v.vs)|));
      if group { EmptyFields(ts, v.vs); } else { CheckedFieldsHaveNoRaw(ts, v.vs); }
    case TInt(w, _) => One(Write(false, w));
    case TFloat(w) => One(Write(false, w));
  }

  lemma {:induction false} CheckedHaveNoRaw(t: Ty, vs: seq<Value>)
    requires AllChecked(t) && AllHaveType(t, vs)
    ensures LastRaw(WritesOfAll(t, vs)) == 0
    decreases t, 1, |vs| + 1
  {
    if vs != [] {
      CheckedHasNoRaw(t, vs[0]);
      CheckedHaveNoRaw(t, vs[1..]);
      Join(WritesOf(t, vs[0]), WritesOfAll(t, vs[1..]));
    }
  }

  lemma {:induction false} CheckedFieldsHaveNoRaw(ts: seq<Ty>, vs: seq<Value>)
    requires AreAllChecked(ts) && FieldsHaveType(ts, vs)
    ensures LastRaw(WritesOfFields(ts, vs)) == 0
    decreases ts, 0, 0
  {
    if ts != [] {
      CheckedHasNoRaw(ts[0], vs[0]);
      CheckedFieldsHaveNoRaw(ts[1..], vs[1..]);
      Join(WritesOf(ts[0], vs[0]), WritesOfFields(ts[1..], vs[1..]));
    }
  }

  /** Every other type has a value with a raw copy. */
  lemma {:induction false} RawValue(t: Ty) returns (v: Value)
    requires Valid(t) && !AllChecked(t)
    ensures HasType(t, v) && LastRaw(WritesOf(t, v)) > 0
    decreases t, 0, 0
  {
    match t
    case TString =>
      v := VString([0x61]);
      assert [0x61][1..] == [] && Utf8Char([0x61]) == 1;
      One(Write(true, 1));
      assert [Write(false, 8), Write(true, 1)][1..] == [Write(true, 1)];
    case TOption(_) =>
      v := VNone;
      One(Write(true, 1));
    case TVec(e) =>
      var x := RawValue(e);
      v := RawVec(e, x);
    case TArray(e, n) =>
      var x := RawValue(e);
      v := RawArray(e, n, x);
    case TTuple(ts) =>
      var vs := RawFields(ts);
      v := VList(vs);
    case TStruct(ts, group) =>
      v := RawStruct(ts, group);
    case TEnum(tag, variants) =>
      v := VVariant(0, Defaults(variants[0].fields));
      One(Write(true, tag));
      Join([Write(true, tag)], WritesOfFields(variants[0].fields, v.vs));
    case TInt(_, _) =>
      v := VInt(0);
      One(Write(true, |Encode(t, v)|));
    case TFloat(_) =>
      v := VInt(0);
      One(Write(true, |Encode(t, v)|));
    case TBool =>
      v := VBool(false);
      One(Write(true, 1));
    case _ =>
      v := VUnit;
      One(Write(true, 1));
  }

  lemma {:induction false} RawStruct(ts: seq<Ty>, group: bool) returns (v: Value)
    requires AllValid(ts) && if group then !AllEmpty(ts) else !AreAllChecked(ts)
    ensures HasType(TStruct(ts, group), v) && LastRaw(WritesOf(TStruct(ts, group), v)) > 0
    decreases ts, 1, 0
  {
    if group {
      v := VList(Defaults(ts));
      EmptyFields(ts, v.vs);
      One(Write(true, |EncodeFields(ts, v.vs)|));
    } else {
      var vs := RawFields(ts);
      v := VList(vs);
    }
  }

  lemma RawVec(e: Ty, x: Value) returns (v: Value)
    requires HasType(e, x) && LastRaw(WritesOf(e, x)) > 0
    ensures HasType(TVec(e), v) && LastRaw(WritesOf(TVec(e), v)) > 0
  {
    v := VList([x]);
    FirstIsRaw(e, x, []);
    assert [x] + [] == [x];
    EncodeOne(e, x);
    SizeIsEncoding(e, x);
    LastRawWithin(WritesOf(e, x));
    One(Write(true, |EncodeAll(e, [x])|));
    Join([Write(false, 8)], WritesOfSlice(e, [x]));
  }

  lemma RawArray(e: Ty, n: nat, x: Value) returns (v: Value)
    requires Valid(e) && n > 0 && HasType(e, x) && LastRaw(WritesOf(e, x)) > 0
    ensures HasType(TArray(e, n), v) && LastRaw(WritesOf(TArray(e, n), v)) > 0
  {
    var rest := Repeat(e, Default(e), n - 1);
    v := VList([x] + rest);
    assert ([x] + rest)[1..] == rest;
    FirstIsRaw(e, x, rest);
    SizeIsEncoding(e, x);
    LastRawWithin(WritesOf(e, x));
    One(Write(true, |EncodeAll(e, [x] + rest)|));
  }

  lemma FirstIsRaw(e: Ty, x: Value, rest: seq<Value>)
    requires LastRaw(WritesOf(e, x)) > 0
    ensures LastRaw(WritesOfAll(e, [x] + rest)) > 0
  {
    assert ([x] + rest)[1..] == rest;
    Join(WritesOf(e, x), WritesOfAll(e, rest));
  }

  lemma {:induction false} RawFields(ts: seq<Ty>) returns (vs: seq<Value>)
    requires AllValid(ts) && !AreAllChecked(ts)
    ensures FieldsHaveType(ts, vs) && LastRaw(WritesOfFields(ts, vs)) > 0
    decreases ts, 0, 0
  {
    var v, rest := Default(ts[0]), Defaults(ts[1..]);
    if !AllChecked(ts[0]) {
      v := RawValue(ts[0]);
    } else {
      rest := RawFields(ts[1..]);
    }
    vs := [v] + rest;
    assert vs[1..] == rest;
    Join(WritesOf(ts[0], v), WritesOfFields(ts[1..], rest));
  }

  // ----- one slice and its reservation -----

  /** The raw copies of a slice end within its reservation of `len * FIXED_SIZE`. */
  predicate SliceFits(t: Ty, vs: seq<Value>) {
    AllHaveType(t, vs) ==> LastRaw(WritesOfAll(t, vs)) <= WireSize(t) * |vs|
  }

  lemma SliceFitsIf(t: Ty, vs: seq<Value>)
    requires SizeHolds(t) || AllChecked(t)
    ensures SliceFits(t, vs)
  {
    if AllHaveType(t, vs) {
      if AllChecked(t) {
        CheckedHaveNoRaw(t, vs);
      } else {
        SizesAreEncodings(t, vs);
        LastRawWithin(WritesOfAll(t, vs));
        SizeOfValues(t, vs);
      }
    }
  }

  /** `k` times `v`, and then `u`. */
  function Copies(v: Value, k: nat, u: Value): seq<Value> {
    if k == 0 then [u] else [v] + Copies(v, k - 1, u)
  }

  lemma {:induction false} LastRawOfCopies(t: Ty, v: Value, k: nat, u: Value)
    requires HasType(t, v) && HasType(t, u) && LastRaw(WritesOf(t, u)) > 0
    ensures var vs := Copies(v, k, u);
      && AllHaveType(t, vs) && |vs| == k + 1
      && LastRaw(WritesOfAll(t, vs)) == Sum(|Encode(t, v)|, k) + LastRaw(WritesOf(t, u))
  {
    if k == 0 {
      assert [u][1..] == [];
      Join(WritesOf(t, u), []);
    } else {
      var rest := Copies(v, k - 1, u);
      LastRawOfCopies(t, v, k - 1, u);
      assert ([v] + rest)[1..] == rest;
      SizeIsEncoding(t, v);
      Join(WritesOf(t, v), WritesOfAll(t, rest));
    }
  }

  /** Enough values that are larger than `FIXED_SIZE` push a raw copy over the end. */
  lemma Overrun(t: Ty) returns (vs: seq<Value>)
    requires Valid(t) && !SizeHolds(t) && !AllChecked(t)
    ensures !SliceFits(t, vs) && |vs| == WireSize(t) + 1
  {
    var w := WireSize(t);
    var v := Oversized(t);
    var u := RawValue(t);
    vs := Copies(v, w, u);
    LastRawOfCopies(t, v, w, u);
    SumIsProduct(|Encode(t, v)|, w);
    MoreThan(w, |Encode(t, v)|);
  }

  lemma MoreThan(w: nat, n: nat)
    requires n > w
    ensures n * w + 1 > w * (w + 1)
  {
    assert n * w >= (w + 1) * w;
  }

  /**
   All raw copies of every slice end within its reservation exactly for the types whose size
   holds and for those that make none.
   */
  lemma SliceFitsExactlyWhen(t: Ty)
    requires Valid(t)
    ensures SizeHolds(t) || AllChecked(t) <==> forall vs :: SliceFits(t, vs)
  {
    if SizeHolds(t) || AllChecked(t) {
      forall vs ensures SliceFits(t, vs) { SliceFitsIf(t, vs); }
    } else {
      var vs := Overrun(t);
    }
  }
}
