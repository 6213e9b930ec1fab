/** `concat_array`: writing a value into a byte slice, as the groups of fixed fields do. */
module ConcatArray {
  import opened Bytes
  import opened WireTypes
  import opened Codec
  import opened Sums
  import opened Reserve

  /** `buf[..n].copy_from_slice(x)` */
  function Paste(x: seq<byte>, s: seq<byte>): (r: seq<byte>)
    ensures |r| == |s| && (x == [] ==> r == s)
  {
    if |x| <= |s| then x + s[|x|..] else s
  }

  /**
   The bytes of a slice after `concat_array`.  Only meaningful for values of type `t`, and for
   slices of at least `FIXED_SIZE` bytes, as shorter ones panic.
   */
  function Concat(t: Ty, v: Value, s: seq<byte>): (r: seq<byte>)
    ensures |r| == |s|
    decreases t, 0, 0
  {
    match (t, v)
    case (TInt(w, _), VInt(n)) => Paste(EncodeInt(w, n), s)
    case (TFloat(w), VInt(n)) => Paste(EncodeInt(w, n), s)
    case (TBool, VBool(x)) => Paste([if x then 1 else 0], s)
    case (TUnitStruct, _) => Paste([1], s)
    case (TArray(e, n), VList(vs)) => ConcatAll(e, vs, s)
    case (TTuple(ts), VList(vs)) => ConcatFields(ts, vs, s)
    case (TStruct(ts, _), VList(vs)) => ConcatFields(ts, vs, s)
    case (TEnum(tag, variants), VVariant(i, _)) =>
      if i < |variants| && variants[i].unit then Paste(EncodeInt(tag, i), s) else s
    case _ => s
  }

  function ConcatAll(t: Ty, vs: seq<Value>, s: seq<byte>): (r: seq<byte>)
    ensures |r| == |s|
    decreases t, 1, |vs|
  {
    var w := WireSize(t);
    if vs == [] || |s| < w then s else Concat(t, vs[0], s[..w]) + ConcatAll(t, vs[1..], s[w..])
  }

  function ConcatFields(ts: seq<Ty>, vs: seq<Value>, s: seq<byte>): (r: seq<byte>)
    ensures |r| == |s|
    decreases ts, 0, 0
  {
    if ts == [] || vs == [] || |s| < WireSize(ts[0]) then s
    else
      var w := WireSize(ts[0]);
      Concat(ts[0], vs[0], s[..w]) + ConcatFields(ts[1..], vs[1..], s[w..])
  }

  /** The encoding is written to the front of the slice, and nothing else. */
  ghost predicate Exact(t: Ty, v: Value, s: seq<byte>, zeroed: bool) {
    HasType(t, v) && |s| >= WireSize(t) && (zeroed ==> IsZeros(s)) ==> Concat(t, v, s) == Encode(t, v) + s[WireSize(t)..]
  }

  lemma Pasted(x: seq<byte>, y: seq<byte>, s: seq<byte>, w: nat, k: nat)
    requires w + k <= |s|
    ensures (x + s[..w][w..]) + (y + s[w..][k..]) == (x + y) + s[w + k..]
  {
    assert s[..w][w..] == [] && s[w..][k..] == s[w + k..];
  }

  lemma ZeroSlices(s: seq<byte>, w: nat)
    requires w <= |s|
    ensures IsZeros(s) ==> IsZeros(s[..w]) && IsZeros(s[w..])
  {
  }

  lemma {:induction false} EligibleIsExact(t: Ty, v: Value, s: seq<byte>, zeroed: bool)
    requires Eligible(t, zeroed) && HasType(t, v) && |s| >= WireSize(t) && (zeroed ==> IsZeros(s))
    ensures Concat(t, v, s) == Encode(t, v) + s[WireSize(t)..] && |Encode(t, v)| == WireSize(t)
    decreases t, 1, 0
  {
    match t
    case TArray(e, n) =>
      SumIsProduct(WireSize(e), n);
      if n > 0 { AllExact(e, v.vs, s, zeroed); }
    case TTuple(ts) => FieldsExact(ts, v.vs, s, zeroed);
    case TStruct(ts, _) => FieldsExact(ts, v.vs, s, zeroed);
    case TEnum(tag, variants) => VariantExact(t, v, s, zeroed);
    case _ =>
  }

  lemma VariantExact(t: Ty, v: Value, s: seq<byte>, zeroed: bool)
    requires t.TEnum? && Eligible(t, zeroed) && HasType(t, v) && |s| >= t.tag && (zeroed ==> IsZeros(s))
    ensures Concat(t, v, s) == Encode(t, v) + s[t.tag..] && |Encode(t, v)| == t.tag
  {
    var x := t.variants[v.index];
    assert EligibleVariant(t.tag, v.index, x, zeroed);
    if !x.unit {
      EmptyFields(x.fields, v.vs);
      assert s == s[..t.tag] + s[t.tag..];
    }
  }

  lemma {:induction false} AllExact(t: Ty, vs: seq<Value>, s: seq<byte>, zeroed: bool)
    requires Eligible(t, zeroed) && AllHaveType(t, vs) && |s| >= Sum(WireSize(t), |vs|) && (zeroed ==> IsZeros(s))
    ensures ConcatAll(t, vs, s) == EncodeAll(t, vs) + s[Sum(WireSize(t), |vs|)..]
    ensures |EncodeAll(t, vs)| == Sum(WireSize(t), |vs|)
    decreases t, 1, |vs| + 1
  {
    if vs != [] {
      var w, v, rest := WireSize(t), vs[0], vs[1..];
      var front, behind := s[..w], s[w..];
      ZeroSlices(s, w);
      EligibleIsExact(t, v, front, zeroed);
      AllExact(t, rest, behind, zeroed);
      var x, y, k := Encode(t, v), EncodeAll(t, rest), Sum(w, |rest|);
      assert ConcatAll(t, vs, s) == Concat(t, v, front) + ConcatAll(t, rest, behind);
      Pasted(x, y, s, w, k);
      assert EncodeAll(t, vs) == x + y && Sum(w, |vs|) == w + k;
    }
  }

  lemma {:induction false} FieldsExact(ts: seq<Ty>, vs: seq<Value>, s: seq<byte>, zeroed: bool)
    requires AllEligible(ts, zeroed) && FieldsHaveType(ts, vs) && |s| >= WireSizes(ts) && (zeroed ==> IsZeros(s))
    ensures ConcatFields(ts, vs, s) == EncodeFields(ts, vs) + s[WireSizes(ts)..]
    ensures |EncodeFields(ts, vs)| == WireSizes(ts)
    decreases ts, 0, 0
  {
    if ts != [] {
      var w := WireSize(ts[0]);
      ZeroSlices(s, w);
      EligibleIsExact(ts[0], vs[0], s[..w], zeroed);
      FieldsExact(ts[1..], vs[1..], s[w..], zeroed);
      var x, y, k := Encode(ts[0], vs[0]), EncodeFields(ts[1..], vs[1..]), WireSizes(ts[1..]);
      assert ConcatFields(ts, vs, s) == (x + s[..w][w..]) + (y + s[w..][k..]);
      Pasted(x, y, s, w, k);
      assert EncodeFields(ts, vs) == x + y && WireSizes(ts) == w + k;
    }
  }

  // ----- exactly when -----

  lemma JoinInjective(a: seq<byte>, b: seq<byte>, a': seq<byte>, b': seq<byte>)
    requires |a| <= |a'| && |b| <= |b'|
    ensures a + b == a' + b' ==> a == a' && b == b'
  {
    var x, y := a + b, a' + b';
    if x == y {
      assert |a| == |a'|;
      assert a == x[..|a|] && b == x[|a|..];
      assert a' == y[..|a|] && b' == y[|a|..];
    }
  }

  ghost predicate Differs(t: Ty, v: Value, s: seq<byte>, zeroed: bool) {
    && HasType(t, v) && |s| == WireSize(t) && (zeroed ==> IsZeros(s))
    && Concat(t, v, s) != Encode(t, v)
  }

  ghost predicate FieldsDiffer(ts: seq<Ty>, vs: seq<Value>, s: seq<byte>, zeroed: bool) {
    && FieldsHaveType(ts, vs) && |s| == WireSizes(ts) && (zeroed ==> IsZeros(s))
    && ConcatFields(ts, vs, s) != EncodeFields(ts, vs)
  }

  lemma {:induction false} IneligibleDiffers(t: Ty, zeroed: bool) returns (v: Value, s: seq<byte>)
    requires Valid(t) && !Eligible(t, zeroed)
    ensures Differs(t, v, s, zeroed)
    decreases t, 1, 0
  {
    match t
    case TUnitStruct => v, s := UnitDiffers(zeroed);
    case TArray(_, _) => v, s := ArrayDiffers(t, zeroed);
    case TTuple(_) => v, s := TupleDiffers(t, zeroed);
    case TStruct(_, _) => v, s := TupleDiffers(t, zeroed);
    case TEnum(_, _) => v, s := VariantDiffers(t, zeroed);
    case _ => v, s := Ignored(t, zeroed);
  }

  lemma UnitDiffers(zeroed: bool) returns (v: Value, s: seq<byte>)
    ensures Differs(TUnitStruct, v, s, zeroed)
  {
    v, s := VUnit, [0];
    assert Concat(TUnitStruct, v, s)[0] == 1 && Encode(TUnitStruct, v)[0] == 0;
  }

  lemma {:induction false} TupleDiffers(t: Ty, zeroed: bool) returns (v: Value, s: seq<byte>)
    requires (t.TTuple? || t.TStruct?) && Valid(t) && !Eligible(t, zeroed)
    ensures Differs(t, v, s, zeroed)
    decreases t, 0, 0
  {
    var vs;
    vs, s := IneligibleFieldDiffers(t.fields, zeroed);
    v := VList(vs);
  }

  lemma {:induction false} ArrayDiffers(t: Ty, zeroed: bool) returns (v: Value, s: seq<byte>)
    requires t.TArray? && Valid(t) && !Eligible(t, zeroed)
    ensures Differs(t, v, s, zeroed)
    decreases t, 0, 0
  {
    var w, s0 := IneligibleDiffers(t.elem, zeroed);
    v, s := DiffersInArray(t.elem, t.len, w, s0, zeroed);
  }

  lemma VariantDiffers(t: Ty, zeroed: bool) returns (v: Value, s: seq<byte>)
    requires t.TEnum? && Valid(t) && !Eligible(t, zeroed)
    ensures Differs(t, v, s, zeroed)
  {
    var i: nat :| i < |t.variants| && !EligibleVariant(t.tag, i, t.variants[i], zeroed);
    v, s := DiffersInVariant(t, i, zeroed);
  }

  /** `concat_array` does nothing for these, and their `FIXED_SIZE` is 0. */
  lemma Ignored(t: Ty, zeroed: bool) returns (v: Value, s: seq<byte>)
    requires t.TUnit? || t.TString? || t.TOption? || t.TVec?
    ensures Differs(t, v, s, zeroed)
  {
    s := [];
    v := if t.TUnit? then VUnit else if t.TString? then VString([]) else if t.TOption? then VNone else VList([]);
  }

  lemma DiffersInVariant(t: Ty, i: nat, zeroed: bool) returns (v: Value, s: seq<byte>)
    requires t.TEnum? && Valid(t) && i < |t.variants| && !EligibleVariant(t.tag, i, t.variants[i], zeroed)
    ensures Differs(t, v, s, zeroed)
  {
    var ts, c := t.variants[i].fields, EncodeInt(t.tag, i);
    v := VVariant(i, Defaults(ts));
    if zeroed {
      s := Zeros(t.tag);
      EmptyFields(ts, Defaults(ts));
      if AllEmpty(ts) { assert Encode(t, v) == c; }
    } else {
      s := seq(t.tag, k requires 0 <= k < t.tag => if c[k] == 0 then 1 else 0);
      assert Encode(t, v)[0] == c[0] && s[0] != c[0];
    }
  }

  lemma DiffersInArray(e: Ty, n: nat, w: Value, s0: seq<byte>, zeroed: bool) returns (v: Value, s: seq<byte>)
    requires Valid(e) && n > 0 && Differs(e, w, s0, zeroed)
    ensures Differs(TArray(e, n), v, s, zeroed)
  {
    var rest := Repeat(e, Default(e), n - 1);
    var z: seq<byte> := Zeros(Sum(WireSize(e), n - 1));
    v, s := VList([w] + rest), s0 + z;
    assert ([w] + rest)[1..] == rest;
    DiffersInFirst(e, w, rest, s0, z, zeroed);
    SumIsProduct(WireSize(e), n);
  }

  lemma DiffersInFirst(e: Ty, w: Value, rest: seq<Value>, s0: seq<byte>, z: seq<byte>, zeroed: bool)
    requires Differs(e, w, s0, zeroed) && AllHaveType(e, rest) && |z| == Sum(WireSize(e), |rest|)
    ensures ConcatAll(e, [w] + rest, s0 + z) != EncodeAll(e, [w] + rest)
  {
    var vs, s := [w] + rest, s0 + z;
    assert vs[1..] == rest && s[..WireSize(e)] == s0 && s[WireSize(e)..] == z;
    SizeOfValue(e, w);
    SizeOfValues(e, rest);
    SumIsProduct(WireSize(e), |rest|);
    JoinInjective(Concat(e, w, s0), ConcatAll(e, rest, z), Encode(e, w), EncodeAll(e, rest));
  }

  lemma {:induction false} IneligibleFieldDiffers(ts: seq<Ty>, zeroed: bool) returns (vs: seq<Value>, s: seq<byte>)
    requires AllValid(ts) && !AllEligible(ts, zeroed)
    ensures FieldsDiffer(ts, vs, s, zeroed)
    decreases ts, 0, 0
  {
    var v, rest := Default(ts[0]), Defaults(ts[1..]);
    var s0, z := Zeros(WireSize(ts[0])), Zeros(WireSizes(ts[1..]));
    if !Eligible(ts[0], zeroed) {
      v, s0 := IneligibleDiffers(ts[0], zeroed);
    } else {
      rest, z := IneligibleFieldDiffers(ts[1..], zeroed);
    }
    vs, s := [v] + rest, s0 + z;
    DiffersInFields(ts, v, rest, s0, z);
  }

  lemma DiffersInFields(ts: seq<Ty>, v: Value, rest: seq<Value>, s0: seq<byte>, z: seq<byte>)
    requires ts != [] && HasType(ts[0], v) && FieldsHaveType(ts[1..], rest)
    requires |s0| == WireSize(ts[0]) && |z| == WireSizes(ts[1..])
    requires Concat(ts[0], v, s0) != Encode(ts[0], v) || ConcatFields(ts[1..], rest, z) != EncodeFields(ts[1..], rest)
    ensures FieldsHaveType(ts, [v] + rest) && ConcatFields(ts, [v] + rest, s0 + z) != EncodeFields(ts, [v] + rest)
  {
    var vs, s := [v] + rest, s0 + z;
    assert vs[1..] == rest && s[..WireSize(ts[0])] == s0 && s[WireSize(ts[0])..] == z;
    SizeOfValue(ts[0], v);
    SizeOfFieldValues(ts[1..], rest);
    JoinInjective(Concat(ts[0], v, s0), ConcatFields(ts[1..], rest, z), Encode(ts[0], v), EncodeFields(ts[1..], rest));
  }

  /** `concat_array` writes exactly the encoding, framed, for the eligible types and no others. */
  lemma ExactExactlyWhenEligible(t: Ty, zeroed: bool)
    requires Valid(t)
    ensures Eligible(t, zeroed) <==> forall v, s :: Exact(t, v, s, zeroed)
  {
    if Eligible(t, zeroed) {
      forall v, s ensures Exact(t, v, s, zeroed) {
        if HasType(t, v) && |s| >= WireSize(t) && (zeroed ==> IsZeros(s)) { EligibleIsExact(t, v, s, zeroed); }
      }
    } else {
      var v, s := IneligibleDiffers(t, zeroed);
      assert Encode(t, v) + s[WireSize(t)..] == Encode(t, v);
      assert !Exact(t, v, s, zeroed);
    }
  }

  /** Of these nothing is written, and of a variant with fields not even its tag. */
  lemma ConcatSkips(t: Ty, v: Value, s: seq<byte>)
    requires t.TUnit? || t.TString? || t.TOption? || t.TVec? || (t.TEnum? && HasType(t, v) && !t.variants[v.index].unit)
    ensures Concat(t, v, s) == s
  {
  }

  /** A variant without fields is its tag, and a unit struct is a 1, where its encoding is a 0. */
  lemma ConcatUnits(t: Ty, v: Value)
    requires t.TUnitStruct? || (t.TEnum? && HasType(t, v) && t.variants[v.index].unit)
    ensures Concat(t, v, Zeros(WireSize(t))) == if t.TUnitStruct? then [1] else EncodeInt(t.tag, v.index)
  {
  }

  // ----- in place -----

  /** A slice longer than `FIXED_SIZE` is only touched in front, whatever the type. */
  lemma {:induction false} ConcatTouchesFront(t: Ty, v: Value, s: seq<byte>)
    requires HasType(t, v) && |s| >= WireSize(t)
    ensures Concat(t, v, s) == Concat(t, v, s[..WireSize(t)]) + s[WireSize(t)..]
    decreases t, 1, 0
  {
    var w := WireSize(t);
    assert s[..w] + s[w..] == s;
    match t
    case TArray(e, n) =>
      SumIsProduct(WireSize(e), n);
      AllTouchFront(e, v.vs, s);
    case TTuple(ts) => FieldsTouchFront(ts, v.vs, s);
    case TStruct(ts, _) => FieldsTouchFront(ts, v.vs, s);
    case _ =>
  }

  lemma {:induction false} AllTouchFront(t: Ty, vs: seq<Value>, s: seq<byte>)
    requires AllHaveType(t, vs) && |s| >= Sum(WireSize(t), |vs|)
    ensures ConcatAll(t, vs, s) == ConcatAll(t, vs, s[..Sum(WireSize(t), |vs|)]) + s[Sum(WireSize(t), |vs|)..]
    decreases t, 1, |vs| + 1
  {
    if vs != [] {
      var w, k := WireSize(t), Sum(WireSize(t), |vs|);
      var x, rest := Concat(t, vs[0], s[..w]), vs[1..];
      SliceTwice(s, w, k);
      AllTouchFront(t, rest, s[w..]);
      assert ConcatAll(t, vs, s) == x + ConcatAll(t, rest, s[w..]);
      assert ConcatAll(t, vs, s[..k]) == x + ConcatAll(t, rest, s[w..][..k - w]);
      Assoc(x, ConcatAll(t, rest, s[w..][..k - w]), s[k..]);
    }
  }

  lemma SliceTwice(s: seq<byte>, w: nat, k: nat)
    requires w <= k <= |s|
    ensures s[..k][..w] == s[..w] && s[..k][w..] == s[w..][..k - w] && s[w..][k - w..] == s[k..]
  {
  }

  lemma {:induction false} FieldsTouchFront(ts: seq<Ty>, vs: seq<Value>, s: seq<byte>)
    requires FieldsHaveType(ts, vs) && |s| >= WireSizes(ts)
    ensures ConcatFields(ts, vs, s) == ConcatFields(ts, vs, s[..WireSizes(ts)]) + s[WireSizes(ts)..]
    decreases ts, 0, 0
  {
    if ts != [] {
      var w, k := WireSize(ts[0]), WireSizes(ts);
      FieldsTouchFront(ts[1..], vs[1..], s[w..]);
      SliceTwice(s, w, k);
    }
  }

  /** From `b` to `c`, `lo..hi` was overwritten with `r` and nothing else changed. */
  predicate Rewrote(b: seq<byte>, c: seq<byte>, lo: nat, hi: nat, r: seq<byte>) {
    lo <= hi <= |b| && |r| == hi - lo && c == b[..lo] + r + b[hi..]
  }

  lemma RewroteTwice(b: seq<byte>, c: seq<byte>, d: seq<byte>, lo: nat, mid: nat, hi: nat, x: seq<byte>, y: seq<byte>)
    requires Rewrote(b, c, lo, mid, x) && Rewrote(c, d, mid, hi, y)
    ensures Rewrote(b, d, lo, hi, x + y)
  {
    assert c[..mid] == b[..lo] + x && c[hi..] == b[hi..];
  }

  lemma RewroteLess(b: seq<byte>, c: seq<byte>, lo: nat, mid: nat, hi: nat, x: seq<byte>)
    requires Rewrote(b, c, lo, mid, x) && mid <= hi <= |b|
    ensures Rewrote(b, c, lo, hi, x + b[mid..hi]) && c[mid..hi] == b[mid..hi]
  {
    assert b[mid..] == b[mid..hi] + b[hi..];
    assert c[mid..hi] == b[mid..hi];
  }

  /** `concat_array` on the slice `lo..hi` of a buffer. */
  method ConcatInto(t: Ty, v: Value, buf: array<byte>, lo: nat, hi: nat)
    requires HasType(t, v) && lo + WireSize(t) <= hi <= buf.Length
    modifies buf
    ensures Rewrote(old(buf[..]), buf[..], lo, hi, Concat(t, v, old(buf[lo..hi])))
    decreases t, 1, 0
  {
    match t
    case TInt(w, _) => CopyFrom(buf, lo, hi, EncodeInt(w, v.n));
    case TFloat(w) => CopyFrom(buf, lo, hi, EncodeInt(w, v.n));
    case TBool => CopyFrom(buf, lo, hi, [if v.b then 1 else 0]);
    case TUnitStruct => CopyFrom(buf, lo, hi, [1]);
    case TArray(e, n) =>
      SumIsProduct(WireSize(e), n);
      ConcatElements(e, v.vs, buf, lo, hi);
    case TTuple(ts) => ConcatFieldsInto(ts, v.vs, true, buf, lo, hi);
    case TStruct(ts, _) => ConcatFieldsInto(ts, v.vs, false, buf, lo, hi);
    case TEnum(tag, variants) =>
      CopyFrom(buf, lo, hi, if variants[v.index].unit then EncodeInt(tag, v.index) else []);
    case _ => CopyFrom(buf, lo, hi, []);
  }

  method CopyFrom(buf: array<byte>, lo: nat, hi: nat, bytes: seq<byte>)
    requires lo + |bytes| <= hi <= buf.Length
    modifies buf
    ensures Rewrote(old(buf[..]), buf[..], lo, hi, Paste(bytes, old(buf[lo..hi])))
  {
    for i := 0 to |bytes|
      invariant forall j :: 0 <= j < i ==> buf[lo + j] == bytes[j]
      invariant forall j :: 0 <= j < buf.Length && !(lo <= j < lo + i) ==> buf[j] == old(buf[j])
    {
      buf[lo + i] := bytes[i];
    }
    CopiedIsRewrote(old(buf[..]), buf[..], lo, hi, bytes);
  }

  lemma CopiedIsRewrote(b: seq<byte>, c: seq<byte>, lo: nat, hi: nat, bytes: seq<byte>)
    requires lo + |bytes| <= hi <= |b| == |c|
    requires forall j :: 0 <= j < |bytes| ==> c[lo + j] == bytes[j]
    requires forall j :: 0 <= j < |c| && !(lo <= j < lo + |bytes|) ==> c[j] == b[j]
    ensures Rewrote(b, c, lo, hi, Paste(bytes, b[lo..hi]))
  {
    ThreeParts(c, lo, hi);
    var r, k := c[lo..hi], |bytes|;
    assert r[..k] == bytes && r[k..] == b[lo..hi][k..];
    assert r == r[..k] + r[k..];
    assert c[..lo] == b[..lo];
    assert c[hi..] == b[hi..];
  }

  lemma ThreeParts(c: seq<byte>, lo: nat, hi: nat)
    requires lo <= hi <= |c|
    ensures c == c[..lo] + c[lo..hi] + c[hi..]
  {
  }

  /** `done` was written to `lo..start`, and writing the elements `left` behind it completes the array. */
  ghost predicate Midway(e: Ty, vs: seq<Value>, left: seq<Value>, b: seq<byte>, c: seq<byte>, lo: nat, start: nat, hi: nat, done: seq<byte>) {
    && Rewrote(b, c, lo, start, done) && start + Sum(WireSize(e), |left|) <= hi <= |b|
    && done + ConcatAll(e, left, b[start..hi]) == ConcatAll(e, vs, b[lo..hi])
  }

  lemma MidwayStep(e: Ty, vs: seq<Value>, left: seq<Value>, b: seq<byte>, c: seq<byte>, d: seq<byte>, lo: nat, start: nat, end: nat, hi: nat, done: seq<byte>, r: seq<byte>)
    requires Midway(e, vs, left, b, c, lo, start, hi, done) && left != [] && end == start + WireSize(e)
    requires end <= |c| && r == Concat(e, left[0], c[start..end]) && Rewrote(c, d, start, end, r)
    ensures Midway(e, vs, left[1..], b, d, lo, end, hi, done + r)
  {
    RewroteLess(b, c, lo, start, end, done);
    RewroteTwice(b, c, d, lo, start, end, done, r);
    ElementSplit(e, left, b, start, end, hi, done);
  }

  lemma ElementSplit(e: Ty, left: seq<Value>, b: seq<byte>, start: nat, end: nat, hi: nat, done: seq<byte>)
    requires left != [] && start + WireSize(e) == end <= hi <= |b|
    ensures done + ConcatAll(e, left, b[start..hi])
      == done + Concat(e, left[0], b[start..end]) + ConcatAll(e, left[1..], b[end..hi])
  {
    var s := b[start..hi];
    assert s[..WireSize(e)] == b[start..end] && s[WireSize(e)..] == b[end..hi];
  }

  lemma MidwayEnd(e: Ty, vs: seq<Value>, b: seq<byte>, c: seq<byte>, lo: nat, start: nat, hi: nat, done: seq<byte>)
    requires Midway(e, vs, [], b, c, lo, start, hi, done)
    ensures Rewrote(b, c, lo, hi, ConcatAll(e, vs, b[lo..hi]))
  {
    RewroteLess(b, c, lo, start, hi, done);
  }

  /** `start..end` moves over the elements. */
  method ConcatElements(e: Ty, vs: seq<Value>, buf: array<byte>, lo: nat, hi: nat)
    requires AllHaveType(e, vs) && lo + Sum(WireSize(e), |vs|) <= hi <= buf.Length
    modifies buf
    ensures Rewrote(old(buf[..]), buf[..], lo, hi, ConcatAll(e, vs, old(buf[lo..hi])))
    decreases e, 2, 0
  {
    var start: nat := lo;
    ghost var b, done, left := buf[..], [], vs;
    for i := 0 to |vs|
      invariant left == vs[i..] && AllHaveType(e, left)
      invariant Midway(e, vs, left, b, buf[..], lo, start, hi, done)
    {
      var end := start + WireSize(e);
      ghost var c := buf[..];
      ghost var r := Concat(e, left[0], c[start..end]);
      ConcatInto(e, vs[i], buf, start, end);
      MidwayStep(e, vs, left, b, c, buf[..], lo, start, end, hi, done, r);
      start, done, left := end, done + r, left[1..];
    }
    MidwayEnd(e, vs, b, buf[..], lo, start, hi, done);
  }

  /** `split_at_mut` per field; the last field of a tuple is given all that is left. */
  method ConcatFieldsInto(ts: seq<Ty>, vs: seq<Value>, tuple: bool, buf: array<byte>, lo: nat, hi: nat)
    requires FieldsHaveType(ts, vs) && lo + WireSizes(ts) <= hi <= buf.Length
    modifies buf
    ensures Rewrote(old(buf[..]), buf[..], lo, hi, ConcatFields(ts, vs, old(buf[lo..hi])))
    decreases ts, 0, 0
  {
    ghost var b, s := buf[..], buf[lo..hi];
    if ts == [] { return; }
    var mid := lo + WireSize(ts[0]);
    assert s[..mid - lo] == b[lo..mid] && s[mid - lo..] == b[mid..hi];
    if tuple && |ts| == 1 {
      ConcatTouchesFront(ts[0], vs[0], s);
      assert ConcatFields(ts, vs, s) == Concat(ts[0], vs[0], s);
      ConcatInto(ts[0], vs[0], buf, lo, hi);
    } else {
      ConcatInto(ts[0], vs[0], buf, lo, mid);
      ghost var c := buf[..];
      RewroteLess(b, c, lo, mid, hi, Concat(ts[0], vs[0], b[lo..mid]));
      ConcatFieldsInto(ts[1..], vs[1..], tuple, buf, mid, hi);
      RewroteTwice(b, c, buf[..], lo, mid, hi, Concat(ts[0], vs[0], b[lo..mid]), ConcatFields(ts[1..], vs[1..], b[mid..hi]));
    }
  }

  /** The buffer of a group of fixed fields: zeros that `concat_array` fills. */
  method GroupBytes(ts: seq<Ty>, vs: seq<Value>) returns (bytes: seq<byte>)
    requires AllEligible(ts, true) && FieldsHaveType(ts, vs)
    ensures bytes == EncodeFields(ts, vs)
  {
    var size := WireSizes(ts);
    var buf := new byte[size](_ => 0);
    ghost var zeros := buf[..];
    assert buf[0..size] == zeros && IsZeros(zeros);
    FieldsExact(ts, vs, zeros, true);
    ConcatFieldsInto(ts, vs, false, buf, 0, size);
    bytes := buf[..];
  }
}
