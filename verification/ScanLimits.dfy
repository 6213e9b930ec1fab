/** Exactly which types the pre-scan measures correctly. */
module ScanLimits {
  import opened Bytes
  import opened Sums
  import opened WireTypes
  import opened Codec
  import opened ZeroValues
  import opened Capacity
  import opened PreScan

  // ----- FIXED_SIZE is a lower bound, attained by rigid types only -----

  ghost predicate SizeFits(t: Ty, n: nat) {
    if Rigid(t) then n == UnwireSize(t) else n > UnwireSize(t)
  }

  lemma {:induction false} SizeOfEncoding(t: Ty, v: Value)
    requires Valid(t) && HasType(t, v)
    ensures SizeFits(t, |Encode(t, v)|)
    decreases t, 1, 0
  {
    match t
    case TArray(e, n) =>
      SumIsProduct(UnwireSize(e), n);
      if n > 0 { SizeOfAll(e, v.vs); }
    case TTuple(ts) => SizeOfFields(ts, v.vs);
    case TStruct(ts, _) => SizeOfFields(ts, v.vs);
    case _ =>
  }

  lemma {:induction false} SizeOfAll(t: Ty, vs: seq<Value>)
    requires Valid(t) && AllHaveType(t, vs)
    ensures |EncodeAll(t, vs)| >= Sum(UnwireSize(t), |vs|)
    ensures vs != [] ==> (Rigid(t) <==> |EncodeAll(t, vs)| == Sum(UnwireSize(t), |vs|))
    decreases t, 1, |vs| + 1
  {
    if vs != [] {
      SizeOfEncoding(t, vs[0]);
      SizeOfAll(t, vs[1..]);
    }
  }

  lemma {:induction false} SizeOfFields(ts: seq<Ty>, vs: seq<Value>)
    requires AllValid(ts) && FieldsHaveType(ts, vs)
    ensures |EncodeFields(ts, vs)| >= UnwireSizes(ts)
    ensures AllRigid(ts) <==> |EncodeFields(ts, vs)| == UnwireSizes(ts)
    decreases ts, 0, 0
  {
    if ts != [] {
      SizeOfEncoding(ts[0], vs[0]);
      SizeOfFields(ts[1..], vs[1..]);
    }
  }

  // ----- what scans to its end -----

  ghost predicate AllScan(t: Ty, n: nat, s: seq<byte>) {
    forall b, pos: nat :: Stands(b, pos, s) ==> ScanAll(t, n, b, pos) == Ok((), pos + |s|)
  }

  ghost predicate EachScan(t: Ty, n: nat, s: seq<byte>)
    requires !IsFlat(t) && !t.TArray?
  {
    forall b, pos: nat :: Stands(b, pos, s) ==> ScanEach(t, n, b, pos) == Ok((), pos + |s|)
  }

  ghost predicate OneScans(t: Ty, s: seq<byte>)
    requires !IsFlat(t) && !t.TArray?
  {
    forall b, pos: nat :: Stands(b, pos, s) ==> ScanOne(t, b, pos) == Ok((), pos + |s|)
  }

  ghost predicate FieldsScan(ts: seq<Ty>, s: seq<byte>) {
    forall b, pos: nat :: Stands(b, pos, s) ==> ScanFields(ts, b, pos) == Ok((), pos + |s|)
  }

  lemma EachScanCons(t: Ty, n: nat, s: seq<byte>, z: seq<byte>)
    requires !IsFlat(t) && !t.TArray? && OneScans(t, s) && EachScan(t, n, z)
    ensures EachScan(t, n + 1, s + z)
  {
    forall b, pos: nat | Stands(b, pos, s + z) ensures ScanEach(t, n + 1, b, pos) == Ok((), pos + |s + z|) {
      StandsSplit(b, pos, s, z);
    }
  }

  lemma FieldsScanCons(ts: seq<Ty>, s: seq<byte>, z: seq<byte>)
    requires ts != [] && AllScan(ts[0], 1, s) && FieldsScan(ts[1..], z)
    ensures FieldsScan(ts, s + z)
  {
    forall b, pos: nat | Stands(b, pos, s + z) ensures ScanFields(ts, b, pos) == Ok((), pos + |s + z|) {
      StandsSplit(b, pos, s, z);
    }
  }

  lemma ScansOption(e: Ty, s: seq<byte>)
    requires AllScan(e, 1, s)
    ensures OneScans(TOption(e), [1] + s)
  {
    forall b, pos: nat | Stands(b, pos, [1] + s) ensures ScanOne(TOption(e), b, pos) == Ok((), pos + 1 + |s|) {
      StandsSplit(b, pos, [1], s);
      ReadByteBack(b, pos, 1);
    }
  }

  lemma ScansVec(e: Ty, n: nat, s: seq<byte>)
    requires n < U64_LIMIT && 0 <= UnwireSize(e) * n
    requires if UnwireMixed(e) then AllScan(e, n, s) else |s| == Wrap(UnwireSize(e) * n)
    ensures OneScans(TVec(e), EncodeInt(8, n) + s)
  {
    U64Limit();
    forall b, pos: nat | Stands(b, pos, EncodeInt(8, n) + s) ensures ScanOne(TVec(e), b, pos) == Ok((), pos + 8 + |s|) {
      StandsSplit(b, pos, EncodeInt(8, n), s);
      ReadIntBack(b, pos, 8, n);
    }
  }

  lemma ScansEnum(t: Ty, i: nat, s: seq<byte>)
    requires t.TEnum? && i < |t.variants| && i < Pow256(t.tag) && FieldsScan(t.variants[i].fields, s)
    ensures OneScans(t, EncodeInt(t.tag, i) + s)
  {
    forall b, pos: nat | Stands(b, pos, EncodeInt(t.tag, i) + s) ensures ScanOne(t, b, pos) == Ok((), pos + t.tag + |s|) {
      StandsSplit(b, pos, EncodeInt(t.tag, i), s);
      ReadIntBack(b, pos, t.tag, i);
    }
  }

  // ----- zeros, at most as many as default values take -----

  lemma {:induction false} ZerosScanAll(t: Ty, n: nat) returns (j: nat)
    requires Valid(t)
    ensures AllScan(t, n, Zeros(j)) && j <= Sum(DefaultSize(t), n)
    decreases t, 2
  {
    if IsFlat(t) {
      SumIsProduct(FlatSize(t), n);
      j := Wrap(FlatSize(t) * n);
    } else if t.TArray? {
      var c := t.len * n;
      SumOfSums(DefaultSize(t.elem), t.len, n);
      ArraySize(t.elem, t.len);
      j := ZerosScanAll(t.elem, Wrap(c));
      SumGrows(DefaultSize(t.elem), DefaultSize(t.elem), Wrap(c), c);
    } else {
      var k := ZerosScanOne(t);
      ZerosScanEach(t, n, k);
      SumGrows(k, DefaultSize(t), n, n);
      j := Sum(k, n);
    }
  }

  lemma {:induction false} ZerosScanEach(t: Ty, n: nat, k: nat)
    requires !IsFlat(t) && !t.TArray? && OneScans(t, Zeros(k))
    ensures EachScan(t, n, Zeros(Sum(k, n)))
  {
    if n > 0 {
      ZerosScanEach(t, n - 1, k);
      EachScanCons(t, n - 1, Zeros(k), Zeros(Sum(k, n - 1)));
      ZerosAdd(k, Sum(k, n - 1));
    }
  }

  lemma {:induction false} ZerosScanOne(t: Ty) returns (j: nat)
    requires Valid(t) && !IsFlat(t) && !t.TArray?
    ensures OneScans(t, Zeros(j)) && j <= DefaultSize(t)
    decreases t, 0
  {
    if t.TTuple? || t.TStruct? {
      j := ZerosScanFields(t.fields);
    } else if t.TEnum? {
      var k := ZerosScanFields(t.variants[0].fields);
      j := t.tag + k;
      EnumSize(t);
      ZeroInt(t.tag);
      ScansEnum(t, 0, Zeros(k));
      ZerosAdd(t.tag, k);
    } else {
      j := ZeroHead(t);
    }
  }

  /** A length of 0 in front of nothing, or a byte 0. */
  lemma ZeroHead(t: Ty) returns (j: nat)
    requires Valid(t) && (t.TString? || t.TVec? || t.TOption?)
    ensures OneScans(t, Zeros(j)) && j <= DefaultSize(t)
  {
    if t.TOption? {
      j := 1;
      ZeroOption(t.some);
    } else {
      j := 8;
      ZeroLength(t);
    }
  }

  lemma ZeroOption(e: Ty)
    ensures OneScans(TOption(e), Zeros(1))
  {
    assert Zeros(1) == [0];
    forall b, pos: nat | Stands(b, pos, [0]) ensures ScanOne(TOption(e), b, pos) == Ok((), pos + 1) {
      ReadByteBack(b, pos, 0);
    }
  }

  lemma ZeroLength(t: Ty)
    requires t.TString? || t.TVec?
    ensures OneScans(t, Zeros(8))
  {
    ZeroInt(8);
    forall b, pos: nat | Stands(b, pos, EncodeInt(8, 0)) ensures ScanOne(t, b, pos) == Ok((), pos + 8) {
      ReadIntBack(b, pos, 8, 0);
      if t.TVec? { ScanNone(t.elem, b, pos + 8); }
    }
  }

  lemma {:induction false} ZerosScanFields(ts: seq<Ty>) returns (j: nat)
    requires AllValid(ts)
    ensures FieldsScan(ts, Zeros(j)) && j <= DefaultSizes(ts)
    decreases ts, 0
  {
    j := 0;
    if ts != [] {
      var k := ZerosScanAll(ts[0], 1);
      var l := ZerosScanFields(ts[1..]);
      j := k + l;
      FieldsScanCons(ts, Zeros(k), Zeros(l));
      ZerosAdd(k, l);
      DefaultsBytes(ts);
    }
  }

  // ----- a value that is scanned too short -----

  /**
   A value whose encoding is `head` and then `rest` zeros.  The scan gets past `head` and `scanned`
   of the zeros, too few of them.
   */
  datatype Stub<V> = Stub(value: V, head: seq<byte>, rest: nat, scanned: nat)

  function Front<V>(x: Stub<V>): seq<byte> {
    x.head + Zeros(x.scanned)
  }

  ghost predicate Spells(cap: Machine, t: Ty, x: Stub<Value>) {
    HasType(t, x.value) && Modest(cap, t, x.value) && Encode(t, x.value) == x.head + Zeros(x.rest)
  }

  ghost predicate FieldsSpell(cap: Machine, ts: seq<Ty>, x: Stub<seq<Value>>) {
    FieldsHaveType(ts, x.value) && FieldsModest(cap, ts, x.value) && EncodeFields(ts, x.value) == x.head + Zeros(x.rest)
  }

  /** The first of `n` values, of which the others are default ones. */
  ghost predicate Short(cap: Machine, t: Ty, n: nat, x: Stub<Value>)
    requires Valid(t) && n > 0
  {
    && Spells(cap, t, x)
    && AllScan(t, n, Front(x)) && x.scanned < x.rest + Sum(DefaultSize(t), n - 1)
  }

  ghost predicate OneShort(cap: Machine, t: Ty, x: Stub<Value>)
    requires !IsFlat(t) && !t.TArray?
  {
    && Spells(cap, t, x)
    && OneScans(t, Front(x)) && x.scanned < x.rest
  }

  ghost predicate FieldsShort(cap: Machine, ts: seq<Ty>, x: Stub<seq<Value>>) {
    && FieldsSpell(cap, ts, x)
    && FieldsScan(ts, Front(x)) && x.scanned < x.rest
  }

  /** Why counting `n` values of a type may go wrong. */
  predicate Risky(cap: Machine, t: Ty, n: nat) {
    !Scannable(t) || !NoWrapInside(cap, t) || !Counts(t, n)
  }

  lemma {:induction false} EmptyIsNotRisky(cap: Machine, t: Ty, n: nat)
    requires Empty(t)
    ensures !Risky(cap, t, n)
  {
    EmptyIsRigid(t);
    RigidIsScannable(t);
    EmptyHasNothingInside(cap, t);
  }

  lemma {:induction false} RigidIsScannable(t: Ty)
    requires Rigid(t)
    ensures Scannable(t)
    decreases t, 1
  {
    match t
    case TArray(e, n) => if n > 0 { RigidIsScannable(e); }
    case TTuple(ts) => AllRigidAreScannable(ts);
    case TStruct(ts, _) => AllRigidAreScannable(ts);
    case _ =>
  }

  lemma {:induction false} AllRigidAreScannable(ts: seq<Ty>)
    requires AllRigid(ts)
    ensures AllScannable(ts)
    decreases ts, 0
  {
    if ts != [] {
      RigidIsScannable(ts[0]);
      AllRigidAreScannable(ts[1..]);
    }
  }

  lemma CountsInArray(e: Ty, m: nat, n: nat)
    requires 0 <= m * n && !Counts(TArray(e, m), n)
    ensures !Counts(e, m * n)
  {
    var w := Stride(e);
    assert Stride(TArray(e, m)) == m * w;
    assert (m * w) * n == w * (m * n);
  }

  /** A count that wraps around leaves out some of the default values. */
  lemma {:induction false} CountFallsShort(t: Ty, n: nat) returns (j: nat)
    requires Valid(t) && n < U64_LIMIT && !Counts(t, n)
    ensures AllScan(t, n, Zeros(j)) && j < Sum(DefaultSize(t), n)
    decreases t
  {
    if IsFlat(t) {
      SumIsProduct(FlatSize(t), n);
      j := Wrap(FlatSize(t) * n);
    } else if t.TArray? {
      var e, c := t.elem, t.len * n;
      SumOfSums(DefaultSize(e), t.len, n);
      ArraySize(e, t.len);
      if c < U64_LIMIT {
        CountsInArray(e, t.len, n);
        j := CountFallsShort(e, c);
      } else {
        j := ZerosScanAll(e, Wrap(c));
        DefaultBytes(e);
        SumGrows(DefaultSize(e), DefaultSize(e), Wrap(c), c);
      }
    } else {
      assert false;
    }
  }

  lemma CountingIsShort(cap: Machine, t: Ty, n: nat) returns (x: Stub<Value>)
    requires Valid(t) && 0 < n < U64_LIMIT && !Counts(t, n)
    ensures Short(cap, t, n, x)
  {
    var j := CountFallsShort(t, n);
    x := Stub(Default(t), [], DefaultSize(t), j);
    DefaultBytes(t);
    DefaultIsModest(cap, t);
    assert Front(x) == Zeros(j) && [] + Zeros(x.rest) == Zeros(x.rest);
  }

  lemma InFront(cap: Machine, e: Ty, v: Value, vs: seq<Value>)
    requires HasType(e, v) && Modest(cap, e, v) && AllHaveType(e, vs) && AllModest(cap, e, vs)
    ensures var ws := [v] + vs;
      AllHaveType(e, ws) && AllModest(cap, e, ws) && EncodeAll(e, ws) == Encode(e, v) + EncodeAll(e, vs)
  {
    assert ([v] + vs)[1..] == vs;
  }

  /** A value in front of default ones. */
  lemma FirstOfMany(cap: Machine, e: Ty, n: nat, x: Stub<Value>) returns (vs: seq<Value>)
    requires Valid(e) && n > 0 && Spells(cap, e, x)
    ensures |vs| == n && AllHaveType(e, vs) && AllModest(cap, e, vs)
    ensures EncodeAll(e, vs) == x.head + Zeros(x.rest + Sum(DefaultSize(e), n - 1))
  {
    var others := Repeat(e, Default(e), n - 1);
    vs := [x.value] + others;
    RepeatBytes(e, n - 1);
    RepeatIsModest(cap, e, n - 1);
    InFront(cap, e, x.value, others);
    ZerosBehind(x.head, x.rest, Sum(DefaultSize(e), n - 1));
  }

  lemma ArrayOf(cap: Machine, e: Ty, vs: seq<Value>)
    requires AllHaveType(e, vs) && AllModest(cap, e, vs)
    ensures var t, v := TArray(e, |vs|), VList(vs);
      HasType(t, v) && Modest(cap, t, v) && Encode(t, v) == EncodeAll(e, vs)
  {
  }

  lemma VecOf(cap: Machine, e: Ty, vs: seq<Value>)
    requires AllHaveType(e, vs) && AllModest(cap, e, vs) && |vs| <= cap(e)
    ensures var t, v := TVec(e), VList(vs);
      HasType(t, v) && Modest(cap, t, v) && Encode(t, v) == EncodeInt(8, |vs|) + EncodeAll(e, vs)
  {
  }

  lemma SpellsArray(cap: Machine, e: Ty, m: nat, x: Stub<Value>) returns (y: Stub<Value>)
    requires Valid(e) && m > 0 && Spells(cap, e, x)
    ensures Spells(cap, TArray(e, m), y)
    ensures y.head == x.head && y.rest == x.rest + Sum(DefaultSize(e), m - 1) && y.scanned == x.scanned
  {
    var vs := FirstOfMany(cap, e, m, x);
    y := Stub(VList(vs), x.head, x.rest + Sum(DefaultSize(e), m - 1), x.scanned);
    ArrayOf(cap, e, vs);
  }

  lemma OthersInArrays(d: nat, m: nat, n: nat)
    requires m > 0 && n > 0
    ensures m * n > 0 && Sum(d, m * n - 1) == Sum(d, m - 1) + Sum(Sum(d, m), n - 1)
  {
    Times(m, n);
    SumOfSums(d, m, n - 1);
    SumAdds(d, m - 1, m * (n - 1));
  }

  lemma ArrayScans(e: Ty, m: nat, n: nat, s: seq<byte>)
    requires 0 <= m * n < U64_LIMIT && AllScan(e, m * n, s)
    ensures AllScan(TArray(e, m), n, s)
  {
  }

  /** The value as the first element of an array. */
  lemma ShortArray(cap: Machine, e: Ty, m: nat, n: nat, x: Stub<Value>) returns (y: Stub<Value>)
    requires Valid(e) && m > 0 && n > 0 && 0 < m * n < U64_LIMIT && Short(cap, e, m * n, x)
    ensures Short(cap, TArray(e, m), n, y)
  {
    y := SpellsArray(cap, e, m, x);
    ArraySize(e, m);
    OthersInArrays(DefaultSize(e), m, n);
    ArrayScans(e, m, n, Front(x));
    assert Front(y) == Front(x);
  }

  lemma ZerosBehind(s: seq<byte>, m: nat, n: nat)
    ensures (s + Zeros(m)) + Zeros(n) == s + Zeros(m + n)
  {
    ZerosAdd(m, n);
    Assoc(s, Zeros(m), Zeros(n));
  }

  lemma EachIsAll(t: Ty, n: nat, s: seq<byte>)
    requires !IsFlat(t) && !t.TArray? && EachScan(t, n, s)
    ensures AllScan(t, n, s)
  {
  }

  lemma ZerosBehindEach(t: Ty, n: nat, s: seq<byte>, k: nat)
    requires !IsFlat(t) && !t.TArray? && n > 0 && OneScans(t, s) && OneScans(t, Zeros(k))
    ensures AllScan(t, n, s + Zeros(Sum(k, n - 1)))
  {
    var z := Zeros(Sum(k, n - 1));
    ZerosScanEach(t, n - 1, k);
    EachScanCons(t, n - 1, s, z);
    EachIsAll(t, n, s + z);
  }

  lemma ShortEach(cap: Machine, t: Ty, n: nat, x: Stub<Value>) returns (y: Stub<Value>)
    requires Valid(t) && !IsFlat(t) && !t.TArray? && n > 0 && OneShort(cap, t, x)
    ensures Short(cap, t, n, y)
  {
    var k := ZerosScanOne(t);
    var z := Sum(k, n - 1);
    y := Stub(x.value, x.head, x.rest, x.scanned + z);
    SumGrows(k, DefaultSize(t), n - 1, n - 1);
    ZerosBehindEach(t, n, Front(x), k);
    ZerosBehind(x.head, x.scanned, z);
    assert Front(y) == Front(x) + Zeros(z);
    assert Spells(cap, t, y);
    assert y.scanned < y.rest + Sum(DefaultSize(t), n - 1);
  }

  lemma ShortOption(cap: Machine, e: Ty, x: Stub<Value>) returns (y: Stub<Value>)
    requires Valid(e) && Short(cap, e, 1, x)
    ensures OneShort(cap, TOption(e), y)
  {
    y := x.(value := VSome(x.value), head := [1] + x.head);
    Assoc([1], x.head, Zeros(x.rest));
    Assoc([1], x.head, Zeros(x.scanned));
    ScansOption(e, Front(x));
  }

  /** The fewest elements whose count wraps around. */
  lemma FewestThatWrap(w: nat, most: nat) returns (n: nat)
    requires w * most >= U64_LIMIT
    ensures 0 < n <= most && U64_LIMIT <= w * n < U64_LIMIT + w
  {
    n := most;
    while n > 0 && w * (n - 1) >= U64_LIMIT
      invariant n <= most && w * n >= U64_LIMIT
    {
      n := n - 1;
    }
    assert n > 0;
    Times(w, n);
  }

  lemma SpellsVec(cap: Machine, e: Ty, n: nat, x: Stub<Value>) returns (y: Stub<Value>)
    requires Valid(e) && 0 < n <= cap(e) && Spells(cap, e, x)
    ensures Spells(cap, TVec(e), y)
    ensures y.head == EncodeInt(8, n) + x.head && y.rest == x.rest + Sum(DefaultSize(e), n - 1) && y.scanned == x.scanned
  {
    var vs := FirstOfMany(cap, e, n, x);
    y := Stub(VList(vs), EncodeInt(8, n) + x.head, x.rest + Sum(DefaultSize(e), n - 1), x.scanned);
    VecOf(cap, e, vs);
    Assoc(EncodeInt(8, n), x.head, Zeros(y.rest));
  }

  lemma MixedVecScans(e: Ty, n: nat, s: seq<byte>)
    requires UnwireMixed(e) && n < U64_LIMIT && AllScan(e, n, s)
    ensures OneScans(TVec(e), EncodeInt(8, n) + s)
  {
    var w := UnwireSize(e);
    assert w * n >= 0;
    ScansVec(e, n, s);
  }

  /** A vector of `x` and `n - 1` default values. */
  lemma ShortMixedVec(cap: Machine, e: Ty, n: nat, x: Stub<Value>) returns (y: Stub<Value>)
    requires Valid(e) && UnwireMixed(e) && 0 < n <= cap(e) && Short(cap, e, n, x)
    ensures OneShort(cap, TVec(e), y)
  {
    y := SpellsVec(cap, e, n, x);
    MixedVecScans(e, n, Front(x));
    Assoc(EncodeInt(8, n), x.head, Zeros(x.scanned));
    assert Front(y) == EncodeInt(8, n) + Front(x);
  }

  lemma SpellsDefaults(cap: Machine, e: Ty, n: nat, j: nat)
    requires Valid(e) && n <= cap(e)
    ensures Spells(cap, TVec(e), Stub(VList(Repeat(e, Default(e), n)), EncodeInt(8, n), Sum(DefaultSize(e), n), j))
  {
    RepeatBytes(e, n);
    RepeatIsModest(cap, e, n);
    VecOf(cap, e, Repeat(e, Default(e), n));
  }

  /** `n` default values of which a skip covers too few bytes. */
  lemma ShortSkip(cap: Machine, e: Ty, n: nat) returns (y: Stub<Value>)
    requires Valid(e) && !UnwireMixed(e) && 0 < n <= cap(e) && UnwireSize(e) * n >= 0
    requires Wrap(UnwireSize(e) * n) < Sum(DefaultSize(e), n)
    ensures OneShort(cap, TVec(e), y)
  {
    var j := Wrap(UnwireSize(e) * n);
    y := Stub(VList(Repeat(e, Default(e), n)), EncodeInt(8, n), Sum(DefaultSize(e), n), j);
    SpellsDefaults(cap, e, n, j);
    ScansVec(e, n, Zeros(j));
  }

  lemma ShortVecOfSkipped(cap: Machine, e: Ty) returns (y: Stub<Value>)
    requires Valid(e) && !UnwireMixed(e) && (!Rigid(e) || !NoWrapElements(cap, e))
    ensures OneShort(cap, TVec(e), y)
  {
    var n: nat := 1;
    SizeOfEncoding(e, Default(e));
    if Rigid(e) {
      n := FewestThatWrap(UnwireSize(e), cap(e));
      SumIsProduct(UnwireSize(e), n);
    }
    y := ShortSkip(cap, e, n);
  }

  lemma FirstOfFields(cap: Machine, ts: seq<Ty>, x: Stub<Value>, k: nat) returns (y: Stub<seq<Value>>)
    requires AllValid(ts) && ts != [] && Spells(cap, ts[0], x)
    ensures FieldsSpell(cap, ts, y)
    ensures y.head == x.head && y.rest == x.rest + DefaultSizes(ts[1..]) && y.scanned == x.scanned + k
  {
    var others, d := Defaults(ts[1..]), DefaultSizes(ts[1..]);
    y := Stub([x.value] + others, x.head, x.rest + d, x.scanned + k);
    assert ([x.value] + others)[1..] == others;
    DefaultsBytes(ts[1..]);
    DefaultsAreModest(cap, ts[1..]);
    ZerosBehind(x.head, x.rest, d);
  }

  lemma FirstFieldShort(cap: Machine, ts: seq<Ty>, x: Stub<Value>) returns (y: Stub<seq<Value>>)
    requires AllValid(ts) && ts != [] && Short(cap, ts[0], 1, x)
    ensures FieldsShort(cap, ts, y)
  {
    var k := ZerosScanFields(ts[1..]);
    y := FirstOfFields(cap, ts, x, k);
    ZerosBehind(x.head, x.scanned, k);
    FieldsScanCons(ts, Front(x), Zeros(k));
    assert Front(y) == Front(x) + Zeros(k);
  }

  /** A default value in front, which is scanned correctly. */
  lemma LaterFieldShort(cap: Machine, ts: seq<Ty>, x: Stub<seq<Value>>) returns (y: Stub<seq<Value>>)
    requires AllValid(ts) && AllTagsFit(ts) && ts != [] && !Risky(cap, ts[0], 1) && FieldsShort(cap, ts[1..], x)
    ensures FieldsShort(cap, ts, y)
  {
    var d := Zeros(DefaultSize(ts[0]));
    y := x.(value := [Default(ts[0])] + x.value, head := d + x.head);
    assert ([Default(ts[0])] + x.value)[1..] == x.value;
    DefaultBytes(ts[0]);
    DefaultIsModest(cap, ts[0]);
    DefaultScans(cap, ts[0]);
    Assoc(d, x.head, Zeros(x.rest));
    Assoc(d, x.head, Zeros(x.scanned));
    FieldsScanCons(ts, d, Front(x));
  }

  lemma DefaultScans(cap: Machine, t: Ty)
    requires Valid(t) && TagsFit(t) && !Risky(cap, t, 1)
    ensures AllScan(t, 1, Encode(t, Default(t)))
  {
    var v := Default(t);
    var s := Encode(t, v);
    DefaultIsModest(cap, t);
    forall b, pos: nat | Stands(b, pos, s) ensures Scan(t, b, pos) == Ok((), pos + |s|) {
      ModestScans(cap, t, v, b, pos);
    }
  }

  lemma ModestScans(cap: Machine, t: Ty, v: Value, b: seq<byte>, pos: nat)
    requires Valid(t) && TagsFit(t) && Scannable(t) && NoWrap(cap, t)
    requires HasType(t, v) && Modest(cap, t, v) && Stands(b, pos, Encode(t, v))
    ensures Scan(t, b, pos) == Ok((), pos + |Encode(t, v)|)
  {
    RoundTrip(t, v, b, pos);
    ModestIsAffordable(cap, t, v, b, pos);
    ScanCovers(cap, t, b, pos);
  }

  lemma {:induction false} RiskyIsShort(cap: Machine, t: Ty, n: nat) returns (x: Stub<Value>)
    requires Valid(t) && TagsFit(t) && 0 < n < U64_LIMIT && Risky(cap, t, n)
    ensures Short(cap, t, n, x)
    decreases t, 2
  {
    if !Counts(t, n) {
      x := CountingIsShort(cap, t, n);
    } else if t.TArray? {
      if Empty(t) { EmptyIsNotRisky(cap, t, n); }
      ArrayCounts(t.elem, t.len, n);
      Times(t.len, n);
      x := RiskyIsShort(cap, t.elem, t.len * n);
      x := ShortArray(cap, t.elem, t.len, n, x);
    } else {
      x := RiskyOneIsShort(cap, t);
      x := ShortEach(cap, t, n, x);
    }
  }

  lemma {:induction false} RiskyOneIsShort(cap: Machine, t: Ty) returns (x: Stub<Value>)
    requires Valid(t) && TagsFit(t) && !IsFlat(t) && !t.TArray? && (!Scannable(t) || !NoWrapInside(cap, t))
    ensures OneShort(cap, t, x)
    decreases t, 1
  {
    match t
    case TOption(e) =>
      x := RiskyIsShort(cap, e, 1);
      x := ShortOption(cap, e, x);
    case TVec(e) =>
      if UnwireMixed(e) {
        x := RiskyMixedVec(cap, e);
      } else {
        x := ShortVecOfSkipped(cap, e);
      }
    case TTuple(ts) =>
      var y := RiskyFieldIsShort(cap, ts);
      x := Stub(VList(y.value), y.head, y.rest, y.scanned);
    case TStruct(ts, _) =>
      var y := RiskyFieldIsShort(cap, ts);
      x := Stub(VList(y.value), y.head, y.rest, y.scanned);
    case TEnum(tag, variants) => x := RiskyEnumIsShort(cap, t);
  }

  lemma {:induction false} RiskyMixedVec(cap: Machine, e: Ty) returns (x: Stub<Value>)
    requires Valid(e) && TagsFit(e) && UnwireMixed(e) && (!Scannable(e) || !NoWrapElements(cap, e))
    ensures OneShort(cap, TVec(e), x)
    decreases e, 3
  {
    if Empty(e) { EmptyIsNotRisky(cap, e, 1); }
    var n: nat := 1;
    if Stride(e) * cap(e) >= U64_LIMIT { n := FewestThatWrap(Stride(e), cap(e)); }
    x := RiskyIsShort(cap, e, n);
    x := ShortMixedVec(cap, e, n, x);
  }

  lemma {:induction false} RiskyEnumIsShort(cap: Machine, t: Ty) returns (x: Stub<Value>)
    requires t.TEnum? && Valid(t) && TagsFit(t) && (!Scannable(t) || !NoWrapInside(cap, t))
    ensures OneShort(cap, t, x)
    decreases t, 0
  {
    var i: nat :| i < |t.variants| && (!AllScannable(t.variants[i].fields) || !NoneWraps(cap, t.variants[i].fields));
    var y := RiskyFieldIsShort(cap, t.variants[i].fields);
    var h := EncodeInt(t.tag, i);
    x := Stub(VVariant(i, y.value), h + y.head, y.rest, y.scanned);
    Assoc(h, y.head, Zeros(y.rest));
    Assoc(h, y.head, Zeros(y.scanned));
    ScansEnum(t, i, Front(y));
  }

  lemma {:induction false} RiskyFieldIsShort(cap: Machine, ts: seq<Ty>) returns (x: Stub<seq<Value>>)
    requires AllValid(ts) && AllTagsFit(ts) && (!AllScannable(ts) || !NoneWraps(cap, ts))
    ensures FieldsShort(cap, ts, x)
    decreases ts, 0
  {
    if Risky(cap, ts[0], 1) {
      var y := RiskyIsShort(cap, ts[0], 1);
      x := FirstFieldShort(cap, ts, y);
    } else {
      x := RiskyFieldIsShort(cap, ts[1..]);
      x := LaterFieldShort(cap, ts, x);
    }
  }

  // ----- exactly when -----

  /** The scan of `v` stops after `k` bytes, too early, and only zeros are left. */
  ghost predicate ScannedShort(cap: Machine, t: Ty, v: Value, k: nat) {
    && HasType(t, v) && Modest(cap, t, v)
    && k < |Encode(t, v)| && IsZeros(Encode(t, v)[k..]) && AllScan(t, 1, Encode(t, v)[..k])
  }

  /** Every type that is not scannable, or with a product that wraps around, has a value that is scanned too short. */
  lemma UnscannableIsShort(cap: Machine, t: Ty) returns (v: Value, k: nat)
    requires Valid(t) && TagsFit(t) && !(Scannable(t) && NoWrap(cap, t))
    ensures ScannedShort(cap, t, v, k)
  {
    var x := RiskyIsShort(cap, t, 1);
    v, k := x.value, |x.head| + x.scanned;
    var s := x.head + Zeros(x.rest);
    ZerosSplit(x.rest, x.scanned);
    assert s[..k] == x.head + Zeros(x.rest)[..x.scanned] == Front(x);
    assert s[k..] == Zeros(x.rest)[x.scanned..];
  }

  ghost predicate ScannedExactly(cap: Machine, t: Ty, v: Value, b: seq<byte>, pos: nat) {
    HasType(t, v) && Modest(cap, t, v) && Stands(b, pos, Encode(t, v)) ==> Scan(t, b, pos) == Ok((), pos + |Encode(t, v)|)
  }

  /** The scan measures every encoded value correctly exactly for the scannable types without wrap-around. */
  lemma ScanExactlyWhenScannable(cap: Machine, t: Ty)
    requires Valid(t) && TagsFit(t)
    ensures Scannable(t) && NoWrap(cap, t) <==> forall v, b, pos: nat :: ScannedExactly(cap, t, v, b, pos)
  {
    if Scannable(t) && NoWrap(cap, t) {
      forall v, b, pos: nat ensures ScannedExactly(cap, t, v, b, pos) {
        if HasType(t, v) && Modest(cap, t, v) && Stands(b, pos, Encode(t, v)) { ModestScans(cap, t, v, b, pos); }
      }
    } else {
      var v, k := UnscannableIsShort(cap, t);
      var b := Encode(t, v);
      assert Stands(b, 0, b) && Stands(b, 0, b[..k]);
      assert !ScannedExactly(cap, t, v, b, 0);
    }
  }

  ghost predicate CoversIfAffordable(cap: Machine, t: Ty, b: seq<byte>) {
    Affordable(cap, t, b, 0) ==> Covers(Scan(t, b, 0), Decode(t, b, 0), true)
  }

  /** The bounds check of the fast reader is enough on every buffer exactly for these types. */
  lemma ScanCoversExactlyWhenScannable(cap: Machine, t: Ty)
    requires Valid(t) && TagsFit(t)
    ensures Scannable(t) && NoWrap(cap, t) <==> forall b :: CoversIfAffordable(cap, t, b)
  {
    if Scannable(t) && NoWrap(cap, t) {
      forall b ensures CoversIfAffordable(cap, t, b) {
        if Affordable(cap, t, b, 0) { ScanCovers(cap, t, b, 0); }
      }
    } else {
      var v, k := UnscannableIsShort(cap, t);
      var b := Encode(t, v);
      assert Stands(b, 0, b) && Stands(b, 0, b[..k]);
      RoundTrip(t, v, b, 0);
      ModestIsAffordable(cap, t, v, b, 0);
      assert !CoversIfAffordable(cap, t, b);
    }
  }

  // ----- which elements wrap around -----

  /**
   In an address space of 2^63 bytes, elements without a size wrap around as soon as the scan counts
   two or more of anything for each; elements that occupy half as many bytes as are counted never do.
   */
  lemma WrapsWithoutSize(sizeOf: Ty -> nat, e: Ty)
    requires sizeOf(e) <= ISIZE_MAX
    ensures var cap := AddressSpace(sizeOf);
      && (sizeOf(e) == 0 ==> (ElementStride(e) * cap(e) < U64_LIMIT <==> ElementStride(e) <= 1))
      && (0 < sizeOf(e) && ElementStride(e) <= 2 * sizeOf(e) ==> ElementStride(e) * cap(e) < U64_LIMIT)
  {
    var w, s := ElementStride(e), sizeOf(e);
    if s == 0 {
      if w >= 2 { TimesGrows(2, w, U64_LIMIT - 1); }
    } else if w <= 2 * s {
      QuotientFits(w, s);
    }
  }

  lemma QuotientFits(w: nat, s: nat)
    requires 0 < s && w <= 2 * s
    ensures w * (ISIZE_MAX / s) < U64_LIMIT
  {
    var n := ISIZE_MAX / s;
    TimesGrows(w, 2 * s, n);
    assert (2 * s) * n == 2 * (s * n);
  }

  /** A vector of one f32 takes 12 bytes; the scan stops after the length. */
  lemma FloatVecIsScannedShort()
    ensures var t, b := TVec(TFloat(4)), EncodeInt(8, 1) + EncodeInt(4, 0);
      Decode(t, b, 0) == Ok(VList([VInt(0)]), 12) && Scan(t, b, 0) == Ok((), 8)
  {
    var e, v, vs := TFloat(4), VInt(0), [VInt(0)];
    var b := EncodeInt(8, 1) + EncodeInt(4, 0);
    EncodeOne(e, v);
    U64Limit();
    assert HasType(TVec(e), VList(vs));
    assert Stands(b, 0, Encode(TVec(e), VList(vs)));
    RoundTrip(TVec(e), VList(vs), b, 0);
    StandsSplit(b, 0, EncodeInt(8, 1), EncodeInt(4, 0));
    ReadIntBack(b, 0, 8, 1);
    ScanVec(e, b, 1);
  }

  lemma ScanVec(e: Ty, b: seq<byte>, n: nat)
    requires |b| >= 8 && ReadInt(b, 0, 8) == Ok(n, 8) && UnwireSize(e) * n >= 0
    ensures Scan(TVec(e), b, 0) == if UnwireMixed(e) then ScanAll(e, n, b, 8) else Skip(b, 8, Wrap(UnwireSize(e) * n))
  {
    ScanIsOne(TVec(e), b, 0);
  }

  const HALF: nat := 0x8000_0000_0000_0000

  /** A length of 2^63 and nothing else: scanned to its end, but not a single element is there. */
  lemma LengthAlone(e: Ty)
    requires Decode(e, EncodeInt(8, HALF), 8) == Err(Eof)
    ensures ReadInt(EncodeInt(8, HALF), 0, 8) == Ok(HALF, 8) && Decode(TVec(e), EncodeInt(8, HALF), 0) == Err(Eof)
  {
    var b := EncodeInt(8, HALF);
    U64Limit();
    assert Stands(b, 0, b);
    ReadIntBack(b, 0, 8, HALF);
    FirstOutcome(e, HALF, b, 8);
  }

  /** Pairs of units, as arrays: twice 2^63 units are counted as none. */
  lemma UnitPairsWrap()
    ensures var t, b := TVec(TArray(TUnit, 2)), EncodeInt(8, HALF);
      Scannable(t) && Scan(t, b, 0) == Ok((), 8) && Decode(t, b, 0) == Err(Eof)
  {
    var e, b := TArray(TUnit, 2), EncodeInt(8, HALF);
    NothingLeft(TUnit, 2, b);
    LengthAlone(e);
    ScanVec(e, b, HALF);
    ScanNone(TUnit, b, 8);
    assert 2 * HALF == U64_LIMIT && Wrap(U64_LIMIT) == 0;
  }

  /** Pairs of unit structs, as tuples: twice 2^63 bytes are skipped as none. */
  lemma UnitStructPairsWrap()
    ensures var t, b := TVec(TTuple([TUnitStruct, TUnitStruct])), EncodeInt(8, HALF);
      Scannable(t) && Scan(t, b, 0) == Ok((), 8) && Decode(t, b, 0) == Err(Eof)
  {
    var u, ts, b := [TUnitStruct], [TUnitStruct, TUnitStruct], EncodeInt(8, HALF);
    assert ts[1..] == u && u[1..] == [] && ts[0] == TUnitStruct;
    assert AllRigid(u) && UnwireSizes(u) == 1 && !UnwireMixed(TTuple(ts)) by { assert !UnwireMixed(ts[0]); }
    assert Decode(TUnitStruct, b, 8) == Err(Eof);
    LengthAlone(TTuple(ts));
    ScanVec(TTuple(ts), b, HALF);
    assert 2 * HALF == U64_LIMIT && Wrap(U64_LIMIT) == 0;
  }

  lemma NothingLeft(t: Ty, n: nat, b: seq<byte>)
    requires n > 0 && Decode(t, b, |b|) == Err(Eof)
    ensures DecodeAll(t, n, b, |b|) == Err(Eof)
  {
  }

  // ----- what the scan refuses -----

  predicate EnumFree(t: Ty) {
    match t
    case TOption(e) => EnumFree(e)
    case TVec(e) => EnumFree(e)
    case TArray(e, _) => EnumFree(e)
    case TTuple(ts) => AllEnumFree(ts)
    case TStruct(ts, _) => AllEnumFree(ts)
    case TEnum(_, _) => false
    case _ => true
  }

  predicate AllEnumFree(ts: seq<Ty>) {
    ts == [] || (EnumFree(ts[0]) && AllEnumFree(ts[1..]))
  }

  /** Apart from tags the scan looks at lengths only: it refuses no other bytes, decodable or not. */
  lemma {:induction false} ScanRefusesTagsOnly(t: Ty, n: nat, b: seq<byte>, pos: nat)
    requires EnumFree(t) && pos <= |b|
    ensures ScanAll(t, n, b, pos).Err? ==> ScanAll(t, n, b, pos) == Err(Eof)
    decreases t, 2, 0
  {
    if t.TArray? {
      ScanRefusesTagsOnly(t.elem, Wrap(t.len * n), b, pos);
    } else if !IsFlat(t) {
      EachRefusesTagsOnly(t, n, b, pos);
    }
  }

  lemma {:induction false} EachRefusesTagsOnly(t: Ty, n: nat, b: seq<byte>, pos: nat)
    requires EnumFree(t) && !IsFlat(t) && !t.TArray? && pos <= |b|
    ensures ScanEach(t, n, b, pos).Err? ==> ScanEach(t, n, b, pos) == Err(Eof)
    decreases t, 1, n
  {
    if n > 0 {
      OneRefusesTagsOnly(t, b, pos);
      var r := ScanOne(t, b, pos);
      if r.Ok? { EachRefusesTagsOnly(t, n - 1, b, r.pos); }
    }
  }

  lemma {:induction false} OneRefusesTagsOnly(t: Ty, b: seq<byte>, pos: nat)
    requires EnumFree(t) && !IsFlat(t) && !t.TArray? && pos <= |b|
    ensures ScanOne(t, b, pos).Err? ==> ScanOne(t, b, pos) == Err(Eof)
    decreases t, 0, 0
  {
    match t
    case TString =>
    case TOption(e) => if pos < |b| { ScanRefusesTagsOnly(e, 1, b, pos + 1); }
    case TVec(e) =>
      var r := ReadInt(b, pos, 8);
      if r.Ok? { ScanRefusesTagsOnly(e, r.value, b, r.pos); }
    case TTuple(ts) => FieldsRefuseTagsOnly(ts, b, pos);
    case TStruct(ts, _) => FieldsRefuseTagsOnly(ts, b, pos);
  }

  lemma {:induction false} FieldsRefuseTagsOnly(ts: seq<Ty>, b: seq<byte>, pos: nat)
    requires AllEnumFree(ts) && pos <= |b|
    ensures ScanFields(ts, b, pos).Err? ==> ScanFields(ts, b, pos) == Err(Eof)
    decreases ts, 0, 0
  {
    if ts != [] {
      ScanRefusesTagsOnly(ts[0], 1, b, pos);
      var r := ScanAll(ts[0], 1, b, pos);
      if r.Ok? { FieldsRefuseTagsOnly(ts[1..], b, r.pos); }
    }
  }
}
