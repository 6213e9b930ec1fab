/**
 The pre-scan of the fast reader: `bytes_length` walks a checked slice to find out how long
 the next values are, skipping elements of `!MIXED` types by their `FIXED_SIZE`.  Its products are
 u64s, which wrap around.  Here it is a function of position; `Reader.BytesLength` is the code.
 */
module PreScan {
  import opened Bytes
  import opened Sums
  import opened WireTypes
  import opened Codec
  import opened Capacity

  type Scanned = Parsed<()>

  /** `advance_position` on a checked slice */
  function Skip(b: seq<byte>, pos: nat, n: nat): (r: Scanned)
    requires pos <= |b|
    ensures r.Ok? ==> r.pos == pos + n <= |b|
  {
    if pos + n <= |b| then Ok((), pos + n) else Err(Eof)
  }

  predicate IsFlat(t: Ty) {
    t.TInt? || t.TFloat? || t.TBool? || t.TUnit? || t.TUnitStruct?
  }

  function FlatSize(t: Ty): nat {
    if t.TInt? || t.TFloat? then t.width else 1
  }

  function Scan(t: Ty, b: seq<byte>, pos: nat): (r: Scanned)
    requires pos <= |b|
    ensures r.Ok? ==> pos <= r.pos <= |b|
  {
    ScanAll(t, 1, b, pos)
  }

  /** `bytes_length(wire, count)` */
  function ScanAll(t: Ty, count: nat, b: seq<byte>, pos: nat): (r: Scanned)
    requires pos <= |b|
    ensures r.Ok? ==> pos <= r.pos <= |b|
    decreases t, 2, 0
  {
    if IsFlat(t) then Skip(b, pos, Wrap(FlatSize(t) * count))
    else if t.TArray? then ScanAll(t.elem, Wrap(t.len * count), b, pos)
    else ScanEach(t, count, b, pos)
  }

  /** Types that have to look at each value. */
  function ScanEach(t: Ty, count: nat, b: seq<byte>, pos: nat): (r: Scanned)
    requires pos <= |b| && !IsFlat(t) && !t.TArray?
    ensures r.Ok? ==> pos <= r.pos <= |b|
    decreases t, 1, count
  {
    if count == 0 then Ok((), pos)
    else
      match ScanOne(t, b, pos)
      case Ok(_, p) => ScanEach(t, count - 1, b, p)
      case Err(e) => Err(e)
  }

  function ScanOne(t: Ty, b: seq<byte>, pos: nat): (r: Scanned)
    requires pos <= |b| && !IsFlat(t) && !t.TArray?
    ensures r.Ok? ==> pos <= r.pos <= |b|
    decreases t, 0, 0
  {
    match t
    case TString =>
      (match ReadInt(b, pos, 8)
       case Ok(n, p) => Skip(b, p, n)
       case Err(e) => Err(e))
    case TOption(e) =>
      (match ReadInt(b, pos, 1)
       case Ok(n, p) => if n == 1 then ScanAll(e, 1, b, p) else Ok((), p)
       case Err(er) => Err(er))
    case TVec(e) =>
      (match ReadInt(b, pos, 8)
       case Ok(n, p) => if UnwireMixed(e) then ScanAll(e, n, b, p) else Skip(b, p, Wrap(UnwireSize(e) * n))
       case Err(er) => Err(er))
    case TTuple(ts) => ScanFields(ts, b, pos)
    case TStruct(ts, _) => ScanFields(ts, b, pos)
    case TEnum(tag, variants) =>
      (match ReadInt(b, pos, tag)
       case Ok(n, p) => if n < |variants| then ScanFields(variants[n].fields, b, p) else Err(Invalid)
       case Err(er) => Err(er))
  }

  function ScanFields(ts: seq<Ty>, b: seq<byte>, pos: nat): (r: Scanned)
    requires pos <= |b|
    ensures r.Ok? ==> pos <= r.pos <= |b|
    decreases ts, 0, 0
  {
    if ts == [] then Ok((), pos)
    else
      match ScanAll(ts[0], 1, b, pos)
      case Ok(_, p) => ScanFields(ts[1..], b, p)
      case Err(e) => Err(e)
  }

  lemma ScanIsOne(t: Ty, b: seq<byte>, pos: nat)
    requires !IsFlat(t) && !t.TArray? && pos <= |b|
    ensures Scan(t, b, pos) == ScanEach(t, 1, b, pos) == ScanOne(t, b, pos)
  {
    var r := ScanOne(t, b, pos);
    match r
    case Ok((), p) => assert ScanEach(t, 0, b, p) == r;
    case Err(_) =>
  }

  // ----- which types the scan measures correctly -----

  /** Every value takes exactly `FIXED_SIZE` bytes. */
  predicate Rigid(t: Ty) {
    match t
    case TInt(_, _) => true
    case TUnitStruct => true
    case TArray(e, n) => n == 0 || Rigid(e)
    case TTuple(ts) => AllRigid(ts)
    case TStruct(ts, _) => AllRigid(ts)
    case _ => false
  }

  predicate AllRigid(ts: seq<Ty>) {
    ts == [] || (Rigid(ts[0]) && AllRigid(ts[1..]))
  }

  /**
   Every vector that can be reached skips its elements only if they are rigid.  Not so for
   floats, whose decoding `FIXED_SIZE` is 0, and for tuples of which only some fields are mixed.
   */
  predicate Scannable(t: Ty) {
    match t
    case TOption(e) => Scannable(e)
    case TVec(e) => if UnwireMixed(e) then Scannable(e) else Rigid(e)
    case TArray(e, n) => n == 0 || Scannable(e)
    case TTuple(ts) => AllScannable(ts)
    case TStruct(ts, _) => AllScannable(ts)
    case TEnum(_, variants) => forall i :: 0 <= i < |variants| ==> AllScannable(variants[i].fields)
    case _ => true
  }

  predicate AllScannable(ts: seq<Ty>) {
    ts == [] || (Scannable(ts[0]) && AllScannable(ts[1..]))
  }

  /** What the scan multiplies a number of values with: bytes of flat values, or the lengths of nested arrays. */
  function Stride(t: Ty): nat {
    match t
    case TArray(e, n) => n * Stride(e)
    case _ => if IsFlat(t) then FlatSize(t) else 1
  }

  /** Counting `n` values of type `t` does not wrap around, or nothing depends on it. */
  predicate Counts(t: Ty, n: nat) {
    Empty(t) || Stride(t) * n < U64_LIMIT
  }

  /** The product that scanning a vector forms first. */
  function ElementStride(e: Ty): nat {
    if UnwireMixed(e) then Stride(e) else UnwireSize(e)
  }

  /** No product of the scan wraps around, for any vector that can be allocated. */
  predicate NoWrap(cap: Machine, t: Ty)
    decreases t, 1
  {
    Counts(t, 1) && NoWrapInside(cap, t)
  }

  predicate NoWrapInside(cap: Machine, t: Ty)
    decreases t, 0
  {
    match t
    case TOption(e) => NoWrap(cap, e)
    case TVec(e) => NoWrapElements(cap, e)
    case TArray(e, n) => n == 0 || NoWrapInside(cap, e)
    case TTuple(ts) => NoneWraps(cap, ts)
    case TStruct(ts, _) => NoneWraps(cap, ts)
    case TEnum(_, variants) => forall i :: 0 <= i < |variants| ==> NoneWraps(cap, variants[i].fields)
    case _ => true
  }

  predicate NoWrapElements(cap: Machine, e: Ty)
    decreases e, 2
  {
    Empty(e) || (ElementStride(e) * cap(e) < U64_LIMIT && (UnwireMixed(e) ==> NoWrapInside(cap, e)))
  }

  predicate NoneWraps(cap: Machine, ts: seq<Ty>)
    decreases ts, 0
  {
    ts == [] || (NoWrap(cap, ts[0]) && NoneWraps(cap, ts[1..]))
  }

  // ----- the scan and the decoder -----

  /**
   The scan covers the decoder: where decoding succeeds the scan ends in the same place, and, if it
   is `safe`, decoding never runs out of bytes where the scan succeeds.
   */
  ghost predicate Covers<T>(s: Scanned, d: Parsed<T>, safe: bool) {
    && (d.Ok? ==> s == Ok((), d.pos))
    && (safe && s.Ok? ==> d != Err(Eof))
  }

  /** Each value takes `w` bytes. */
  ghost predicate CoveredBy(t: Ty, w: nat) {
    forall b, pos: nat :: pos <= |b| ==> Covers(Skip(b, pos, w), Decode(t, b, pos), true)
  }

  lemma {:induction false} EachCovered(t: Ty, w: nat, n: nat, b: seq<byte>, pos: nat)
    requires CoveredBy(t, w) && pos <= |b|
    ensures Covers(Skip(b, pos, Sum(w, n)), DecodeAll(t, n, b, pos), true)
  {
    if n > 0 {
      if pos + w <= |b| { EachCovered(t, w, n - 1, b, pos + w); }
      OneMoreCovered(t, w, n, b, pos);
    }
  }

  lemma OneMoreCovered(t: Ty, w: nat, n: nat, b: seq<byte>, pos: nat)
    requires n > 0 && pos <= |b| && Covers(Skip(b, pos, w), Decode(t, b, pos), true)
    requires pos + w <= |b| ==> Covers(Skip(b, pos + w, Sum(w, n - 1)), DecodeAll(t, n - 1, b, pos + w), true)
    ensures Covers(Skip(b, pos, Sum(w, n)), DecodeAll(t, n, b, pos), true)
  {
    FirstOutcome(t, n, b, pos);
  }

  lemma FlatIsCovered(t: Ty)
    requires IsFlat(t)
    ensures CoveredBy(t, FlatSize(t))
  {
  }

  lemma {:induction false} RigidIsCovered(t: Ty)
    requires Rigid(t)
    ensures CoveredBy(t, UnwireSize(t))
    decreases t
  {
    match t
    case TArray(e, n) =>
      if n > 0 {
        RigidIsCovered(e);
        SumIsProduct(UnwireSize(e), n);
        forall b, pos: nat | pos <= |b| ensures Covers(Skip(b, pos, UnwireSize(t)), Decode(t, b, pos), true) {
          EachCovered(e, UnwireSize(e), n, b, pos);
        }
      }
    case TTuple(ts) =>
      forall b, pos: nat | pos <= |b| ensures Covers(Skip(b, pos, UnwireSize(t)), Decode(t, b, pos), true) {
        RigidFields(ts, b, pos);
      }
    case TStruct(ts, _) =>
      forall b, pos: nat | pos <= |b| ensures Covers(Skip(b, pos, UnwireSize(t)), Decode(t, b, pos), true) {
        RigidFields(ts, b, pos);
      }
    case _ => FlatIsCovered(t);
  }

  lemma {:induction false} RigidFields(ts: seq<Ty>, b: seq<byte>, pos: nat)
    requires AllRigid(ts) && pos <= |b|
    ensures Covers(Skip(b, pos, UnwireSizes(ts)), DecodeFields(ts, b, pos), true)
    decreases ts
  {
    if ts != [] {
      var w := UnwireSize(ts[0]);
      RigidIsCovered(ts[0]);
      assert Covers(Skip(b, pos, w), Decode(ts[0], b, pos), true);
      if pos + w <= |b| { RigidFields(ts[1..], b, pos + w); }
    }
  }

  /** Skipping count times `FIXED_SIZE` is as good as looking at each element, for rigid types. */
  lemma RigidCovers(t: Ty, n: nat, b: seq<byte>, pos: nat)
    requires Rigid(t) && pos <= |b|
    ensures UnwireSize(t) * n >= 0 && Covers(Skip(b, pos, UnwireSize(t) * n), DecodeAll(t, n, b, pos), true)
  {
    RigidIsCovered(t);
    SumIsProduct(UnwireSize(t), n);
    EachCovered(t, UnwireSize(t), n, b, pos);
  }

  lemma {:induction false} EmptyIsRigid(t: Ty)
    requires Empty(t)
    ensures Rigid(t) && UnwireSize(t) == 0
  {
    match t
    case TArray(e, n) => if n > 0 { EmptyIsRigid(e); }
    case TTuple(ts) => EmptiesAreRigid(ts);
    case TStruct(ts, _) => EmptiesAreRigid(ts);
  }

  lemma {:induction false} EmptiesAreRigid(ts: seq<Ty>)
    requires AllEmpty(ts)
    ensures AllRigid(ts) && UnwireSizes(ts) == 0
  {
    if ts != [] {
      EmptyIsRigid(ts[0]);
      EmptiesAreRigid(ts[1..]);
    }
  }

  lemma {:induction false} ScanNone(t: Ty, b: seq<byte>, pos: nat)
    requires pos <= |b|
    ensures ScanAll(t, 0, b, pos) == Ok((), pos)
    decreases t
  {
    if t.TArray? { ScanNone(t.elem, b, pos); }
  }

  lemma {:induction false} EmptyScans(t: Ty, n: nat, b: seq<byte>, pos: nat)
    requires Empty(t) && pos <= |b|
    ensures ScanAll(t, n, b, pos) == Ok((), pos)
    decreases t
  {
    match t
    case TArray(e, m) => if m > 0 { EmptyScans(e, Wrap(m * n), b, pos); } else { ScanNone(e, b, pos); }
    case TTuple(ts) => EmptyFieldsScan(ts, b, pos); EmptyScansEach(t, n, b, pos);
    case TStruct(ts, _) => EmptyFieldsScan(ts, b, pos); EmptyScansEach(t, n, b, pos);
  }

  lemma {:induction false} EmptyScansEach(t: Ty, n: nat, b: seq<byte>, pos: nat)
    requires !IsFlat(t) && !t.TArray? && pos <= |b| && ScanOne(t, b, pos) == Ok((), pos)
    ensures ScanEach(t, n, b, pos) == Ok((), pos)
  {
    if n > 0 { EmptyScansEach(t, n - 1, b, pos); }
  }

  lemma {:induction false} EmptyFieldsScan(ts: seq<Ty>, b: seq<byte>, pos: nat)
    requires AllEmpty(ts) && pos <= |b|
    ensures ScanFields(ts, b, pos) == Ok((), pos)
    decreases ts
  {
    if ts != [] {
      EmptyScans(ts[0], 1, b, pos);
      EmptyFieldsScan(ts[1..], b, pos);
    }
  }

  lemma {:induction false} StrideIsPositive(t: Ty)
    requires Valid(t) && !Empty(t)
    ensures Stride(t) > 0
  {
    if t.TArray? { StrideIsPositive(t.elem); }
  }

  /** Only empty types are decoded without taking a byte. */
  lemma {:induction false} DecodeConsumes(t: Ty, b: seq<byte>, pos: nat)
    requires Valid(t) && !Empty(t) && pos <= |b| && Decode(t, b, pos).Ok?
    ensures Decode(t, b, pos).pos > pos
    decreases t, 1, 0
  {
    match t
    case TArray(e, n) => AllConsume(e, n, b, pos);
    case TTuple(ts) => FieldsConsume(ts, b, pos);
    case TStruct(ts, _) => FieldsConsume(ts, b, pos);
    case _ =>
  }

  lemma {:induction false} AllConsume(t: Ty, n: nat, b: seq<byte>, pos: nat)
    requires Valid(t) && !Empty(t) && pos <= |b| && DecodeAll(t, n, b, pos).Ok?
    ensures DecodeAll(t, n, b, pos).pos >= pos + n
    decreases t, 1, n + 1
  {
    if n > 0 {
      DecodeConsumes(t, b, pos);
      AllConsume(t, n - 1, b, Decode(t, b, pos).pos);
    }
  }

  lemma {:induction false} FieldsConsume(ts: seq<Ty>, b: seq<byte>, pos: nat)
    requires AllValid(ts) && !AllEmpty(ts) && pos <= |b| && DecodeFields(ts, b, pos).Ok?
    ensures DecodeFields(ts, b, pos).pos > pos
    decreases ts, 0, 0
  {
    if !Empty(ts[0]) {
      DecodeConsumes(ts[0], b, pos);
    } else {
      FieldsConsume(ts[1..], b, Decode(ts[0], b, pos).pos);
    }
  }

  /** What makes counting `n` values at `pos` safe; otherwise a real buffer is shorter than 2^64 bytes. */
  ghost predicate Fits(cap: Machine, t: Ty, n: nat, b: seq<byte>, pos: nat, safe: bool)
    requires pos <= |b|
  {
    if safe then Counts(t, n) && NoWrapInside(cap, t) && AllAffordable(cap, t, n, b, pos)
    else |b| < U64_LIMIT
  }

  lemma FlatCovers(cap: Machine, t: Ty, n: nat, b: seq<byte>, pos: nat, safe: bool)
    requires IsFlat(t) && pos <= |b| && Fits(cap, t, n, b, pos, safe)
    ensures Covers(ScanAll(t, n, b, pos), DecodeAll(t, n, b, pos), safe)
  {
    FlatIsCovered(t);
    SumIsProduct(FlatSize(t), n);
    EachCovered(t, FlatSize(t), n, b, pos);
  }

  lemma ArrayCounts(e: Ty, m: nat, n: nat)
    requires Valid(e) && !Empty(e) && m > 0 && Counts(TArray(e, m), n)
    ensures 0 <= m * n < U64_LIMIT && Counts(e, m * n)
  {
    StrideIsPositive(e);
    var w := Stride(e);
    assert Stride(TArray(e, m)) == m * w;
    Regroup(w, m, n);
  }

  lemma Regroup(w: nat, m: nat, n: nat)
    requires w > 0
    ensures (m * w) * n == w * (m * n) && 0 <= m * n <= w * (m * n)
  {
    var c := m * n;
    assert c >= 0 && w * c >= c;
  }

  lemma ArrayFits(cap: Machine, e: Ty, m: nat, n: nat, b: seq<byte>, pos: nat, safe: bool)
    requires Valid(e) && !Empty(e) && m > 0 && pos <= |b| && Fits(cap, TArray(e, m), n, b, pos, safe)
    ensures m * n >= 0
    ensures safe || DecodeAll(e, m * n, b, pos).Ok? ==> m * n < U64_LIMIT && Fits(cap, e, m * n, b, pos, safe)
  {
    assert m * n >= 0;
    if safe {
      AffordableArrays(cap, e, m, n, b, pos);
      ArrayCounts(e, m, n);
    } else if DecodeAll(e, m * n, b, pos).Ok? {
      AllConsume(e, m * n, b, pos);
    }
  }

  lemma {:induction false} ScanAllCovers(cap: Machine, t: Ty, n: nat, b: seq<byte>, pos: nat, safe: bool)
    requires Valid(t) && Scannable(t) && pos <= |b| && Fits(cap, t, n, b, pos, safe)
    ensures Covers(ScanAll(t, n, b, pos), DecodeAll(t, n, b, pos), safe)
    decreases t, 2, 0
  {
    if Empty(t) {
      EmptyScans(t, n, b, pos);
      EmptyIsRigid(t);
      RigidCovers(t, n, b, pos);
    } else if IsFlat(t) {
      FlatCovers(cap, t, n, b, pos, safe);
    } else if t.TArray? {
      ArrayFits(cap, t.elem, t.len, n, b, pos, safe);
      DecodeArrays(t.elem, t.len, n, b, pos);
      if safe || DecodeAll(t.elem, t.len * n, b, pos).Ok? { ScanAllCovers(cap, t.elem, t.len * n, b, pos, safe); }
    } else {
      ScanEachCovers(cap, t, n, b, pos, safe);
    }
  }

  lemma {:induction false} ScanEachCovers(cap: Machine, t: Ty, n: nat, b: seq<byte>, pos: nat, safe: bool)
    requires Valid(t) && Scannable(t) && !IsFlat(t) && !t.TArray? && pos <= |b|
    requires if safe then NoWrapInside(cap, t) && AllAffordable(cap, t, n, b, pos) else |b| < U64_LIMIT
    ensures Covers(ScanEach(t, n, b, pos), DecodeAll(t, n, b, pos), safe)
    decreases t, 1, n
  {
    if n > 0 {
      ScanOneCovers(cap, t, b, pos, safe);
      var r := Decode(t, b, pos);
      if r.Ok? { ScanEachCovers(cap, t, n - 1, b, r.pos, safe); }
    }
  }

  lemma {:induction false} ScanOneCovers(cap: Machine, t: Ty, b: seq<byte>, pos: nat, safe: bool)
    requires Valid(t) && Scannable(t) && !IsFlat(t) && !t.TArray? && pos <= |b|
    requires if safe then NoWrapInside(cap, t) && Affordable(cap, t, b, pos) else |b| < U64_LIMIT
    ensures Covers(ScanOne(t, b, pos), Decode(t, b, pos), safe)
    decreases t, 0, 1
  {
    match t
    case TString =>
    case TOption(e) =>
      var r := ReadInt(b, pos, 1);
      if r.Ok? && r.value == 1 { ScanSingleCovers(cap, e, b, r.pos, safe); }
    case TVec(e) => ScanVecCovers(cap, e, b, pos, safe);
    case TTuple(ts) => ScanFieldsCovers(cap, ts, b, pos, safe);
    case TStruct(ts, _) => ScanFieldsCovers(cap, ts, b, pos, safe);
    case TEnum(tag, variants) =>
      var r := ReadInt(b, pos, tag);
      if r.Ok? && r.value < |variants| { ScanFieldsCovers(cap, variants[r.value].fields, b, r.pos, safe); }
  }

  lemma ElementsCount(cap: Machine, e: Ty, n: nat)
    requires NoWrapElements(cap, e) && n <= cap(e)
    ensures Empty(e) || 0 <= ElementStride(e) * n < U64_LIMIT
    ensures UnwireMixed(e) ==> NoWrapInside(cap, e)
  {
    if Empty(e) { EmptyHasNothingInside(cap, e); } else { FewerFit(ElementStride(e), n, cap(e)); }
  }

  lemma FewerFit(w: nat, n: nat, most: nat)
    requires n <= most && w * most < U64_LIMIT
    ensures 0 <= w * n < U64_LIMIT
  {
    TimesGrows(n, most, w);
  }

  lemma SkipCovers(cap: Machine, e: Ty, n: nat, b: seq<byte>, pos: nat, safe: bool)
    requires Rigid(e) && !UnwireMixed(e) && pos <= |b|
    requires if safe then NoWrapElements(cap, e) && n <= cap(e) else |b| < U64_LIMIT
    ensures UnwireSize(e) * n >= 0
    ensures Covers(Skip(b, pos, Wrap(UnwireSize(e) * n)), DecodeAll(e, n, b, pos), safe)
  {
    if safe { ElementsCount(cap, e, n); }
    if Empty(e) { EmptyIsRigid(e); }
    RigidCovers(e, n, b, pos);
  }

  lemma {:induction false} ScanVecCovers(cap: Machine, e: Ty, b: seq<byte>, pos: nat, safe: bool)
    requires Valid(e) && Scannable(TVec(e)) && pos <= |b|
    requires if safe then NoWrapElements(cap, e) && Affordable(cap, TVec(e), b, pos) else |b| < U64_LIMIT
    ensures Covers(ScanOne(TVec(e), b, pos), Decode(TVec(e), b, pos), safe)
    decreases e, 3, 1
  {
    var r := ReadInt(b, pos, 8);
    if r.Ok? {
      if UnwireMixed(e) {
        if safe { ElementsCount(cap, e, r.value); }
        ScanAllCovers(cap, e, r.value, b, r.pos, safe);
      } else {
        SkipCovers(cap, e, r.value, b, r.pos, safe);
      }
    }
  }

  lemma {:induction false} ScanSingleCovers(cap: Machine, t: Ty, b: seq<byte>, pos: nat, safe: bool)
    requires Valid(t) && Scannable(t) && pos <= |b|
    requires if safe then NoWrap(cap, t) && Affordable(cap, t, b, pos) else |b| < U64_LIMIT
    ensures Covers(ScanAll(t, 1, b, pos), Decode(t, b, pos), safe)
    decreases t, 3, 0
  {
    FirstOutcome(t, 1, b, pos);
    ScanAllCovers(cap, t, 1, b, pos, safe);
  }

  lemma {:induction false} ScanFieldsCovers(cap: Machine, ts: seq<Ty>, b: seq<byte>, pos: nat, safe: bool)
    requires AllValid(ts) && AllScannable(ts) && pos <= |b|
    requires if safe then NoneWraps(cap, ts) && FieldsAffordable(cap, ts, b, pos) else |b| < U64_LIMIT
    ensures Covers(ScanFields(ts, b, pos), DecodeFields(ts, b, pos), safe)
    decreases ts, 0, 0
  {
    if ts != [] {
      ScanSingleCovers(cap, ts[0], b, pos, safe);
      var r := Decode(ts[0], b, pos);
      if r.Ok? { ScanFieldsCovers(cap, ts[1..], b, r.pos, safe); }
    }
  }

  lemma {:induction false} EmptyHasNothingInside(cap: Machine, t: Ty)
    requires Empty(t)
    ensures NoWrapInside(cap, t)
  {
    match t
    case TArray(e, n) => if n > 0 { EmptyHasNothingInside(cap, e); }
    case TTuple(ts) => EmptiesHaveNothingInside(cap, ts);
    case TStruct(ts, _) => EmptiesHaveNothingInside(cap, ts);
  }

  lemma {:induction false} EmptiesHaveNothingInside(cap: Machine, ts: seq<Ty>)
    requires AllEmpty(ts)
    ensures NoneWraps(cap, ts)
  {
    if ts != [] {
      EmptyHasNothingInside(cap, ts[0]);
      EmptiesHaveNothingInside(cap, ts[1..]);
    }
  }

  /** Where decoding succeeds, the scan of a scannable type ends in the same place, on every slice. */
  lemma ScanReaches(t: Ty, b: seq<byte>, pos: nat)
    requires Valid(t) && Scannable(t) && pos <= |b| < U64_LIMIT
    ensures Decode(t, b, pos).Ok? ==> Scan(t, b, pos) == Ok((), Decode(t, b, pos).pos)
  {
    ScanSingleCovers((e: Ty) => 1, t, b, pos, false);
  }

  /** And if no product wraps around, decoding never runs out of bytes where the scan succeeds, also on bad data. */
  lemma ScanCovers(cap: Machine, t: Ty, b: seq<byte>, pos: nat)
    requires Valid(t) && Scannable(t) && NoWrap(cap, t) && pos <= |b| && Affordable(cap, t, b, pos)
    ensures Covers(Scan(t, b, pos), Decode(t, b, pos), true)
  {
    ScanSingleCovers(cap, t, b, pos, true);
  }

  /** The scan of a number of encoded values ends just behind them. */
  lemma ScanIsExact(t: Ty, vs: seq<Value>, b: seq<byte>, pos: nat)
    requires Valid(t) && Scannable(t) && TagsFit(t) && AllHaveType(t, vs) && Stands(b, pos, EncodeAll(t, vs))
    requires |b| < U64_LIMIT
    ensures ScanAll(t, |vs|, b, pos) == Ok((), pos + |EncodeAll(t, vs)|)
  {
    RoundTripAll(t, vs, b, pos);
    ScanAllCovers((e: Ty) => 1, t, |vs|, b, pos, false);
  }
}
