/** What the buffer reader returns, compared with the checked decoder. */
module FastReader {
  import opened Bytes
  import opened WireTypes
  import opened Codec
  import opened Truncation
  import opened Capacity
  import opened PreScan
  import opened ScanLimits
  import opened Reader

  // ----- a fresh reader -----

  /** The fast form returns what the checked one returns. */
  ghost predicate Agrees(t: Ty, b: seq<byte>, pos: nat)
    requires pos <= |b|
  {
    forall v, p :: Unwired(t, b, pos) == Ok(v, p) <==> Decode(t, b, pos) == Ok(v, p)
  }

  /** The fast form is safe on `b` and succeeds exactly like the checked one. */
  ghost predicate Refines(t: Ty, b: seq<byte>) {
    StaysInside(t, b, 0) && Agrees(t, b, 0)
  }

  /** On every slice, also where products wrap around, a fresh reader of a scannable type returns the right values. */
  lemma FreshReaderAgrees(t: Ty, b: seq<byte>)
    requires Valid(t) && Scannable(t) && |b| < U64_LIMIT
    ensures Agrees(t, b, 0)
  {
    ScanReaches(t, b, 0);
  }

  /** It does not leave the buffer either, unless a product wraps around or a vector cannot be allocated. */
  lemma FreshReaderRefines(cap: Machine, t: Ty, b: seq<byte>)
    requires Valid(t) && Scannable(t) && NoWrap(cap, t) && Affordable(cap, t, b, 0)
    ensures Refines(t, b)
  {
    ScanCovers(cap, t, b, 0);
  }

  ghost predicate RefinesIfAffordable(cap: Machine, t: Ty, b: seq<byte>) {
    Affordable(cap, t, b, 0) ==> Refines(t, b)
  }

  /**
   A fresh buffer reader refines the checked decoder on every buffer exactly for scannable types of
   which no product wraps around.
   */
  lemma RefinesExactlyWhenScannable(cap: Machine, t: Ty)
    requires Valid(t) && TagsFit(t)
    ensures Scannable(t) && NoWrap(cap, t) <==> forall b :: RefinesIfAffordable(cap, t, b)
  {
    if Scannable(t) && NoWrap(cap, t) {
      forall b ensures RefinesIfAffordable(cap, t, b) {
        if Affordable(cap, t, b, 0) { FreshReaderRefines(cap, t, b); }
      }
    } else {
      var b := UnscannableStrays(cap, t);
      assert !RefinesIfAffordable(cap, t, b);
    }
  }

  /** A truncated encoding that the scan finds complete: decoding it leaves the buffer. */
  lemma UnscannableStrays(cap: Machine, t: Ty) returns (b: seq<byte>)
    requires Valid(t) && TagsFit(t) && !(Scannable(t) && NoWrap(cap, t))
    ensures Affordable(cap, t, b, 0) && !StaysInside(t, b, 0)
  {
    var v, k := UnscannableIsShort(cap, t);
    b := Encode(t, v)[..k];
    assert Stands(b, 0, b);
    assert Cut(b, 0, Encode(t, v));
    TruncationIsEof(t, v, b, 0);
    ModestIsAffordable(cap, t, v, b, 0);
    assert Guard(t, b, 0) == Ok((), k);
  }

  /**
   A length of 2^63 pairs of units, as arrays or as tuples: the guard passes, the elements need no
   memory that could be refused, and the first read leaves the buffer.
   */
  lemma WrappedCountStrays(cap: Machine)
    ensures var b, arrays, tuples := EncodeInt(8, HALF), TArray(TUnit, 2), TTuple([TUnitStruct, TUnitStruct]);
      && Scannable(TVec(arrays)) && Guard(TVec(arrays), b, 0).Ok? && !StaysInside(TVec(arrays), b, 0)
      && Scannable(TVec(tuples)) && Guard(TVec(tuples), b, 0).Ok? && !StaysInside(TVec(tuples), b, 0)
      && (cap(arrays) >= HALF ==> Affordable(cap, TVec(arrays), b, 0))
      && (cap(tuples) >= HALF ==> Affordable(cap, TVec(tuples), b, 0))
  {
    UnitPairsWrap();
    UnitStructPairsWrap();
    PairsAskForNothing(cap, EncodeInt(8, HALF));
    LengthIsAffordable(cap, TArray(TUnit, 2));
    LengthIsAffordable(cap, TTuple([TUnitStruct, TUnitStruct]));
  }

  lemma PairsAskForNothing(cap: Machine, b: seq<byte>)
    ensures var arrays, tuples := TArray(TUnit, 2), TTuple([TUnitStruct, TUnitStruct]);
      && Decode(arrays, b, |b|) == Err(Eof) && Affordable(cap, arrays, b, |b|)
      && Decode(tuples, b, |b|) == Err(Eof) && Affordable(cap, tuples, b, |b|)
  {
    var us := [TUnitStruct, TUnitStruct];
    NothingLeft(TUnit, 2, b);
    assert us[0] == TUnitStruct && Decode(TUnitStruct, b, |b|) == Err(Eof);
    FirstAffordable(cap, TUnit, 2, b, |b|);
    assert FieldsAffordable(cap, us, b, |b|);
  }

  lemma LengthIsAffordable(cap: Machine, e: Ty)
    requires var b := EncodeInt(8, HALF); Decode(e, b, 8) == Err(Eof) && Affordable(cap, e, b, 8)
    ensures cap(e) >= HALF ==> Affordable(cap, TVec(e), EncodeInt(8, HALF), 0)
  {
    LengthAlone(e);
    FirstAffordable(cap, e, HALF, EncodeInt(8, HALF), 8);
  }

  /** What the writer appends to an empty buffer the buffer reader gives back, whatever follows it. */
  lemma BufferRoundTrip(t: Ty, v: Value, rest: seq<byte>)
    requires Valid(t) && Scannable(t) && TagsFit(t) && HasType(t, v) && |Encode(t, v) + rest| < U64_LIMIT
    ensures StaysInside(t, Encode(t, v) + rest, 0)
    ensures Unwired(t, Encode(t, v) + rest, 0) == Ok(v, |Encode(t, v)|)
  {
    var b := Encode(t, v) + rest;
    assert Stands(b, 0, Encode(t, v));
    RoundTrip(t, v, b, 0);
    FreshReaderAgrees(t, b);
  }

  // ----- later reads from the same buffer -----

  /**
   Two values of one type, written one after the other, come back exactly if the second takes
   at least as many bytes as the first: the guard measures the first one again.
   */
  lemma SecondUnwireExactlyWhen(t: Ty, v: Value, w: Value)
    requires Valid(t) && Scannable(t) && TagsFit(t) && HasType(t, v) && HasType(t, w)
    requires |Encode(t, v) + Encode(t, w)| < U64_LIMIT
    ensures var b := Encode(t, v) + Encode(t, w); var k := |Encode(t, v)|;
      && Unwired(t, b, 0) == Ok(v, k)
      && StaysInside(t, b, k)
      && Unwired(t, b, k) == (if |Encode(t, w)| >= k then Ok(w, |b|) else Err(OutOfBounds))
  {
    FirstOfTwo(t, v, w);
    RoundTrip(t, w, Encode(t, v) + Encode(t, w), |Encode(t, v)|);
  }

  lemma FirstOfTwo(t: Ty, v: Value, w: Value)
    requires Valid(t) && Scannable(t) && TagsFit(t) && HasType(t, v)
    requires |Encode(t, v) + Encode(t, w)| < U64_LIMIT
    ensures var b := Encode(t, v) + Encode(t, w);
      && Stands(b, |Encode(t, v)|, Encode(t, w))
      && Decode(t, b, 0) == Ok(v, |Encode(t, v)|) && Scan(t, b, 0) == Ok((), |Encode(t, v)|)
  {
    var b := Encode(t, v) + Encode(t, w);
    assert Stands(b, 0, Encode(t, v)) && Stands(b, |Encode(t, v)|, Encode(t, w));
    RoundTrip(t, v, b, 0);
    ScanReaches(t, b, 0);
  }

  /** At any position, a value that stands there comes back exactly if the scan of the front allows it. */
  lemma LaterUnwireExactlyWhen(t: Ty, v: Value, b: seq<byte>, pos: nat)
    requires TagsFit(t) && HasType(t, v) && Stands(b, pos, Encode(t, v))
    ensures StaysInside(t, b, pos)
    ensures Unwired(t, b, pos) == Ok(v, pos + |Encode(t, v)|)
      <==> Scan(t, b, 0).Ok? && pos + Scan(t, b, 0).pos <= |b|
  {
    RoundTrip(t, v, b, pos);
  }

  /** A vector followed by a shorter one: the second is refused although it is all there. */
  lemma SecondUnwireFails()
    ensures var t := TVec(TInt(1, false));
      var long, short := VList([VInt(7)]), VList([]);
      Unwired(t, Encode(t, long) + Encode(t, short), |Encode(t, long)|) == Err(OutOfBounds)
  {
    var t := TVec(TInt(1, false));
    var e, vs := TInt(1, false), [VInt(7)];
    assert vs[1..] == [];
    U64Limit();
    assert HasType(e, VInt(7)) && AllHaveType(e, vs);
    EncodeOne(e, VInt(7));
    SecondUnwireExactlyWhen(t, VList(vs), VList([]));
  }
}
