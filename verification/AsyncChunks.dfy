/** The chunks that the async forms write, from the bytes of the fields alone. */
module AsyncChunks {
  import opened Bytes
  import opened DeriveMeaning
  import opened ShiftedBytes

  /** What the type of a field says about it: its `FIXED_SIZE`, and whether its only encoding is one of so many zeros. */
  datatype Field = Field(size: nat, zero: bool, zeros: nat)

  /** `piece` is what `concat_array` writes into zeros, `code` the encoding. */
  predicate Holds(x: Field, piece: seq<byte>, code: seq<byte>) {
    |piece| == x.size && (x.zero ==> IsZeros(code) && |code| == x.zeros)
  }

  predicate AllHold(xs: seq<Field>, pieces: seq<seq<byte>>, codes: seq<seq<byte>>) {
    |pieces| == |codes| == |xs| && forall i :: 0 <= i < |xs| ==> Holds(xs[i], pieces[i], codes[i])
  }

  // ----- one statement -----

  function SizeIn(xs: seq<Field>, k: nat, t: nat): nat
    requires k + t <= |xs|
    decreases t
  {
    if t == 0 then 0 else xs[k].size + SizeIn(xs, k + 1, t - 1)
  }

  function ZerosIn(xs: seq<Field>, k: nat, t: nat): nat
    requires k + t <= |xs|
    decreases t
  {
    if t == 0 then 0 else xs[k].zeros + ZerosIn(xs, k + 1, t - 1)
  }

  predicate ZeroIn(xs: seq<Field>, k: nat, t: nat)
    requires k + t <= |xs|
  {
    forall f :: k <= f < k + t ==> xs[f].zero
  }

  /** The statement for the fields `k..k + t`. */
  function ShapeOf(xs: seq<Field>, k: nat, t: nat): Shape
    requires t >= 1 && k + t <= |xs|
  {
    if t == 1 then Alone(xs[k].zero) else Grouped(SizeIn(xs, k, t) > 0, ZeroIn(xs, k, t), ZerosIn(xs, k, t))
  }

  function ChunkOf(pieces: seq<seq<byte>>, codes: seq<seq<byte>>, k: nat, t: nat): Chunk
    requires t >= 1 && k + t <= |pieces| == |codes|
  {
    if t == 1 then Chunk(codes[k], codes[k])
    else
      var s := Joined(pieces, k, t);
      Chunk(EncodeInt(8, |s|) + s, Joined(codes, k, t))
  }

  lemma {:induction false} JoinedHold(xs: seq<Field>, pieces: seq<seq<byte>>, codes: seq<seq<byte>>, k: nat, t: nat)
    requires AllHold(xs, pieces, codes) && k + t <= |xs|
    ensures |Joined(pieces, k, t)| == SizeIn(xs, k, t)
    ensures ZeroIn(xs, k, t) ==> IsZeros(Joined(codes, k, t)) && |Joined(codes, k, t)| == ZerosIn(xs, k, t)
    decreases t
  {
    if t > 0 {
      JoinedHold(xs, pieces, codes, k + 1, t - 1);
      assert Holds(xs[k], pieces[k], codes[k]);
      NonZeroJoin(codes[k], Joined(codes, k + 1, t - 1));
    }
  }

  lemma LengthInFront(s: seq<byte>)
    requires |s| < U64_LIMIT
    ensures if |s| == 0 then IsZeros(EncodeInt(8, |s|) + s) else !IsZeros(EncodeInt(8, |s|) + s)
  {
    U64Limit();
    NonZeroJoin(EncodeInt(8, |s|), s);
    if |s| == 0 { ZeroInt(8); } else { NonZeroInt(8, |s|); }
  }

  lemma ChunkSuits(xs: seq<Field>, pieces: seq<seq<byte>>, codes: seq<seq<byte>>, k: nat, t: nat)
    requires AllHold(xs, pieces, codes) && t >= 1 && k + t <= |xs| && SizeIn(xs, k, t) < U64_LIMIT
    ensures Suits(ChunkOf(pieces, codes, k, t), ShapeOf(xs, k, t))
  {
    if t == 1 {
      assert Holds(xs[k], pieces[k], codes[k]);
    } else {
      JoinedHold(xs, pieces, codes, k, t);
      LengthInFront(Joined(pieces, k, t));
    }
  }

  // ----- all statements -----

  /** `spans` make up the fields `k..n`. */
  predicate InOrder(spans: seq<nat>, k: nat, n: nat) {
    if spans == [] then k == n else spans[0] >= 1 && k + spans[0] <= n && InOrder(spans[1..], k + spans[0], n)
  }

  /** The shapes of statements that write `spans` of fields, from `k` on. */
  function Shapes(xs: seq<Field>, spans: seq<nat>, k: nat): (r: seq<Shape>)
    requires InOrder(spans, k, |xs|)
    ensures |r| == |spans|
  {
    if spans == [] then [] else [ShapeOf(xs, k, spans[0])] + Shapes(xs, spans[1..], k + spans[0])
  }

  function Chunks(pieces: seq<seq<byte>>, codes: seq<seq<byte>>, spans: seq<nat>, k: nat): (r: seq<Chunk>)
    requires |pieces| == |codes| && InOrder(spans, k, |codes|)
    ensures |r| == |spans|
  {
    if spans == [] then [] else [ChunkOf(pieces, codes, k, spans[0])] + Chunks(pieces, codes, spans[1..], k + spans[0])
  }

  lemma {:induction false} SizeWithin(xs: seq<Field>, j: nat, k: nat, t: nat)
    requires j <= k && k + t <= |xs|
    ensures SizeIn(xs, k, t) <= SizeIn(xs, j, |xs| - j)
    decreases k - j, t
  {
    if j < k {
      SizeWithin(xs, j + 1, k, t);
    } else if t > 0 {
      SizeWithin(xs, k + 1, k + 1, t - 1);
    }
  }

  /** The size of a struct. */
  function Total(xs: seq<Field>): nat {
    SizeIn(xs, 0, |xs|)
  }

  lemma NextSuits(xs: seq<Field>, pieces: seq<seq<byte>>, codes: seq<seq<byte>>, k: nat, t: nat)
    requires AllHold(xs, pieces, codes) && t >= 1 && k + t <= |xs| && Total(xs) < U64_LIMIT
    ensures Suits(ChunkOf(pieces, codes, k, t), ShapeOf(xs, k, t))
  {
    SizeWithin(xs, 0, k, t);
    ChunkSuits(xs, pieces, codes, k, t);
  }

  lemma {:induction false} ChunksSuit(xs: seq<Field>, pieces: seq<seq<byte>>, codes: seq<seq<byte>>, spans: seq<nat>, k: nat)
    requires AllHold(xs, pieces, codes) && InOrder(spans, k, |xs|) && Total(xs) < U64_LIMIT
    ensures AllSuit(Chunks(pieces, codes, spans, k), Shapes(xs, spans, k))
  {
    if spans != [] {
      var t := spans[0];
      NextSuits(xs, pieces, codes, k, t);
      ChunksSuit(xs, pieces, codes, spans[1..], k + t);
      SuitCons(ChunkOf(pieces, codes, k, t), Chunks(pieces, codes, spans[1..], k + t),
               ShapeOf(xs, k, t), Shapes(xs, spans[1..], k + t));
    }
  }

  lemma SuitCons(b: Chunk, bs: seq<Chunk>, x: Shape, xs: seq<Shape>)
    requires Suits(b, x) && AllSuit(bs, xs)
    ensures AllSuit([b] + bs, [x] + xs)
  {
    assert ([b] + bs)[1..] == bs && ([x] + xs)[1..] == xs;
  }

  lemma ChunksCons(pieces: seq<seq<byte>>, codes: seq<seq<byte>>, t: nat, spans: seq<nat>, k: nat)
    requires |pieces| == |codes| && t >= 1 && k + t <= |codes| && InOrder(spans, k + t, |codes|)
    ensures InOrder([t] + spans, k, |codes|)
    ensures AllWritten(Chunks(pieces, codes, [t] + spans, k))
      == ChunkOf(pieces, codes, k, t).written + AllWritten(Chunks(pieces, codes, spans, k + t))
    ensures AllExpected(Chunks(pieces, codes, [t] + spans, k))
      == ChunkOf(pieces, codes, k, t).expected + AllExpected(Chunks(pieces, codes, spans, k + t))
  {
    assert ([t] + spans)[1..] == spans;
    var b, rest := ChunkOf(pieces, codes, k, t), Chunks(pieces, codes, spans, k + t);
    assert Chunks(pieces, codes, [t] + spans, k) == [b] + rest && ([b] + rest)[1..] == rest;
  }

  // ----- fields that are zero but for one -----

  /** All encodings are zeros, but that of field `f`, if there is such a field. */
  predicate ZeroBut(codes: seq<seq<byte>>, f: nat) {
    forall i :: 0 <= i < |codes| ==> (IsZeros(codes[i]) <==> i != f)
  }

  lemma {:induction false} JoinedZeroBut(codes: seq<seq<byte>>, f: nat, k: nat, t: nat)
    requires ZeroBut(codes, f) && k + t <= |codes|
    ensures IsZeros(Joined(codes, k, t)) <==> !(k <= f < k + t)
    decreases t
  {
    if t > 0 {
      JoinedZeroBut(codes, f, k + 1, t - 1);
      NonZeroJoin(codes[k], Joined(codes, k + 1, t - 1));
    }
  }

  lemma ChunkZeroBut(pieces: seq<seq<byte>>, codes: seq<seq<byte>>, f: nat, k: nat, t: nat)
    requires ZeroBut(codes, f) && t >= 1 && k + t <= |pieces| == |codes|
    ensures IsZeros(ChunkOf(pieces, codes, k, t).expected) <==> !(k <= f < k + t)
  {
    if t > 1 { JoinedZeroBut(codes, f, k, t); }
  }

  lemma QuietCons(b: Chunk, bs: seq<Chunk>, p: nat)
    ensures Quiet([b] + bs) <==> IsZeros(b.expected) && Quiet(bs)
    ensures OneSpike([b] + bs, 0) <==> !IsZeros(b.expected) && Quiet(bs)
    ensures p > 0 ==> (OneSpike([b] + bs, p) <==> IsZeros(b.expected) && OneSpike(bs, p - 1))
  {
    assert ([b] + bs)[1..] == bs;
  }

  lemma {:induction false} QuietBehind(pieces: seq<seq<byte>>, codes: seq<seq<byte>>, f: nat, spans: seq<nat>, k: nat)
    requires ZeroBut(codes, f) && |pieces| == |codes| && InOrder(spans, k, |codes|) && (f < k || f >= |codes|)
    ensures Quiet(Chunks(pieces, codes, spans, k))
  {
    if spans != [] {
      var t := spans[0];
      QuietBehind(pieces, codes, f, spans[1..], k + t);
      ChunkZeroBut(pieces, codes, f, k, t);
      QuietCons(ChunkOf(pieces, codes, k, t), Chunks(pieces, codes, spans[1..], k + t), 0);
    }
  }

  /** Where chunk `p` starts. */
  function StartOf(spans: seq<nat>, k: nat, p: nat): nat
    requires p < |spans|
  {
    if p == 0 then k else StartOf(spans[1..], k + spans[0], p - 1)
  }

  lemma {:induction false} SpikeAt(pieces: seq<seq<byte>>, codes: seq<seq<byte>>, f: nat, spans: seq<nat>, k: nat, p: nat)
    requires ZeroBut(codes, f) && |pieces| == |codes| && InOrder(spans, k, |codes|) && p < |spans|
    requires StartOf(spans, k, p) <= f < StartOf(spans, k, p) + spans[p]
    ensures OneSpike(Chunks(pieces, codes, spans, k), p)
  {
    var t, rest := spans[0], spans[1..];
    ChunkZeroBut(pieces, codes, f, k, t);
    if p == 0 {
      QuietBehind(pieces, codes, f, rest, k + t);
    } else {
      StartsBehind(rest, k + t, p - 1);
      SpikeAt(pieces, codes, f, rest, k + t, p - 1);
    }
    QuietCons(ChunkOf(pieces, codes, k, t), Chunks(pieces, codes, rest, k + t), p);
  }

  lemma {:induction false} StartsBehind(spans: seq<nat>, k: nat, p: nat)
    requires p < |spans|
    ensures StartOf(spans, k, p) >= k
  {
    if p > 0 { StartsBehind(spans[1..], k + spans[0], p - 1); }
  }

  lemma {:induction false} QuietHasNoSpike(bs: seq<Chunk>, p: nat)
    requires Quiet(bs) && p >= |bs|
    ensures OneSpike(bs, p)
  {
    if bs != [] { QuietHasNoSpike(bs[1..], p - 1); }
  }

  /** A field of chunk `p` that need not be zero. */
  lemma {:induction false} SpikeField(xs: seq<Field>, spans: seq<nat>, k: nat, p: nat) returns (f: nat)
    requires InOrder(spans, k, |xs|) && p < |spans| && !Shapes(xs, spans, k)[p].zero
    ensures f < |xs| && !xs[f].zero && StartOf(spans, k, p) <= f < StartOf(spans, k, p) + spans[p]
  {
    var t := spans[0];
    if p > 0 {
      f := SpikeField(xs, spans[1..], k + t, p - 1);
    } else if t == 1 {
      f := k;
    } else {
      f :| k <= f < k + t && !xs[f].zero;
    }
  }

  // ----- exactly when -----

  predicate SameBytes(pieces: seq<seq<byte>>, codes: seq<seq<byte>>, spans: seq<nat>)
    requires |pieces| == |codes| && InOrder(spans, 0, |codes|)
  {
    var bs := Chunks(pieces, codes, spans, 0);
    AllWritten(bs) == AllExpected(bs)
  }

  lemma LevelIsEqual(s: seq<byte>, t: seq<byte>)
    ensures Level(0, s, 0, t) <==> s == t
  {
    assert [] + s == s && [] + t == t;
  }

  lemma LandsIsSame(xs: seq<Field>, pieces: seq<seq<byte>>, codes: seq<seq<byte>>, spans: seq<nat>)
    requires AllHold(xs, pieces, codes) && InOrder(spans, 0, |xs|) && Total(xs) < U64_LIMIT
    requires Lands(Shapes(xs, spans, 0), 0, 0)
    ensures SameBytes(pieces, codes, spans)
  {
    var bs := Chunks(pieces, codes, spans, 0);
    ChunksSuit(xs, pieces, codes, spans, 0);
    LandsLevel(bs, Shapes(xs, spans, 0), 0, 0);
    LevelIsEqual(AllWritten(bs), AllExpected(bs));
  }

  /** The field that shows it if the bytes do not land, or the number of fields if the default values do. */
  lemma Witness(xs: seq<Field>, spans: seq<nat>) returns (f: nat)
    requires InOrder(spans, 0, |xs|) && !Lands(Shapes(xs, spans, 0), 0, 0)
    ensures f <= |xs| && (f < |xs| ==> !xs[f].zero)
    ensures var ys := Shapes(xs, spans, 0); var p := Culprit(ys, 0, 0);
      if AnySized(ys) || p == |ys| then f == |xs| else StartOf(spans, 0, p) <= f < StartOf(spans, 0, p) + spans[p]
  {
    var ys := Shapes(xs, spans, 0);
    var p := Culprit(ys, 0, 0);
    f := |xs|;
    if !AnySized(ys) && p < |ys| { f := SpikeField(xs, spans, 0, p); }
  }

  lemma MissIsDifferent(xs: seq<Field>, pieces: seq<seq<byte>>, codes: seq<seq<byte>>, spans: seq<nat>, f: nat)
    requires AllHold(xs, pieces, codes) && InOrder(spans, 0, |xs|) && Total(xs) < U64_LIMIT
    requires !Lands(Shapes(xs, spans, 0), 0, 0) && ZeroBut(codes, f)
    requires var ys := Shapes(xs, spans, 0); var p := Culprit(ys, 0, 0);
      if AnySized(ys) || p == |ys| then f == |xs| else StartOf(spans, 0, p) <= f < StartOf(spans, 0, p) + spans[p]
    ensures !SameBytes(pieces, codes, spans)
  {
    var bs, ys := Chunks(pieces, codes, spans, 0), Shapes(xs, spans, 0);
    var p := Culprit(ys, 0, 0);
    ChunksSuit(xs, pieces, codes, spans, 0);
    if AnySized(ys) {
      QuietBehind(pieces, codes, f, spans, 0);
      QuietIsZeros(bs, ys);
    } else {
      if p == |ys| {
        QuietBehind(pieces, codes, f, spans, 0);
        QuietHasNoSpike(bs, p);
      } else {
        SpikeAt(pieces, codes, f, spans, 0, p);
      }
      SpikeMisses(bs, ys, 0, 0);
      LevelIsEqual(AllWritten(bs), AllExpected(bs));
    }
  }
}
