/** Two ways of writing the same chunks, one of which has more zeros in between: when they come out the same. */
module ShiftedBytes {
  import opened Bytes

  lemma NonZeroJoin(s: seq<byte>, t: seq<byte>)
    ensures IsZeros(s + t) <==> IsZeros(s) && IsZeros(t)
  {
    var u := s + t;
    assert forall i :: 0 <= i < |s| ==> u[i] == s[i];
    assert forall i :: 0 <= i < |t| ==> u[|s| + i] == t[i];
  }

  lemma NonZeroInt(w: nat, n: nat)
    requires 0 < n < Pow256(w)
    ensures !IsZeros(EncodeInt(w, n))
  {
    ZerosIff(EncodeInt(w, n));
    ZeroInt(w);
    DecodeEncodeInt(w, n);
    DecodeEncodeInt(w, 0);
  }

  // ----- one string behind another -----

  /** `s` behind `m` zeros and `t` behind `n` zeros are the same. */
  predicate Level(m: nat, s: seq<byte>, n: nat, t: seq<byte>) {
    Zeros(m) + s == Zeros(n) + t
  }

  lemma ZerosInFront(m: nat, c: nat, s: seq<byte>)
    ensures Zeros(m) + (Zeros(c) + s) == Zeros(m + c) + s
  {
    ZerosAdd(m, c);
    Assoc(Zeros(m), Zeros(c), s);
  }

  lemma LevelZeros(m: nat, c: nat, s: seq<byte>, n: nat, d: nat, t: seq<byte>)
    ensures Level(m, Zeros(c) + s, n, Zeros(d) + t) <==> Level(m + c, s, n + d, t)
  {
    ZerosInFront(m, c, s);
    ZerosInFront(n, d, t);
  }

  /** As many zeros more on both sides make no difference. */
  lemma LevelSameZeros(c: nat, m: nat, s: seq<byte>, n: nat, t: seq<byte>)
    ensures Level(m, Zeros(c) + s, n, Zeros(c) + t) <==> Level(m, s, n, t)
  {
    LevelZeros(m, c, s, n, c, t);
    ZerosInFront(c, m, s);
    ZerosInFront(c, n, t);
    Cancel(Zeros(c), Zeros(m) + s, Zeros(n) + t);
  }

  lemma LevelSame(m: nat, p: seq<byte>, s: seq<byte>, t: seq<byte>)
    ensures Level(m, p + s, m, p + t) <==> Level(m, s, m, t)
  {
    Cancel(Zeros(m), p + s, p + t);
    Cancel(p, s, t);
    Cancel(Zeros(m), s, t);
  }

  lemma Cancel(p: seq<byte>, s: seq<byte>, t: seq<byte>)
    ensures p + s == p + t <==> s == t
  {
    if p + s == p + t { assert s == (p + s)[|p|..] == (p + t)[|p|..] == t; }
  }

  /** What is not zero cannot be shifted against itself. */
  lemma ShiftShows(m: nat, n: nat, p: seq<byte>, s: seq<byte>, t: seq<byte>)
    requires m < n && !IsZeros(p)
    ensures !Level(m, p + s, n, p + t) && !Level(n, p + t, m, p + s)
  {
    var j := FirstNonZero(p);
    var x, y := Zeros(m) + (p + s), Zeros(n) + (p + t);
    assert x[m + j] == (p + s)[j] == p[j] != 0;
    if |y| == |x| {
      assert y[m + j] == if m + j < n then 0 else (p + t)[m + j - n];
      if m + j >= n { assert (p + t)[m + j - n] == p[m + j - n] == 0; }
    }
  }

  lemma {:induction false} FirstNonZero(p: seq<byte>) returns (j: nat)
    requires !IsZeros(p)
    ensures j < |p| && p[j] != 0 && forall i :: 0 <= i < j ==> p[i] == 0
  {
    if p[0] != 0 {
      j := 0;
    } else {
      assert exists i :: 0 <= i < |p[1..]| && p[1..][i] != 0 by {
        var i :| 0 <= i < |p| && p[i] != 0;
        assert p[1..][i - 1] == p[i];
      }
      var k := FirstNonZero(p[1..]);
      j := k + 1;
      forall i | 0 <= i < j ensures p[i] == 0 { if i > 0 { assert p[i] == p[1..][i - 1]; } }
    }
  }

  // ----- statements as chunks of bytes -----

  /** What a statement writes in the async forms, and the encodings of its fields. */
  datatype Chunk = Chunk(written: seq<byte>, expected: seq<byte>)

  function AllWritten(bs: seq<Chunk>): seq<byte> {
    if bs == [] then [] else bs[0].written + AllWritten(bs[1..])
  }

  function AllExpected(bs: seq<Chunk>): seq<byte> {
    if bs == [] then [] else bs[0].expected + AllExpected(bs[1..])
  }

  /**
   What the types alone say about a chunk: of a field alone, whether its only encoding is one of
   zeros; of a group, whether it has a size and whether all its fields are such, with how many zeros.
   */
  datatype Shape = Alone(zero: bool) | Grouped(sized: bool, zero: bool, zeros: nat)

  predicate Suits(b: Chunk, x: Shape) {
    match x
    case Alone(zero) => b.written == b.expected && (zero ==> IsZeros(b.expected))
    case Grouped(sized, zero, zeros) =>
      && (if sized then !IsZeros(b.written) else IsZeros(b.written) && |b.written| == 8)
      && (zero ==> IsZeros(b.expected) && |b.expected| == zeros)
  }

  predicate AllSuit(bs: seq<Chunk>, xs: seq<Shape>) {
    if xs == [] then bs == [] else bs != [] && Suits(bs[0], xs[0]) && AllSuit(bs[1..], xs[1..])
  }

  /**
   With `m` zeros written and `n` zeros expected so far, the rest comes out right: groups have no
   size and hold nothing but zeros, 8 are written for each, and wherever the two differ there are
   only zeros.
   */
  predicate Lands(xs: seq<Shape>, m: nat, n: nat) {
    if xs == [] then m == n
    else
      match xs[0]
      case Alone(zero) => (m == n || zero) && Lands(xs[1..], m, n)
      case Grouped(sized, zero, zeros) => !sized && zero && Lands(xs[1..], m + 8, n + zeros)
  }

  /** The same bytes on both sides: they may only be shifted against themselves if they are zeros. */
  lemma LevelBehind(m: nat, n: nat, o: seq<byte>, a: seq<byte>, e: seq<byte>)
    ensures m == n || IsZeros(o) ==> (Level(m, o + a, n, o + e) <==> Level(m, a, n, e))
    ensures m != n && !IsZeros(o) ==> !Level(m, o + a, n, o + e)
  {
    if m == n {
      LevelSame(m, o, a, e);
    } else if IsZeros(o) {
      ZerosIff(o);
      LevelSameZeros(|o|, m, a, n, e);
    } else if m < n {
      ShiftShows(m, n, o, a, e);
    } else {
      ShiftShows(n, m, o, e, a);
    }
  }

  /** Different numbers of zeros. */
  lemma LevelBehindZeros(m: nat, n: nat, z: seq<byte>, d: seq<byte>, a: seq<byte>, e: seq<byte>)
    requires IsZeros(z) && IsZeros(d)
    ensures Level(m, z + a, n, d + e) <==> Level(m + |z|, a, n + |d|, e)
  {
    ZerosIff(z);
    ZerosIff(d);
    LevelZeros(m, |z|, a, n, |d|, e);
  }

  lemma NotLevel(m: nat, s: seq<byte>, n: nat, t: seq<byte>)
    requires IsZeros(s) != IsZeros(t)
    ensures !Level(m, s, n, t)
  {
    NonZeroJoin(Zeros(m), s);
    NonZeroJoin(Zeros(n), t);
  }

  lemma {:induction false} LandsLevel(bs: seq<Chunk>, xs: seq<Shape>, m: nat, n: nat)
    requires AllSuit(bs, xs) && Lands(xs, m, n)
    ensures Level(m, AllWritten(bs), n, AllExpected(bs))
  {
    if xs != [] {
      var b, a, e := bs[0], AllWritten(bs[1..]), AllExpected(bs[1..]);
      match xs[0]
      case Alone(_) =>
        LandsLevel(bs[1..], xs[1..], m, n);
        LevelBehind(m, n, b.expected, a, e);
      case Grouped(_, _, zeros) =>
        LandsLevel(bs[1..], xs[1..], m + 8, n + zeros);
        LevelBehindZeros(m, n, b.written, b.expected, a, e);
    }
  }

  // ----- chunks that do not come out right -----

  predicate Quiet(bs: seq<Chunk>) {
    bs == [] || (IsZeros(bs[0].expected) && Quiet(bs[1..]))
  }

  predicate AnySized(xs: seq<Shape>) {
    xs != [] && ((xs[0].Grouped? && xs[0].sized) || AnySized(xs[1..]))
  }

  lemma {:induction false} QuietIsZeros(bs: seq<Chunk>, xs: seq<Shape>)
    requires AllSuit(bs, xs) && Quiet(bs)
    ensures IsZeros(AllExpected(bs)) && (IsZeros(AllWritten(bs)) <==> !AnySized(xs))
  {
    if xs != [] {
      QuietIsZeros(bs[1..], xs[1..]);
      NonZeroJoin(bs[0].written, AllWritten(bs[1..]));
      NonZeroJoin(bs[0].expected, AllExpected(bs[1..]));
    }
  }

  /** The first chunk that must be zeros and need not be, or their number. */
  function Culprit(xs: seq<Shape>, m: nat, n: nat): (p: nat)
    ensures p <= |xs| && (p < |xs| ==> !xs[p].zero)
  {
    if xs == [] || (!xs[0].zero && (xs[0].Grouped? || m != n)) then 0
    else if xs[0].Alone? then 1 + Culprit(xs[1..], m, n)
    else 1 + Culprit(xs[1..], m + 8, n + xs[0].zeros)
  }

  /** Zeros are expected everywhere but in chunk `p`. */
  predicate OneSpike(bs: seq<Chunk>, p: nat) {
    bs == []
    || (if p == 0 then !IsZeros(bs[0].expected) && Quiet(bs[1..]) else IsZeros(bs[0].expected) && OneSpike(bs[1..], p - 1))
  }

  lemma {:induction false} SpikeMisses(bs: seq<Chunk>, xs: seq<Shape>, m: nat, n: nat)
    requires AllSuit(bs, xs) && !AnySized(xs) && !Lands(xs, m, n) && OneSpike(bs, Culprit(xs, m, n))
    ensures !Level(m, AllWritten(bs), n, AllExpected(bs))
  {
    if xs == [] {
      assert Zeros(m) + [] == Zeros(m) && Zeros(n) + [] == Zeros(n);
    } else {
      var b, a, e := bs[0], AllWritten(bs[1..]), AllExpected(bs[1..]);
      if xs[0].Alone? {
        LevelBehind(m, n, b.expected, a, e);
        if Culprit(xs, m, n) > 0 { SpikeMisses(bs[1..], xs[1..], m, n); }
      } else if Culprit(xs, m, n) == 0 {
        QuietIsZeros(bs[1..], xs[1..]);
        NonZeroJoin(b.written, a);
        NonZeroJoin(b.expected, e);
        NotLevel(m, b.written + a, n, b.expected + e);
      } else {
        SpikeMisses(bs[1..], xs[1..], m + 8, n + xs[0].zeros);
        LevelBehindZeros(m, n, b.written, b.expected, a, e);
      }
    }
  }
}
