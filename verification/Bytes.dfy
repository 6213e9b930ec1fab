/** Bytes, big-endian integers and UTF-8. */
module Bytes {
  type byte = x: int | 0 <= x < 256

  function Pow256(w: nat): (p: nat)
    ensures p > 0
  {
    if w == 0 then 1 else 256 * Pow256(w - 1)
  }

  /** One more than the largest u64. */
  const U64_LIMIT: nat := 0x1_0000_0000_0000_0000

  /** `to_be_bytes` of the low `w` bytes of `n`: wider values are cut off, as by an `as` cast. */
  function EncodeInt(w: nat, n: nat): (s: seq<byte>)
    ensures |s| == w
  {
    if w == 0 then [] else EncodeInt(w - 1, n / 256) + [n % 256]
  }

  /** `from_be_bytes` */
  function DecodeInt(s: seq<byte>): (n: nat)
    ensures n < Pow256(|s|)
  {
    if s == [] then 0 else 256 * DecodeInt(s[..|s| - 1]) + s[|s| - 1]
  }

  /** An integer that fits its width survives; a wider one cannot, as every result fits. */
  lemma {:induction false} DecodeEncodeInt(w: nat, n: nat)
    requires n < Pow256(w)
    ensures DecodeInt(EncodeInt(w, n)) == n
  {
    if w > 0 {
      var s := EncodeInt(w, n);
      assert s[..|s| - 1] == EncodeInt(w - 1, n / 256);
      DecodeEncodeInt(w - 1, n / 256);
    }
  }

  lemma Monotone(a: int, b: int, d: nat)
    requires a <= b
    ensures a * d <= b * d
  {
  }

  lemma Divided(n: nat, d: nat, q: nat)
    requires d > 0 && q * d <= n < (q + 1) * d
    ensures n / d == q
  {
    var p := n / d;
    assert p * d <= n < (p + 1) * d;
    if p < q { Monotone(p + 1, q, d); }
    if q < p { Monotone(q + 1, p, d); }
  }

  lemma Quotients(n: nat, p: nat)
    requires p > 0
    ensures (n / 256) / p == n / (256 * p)
  {
    var m := n / 256;
    var q := m / p;
    assert q * p <= m <= (q + 1) * p - 1;
    assert q * (256 * p) == 256 * (q * p) && (q + 1) * (256 * p) == 256 * ((q + 1) * p);
    Divided(n, 256 * p, q);
  }

  /** The most significant byte comes first. */
  lemma {:induction false} BigEndian(w: nat, n: nat, i: nat)
    requires i < w
    ensures EncodeInt(w, n)[i] == (n / Pow256(w - 1 - i)) % 256
  {
    if i < w - 1 {
      BigEndian(w - 1, n / 256, i);
      Quotients(n, Pow256(w - 2 - i));
    }
  }

  lemma {:induction false} EncodeDecodeInt(s: seq<byte>)
    ensures EncodeInt(|s|, DecodeInt(s)) == s
  {
    if s != [] {
      EncodeDecodeInt(s[..|s| - 1]);
      var m := DecodeInt(s[..|s| - 1]);
      assert DecodeInt(s) / 256 == m && DecodeInt(s) % 256 == s[|s| - 1];
      assert s == s[..|s| - 1] + [s[|s| - 1]];
    }
  }

  lemma U64Limit()
    ensures Pow256(8) == U64_LIMIT
  {
    assert Pow256(4) == 0x1_0000_0000;
    assert Pow256(6) == 0x1_0000_0000_0000;
  }

  function Zeros(n: nat): (z: seq<byte>)
    ensures |z| == n && forall i :: 0 <= i < n ==> z[i] == 0
  {
    if n == 0 then [] else [0] + Zeros(n - 1)
  }

  predicate IsZeros(s: seq<byte>) {
    forall i :: 0 <= i < |s| ==> s[i] == 0
  }

  lemma ZerosSplit(n: nat, w: nat)
    requires w <= n
    ensures Zeros(n)[..w] == Zeros(w) && Zeros(n)[w..] == Zeros(n - w)
  {
  }

  lemma ZerosIff(s: seq<byte>)
    ensures IsZeros(s) <==> s == Zeros(|s|)
  {
  }

  lemma ZerosAdd(m: nat, n: nat)
    ensures Zeros(m) + Zeros(n) == Zeros(m + n)
  {
  }

  lemma {:induction false} ZeroInt(w: nat)
    ensures EncodeInt(w, 0) == Zeros(w)
  {
    if w > 0 { ZeroInt(w - 1); }
  }

  lemma Assoc(s: seq<byte>, t: seq<byte>, u: seq<byte>)
    ensures s + (t + u) == (s + t) + u
  {
  }

  /** `s` stands in `b` at `pos`. */
  predicate Stands(b: seq<byte>, pos: nat, s: seq<byte>) {
    pos + |s| <= |b| && b[pos..pos + |s|] == s
  }

  lemma StandsSplit(b: seq<byte>, pos: nat, s: seq<byte>, t: seq<byte>)
    ensures Stands(b, pos, s + t) <==> Stands(b, pos, s) && Stands(b, pos + |s|, t)
  {
    if pos + |s| + |t| <= |b| {
      var u := b[pos..pos + |s| + |t|];
      assert u[..|s|] == b[pos..pos + |s|] && u[|s|..] == b[pos + |s|..pos + |s| + |t|];
      assert (s + t)[..|s|] == s && (s + t)[|s|..] == t;
      assert u == u[..|s|] + u[|s|..];
    }
  }

  // ----- UTF-8, section 4 of RFC 3629 -----

  predicate IsTail(b: byte) { 0x80 <= b <= 0xBF }

  /** Length of the well-formed character at the front of `s`, or 0. */
  function Utf8Char(s: seq<byte>): (n: nat)
    ensures n <= |s|
  {
    if |s| >= 1 && s[0] <= 0x7F then 1
    else if |s| >= 2 && 0xC2 <= s[0] <= 0xDF && IsTail(s[1]) then 2
    else if |s| >= 3 && IsTail(s[2])
      && (|| (s[0] == 0xE0 && 0xA0 <= s[1] <= 0xBF)
          || (s[0] == 0xED && 0x80 <= s[1] <= 0x9F)
          || ((0xE1 <= s[0] <= 0xEC || 0xEE <= s[0] <= 0xEF) && IsTail(s[1]))) then 3
    else if |s| >= 4 && IsTail(s[2]) && IsTail(s[3])
      && (|| (s[0] == 0xF0 && 0x90 <= s[1] <= 0xBF)
          || (0xF1 <= s[0] <= 0xF3 && IsTail(s[1]))
          || (s[0] == 0xF4 && 0x80 <= s[1] <= 0x8F)) then 4
    else 0
  }

  predicate ValidUtf8(s: seq<byte>) {
    s == [] || (Utf8Char(s) > 0 && ValidUtf8(s[Utf8Char(s)..]))
  }
}
