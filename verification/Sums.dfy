/** Products by repeated addition, which spares the proofs nonlinear arithmetic, and their wrap-around in a u64. */
module Sums {
  import opened Bytes

  lemma Times(w: nat, n: nat)
    requires n > 0
    ensures 0 <= w * (n - 1) && w * n == w + w * (n - 1)
  {
  }

  function Sum(w: nat, n: nat): nat {
    if n == 0 then 0 else w + Sum(w, n - 1)
  }

  lemma {:induction false} SumIsProduct(w: nat, n: nat)
    ensures Sum(w, n) == w * n
  {
    if n > 0 { SumIsProduct(w, n - 1); }
  }

  lemma {:induction false} SumOfZeros(n: nat)
    ensures Sum(0, n) == 0
  {
    if n > 0 { SumOfZeros(n - 1); }
  }

  lemma {:induction false} SumGrows(v: nat, w: nat, m: nat, n: nat)
    requires v <= w && m <= n
    ensures Sum(v, m) <= Sum(w, n)
    ensures m < n && w > 0 ==> Sum(v, m) < Sum(w, n)
  {
    if n > 0 { SumGrows(v, w, if m > 0 then m - 1 else 0, n - 1); }
  }

  lemma {:induction false} SumAdds(w: nat, m: nat, n: nat)
    ensures Sum(w, m + n) == Sum(w, m) + Sum(w, n)
  {
    if m > 0 { SumAdds(w, m - 1, n); }
  }

  lemma {:induction false} SumOfSums(w: nat, n: nat, count: nat)
    ensures n * count >= 0 && Sum(w, n * count) == Sum(Sum(w, n), count)
  {
    if count > 0 {
      Times(n, count);
      SumAdds(w, n, n * (count - 1));
      SumOfSums(w, n, count - 1);
    }
  }

  lemma TimesGrows(m: nat, n: nat, c: nat)
    requires m <= n
    ensures 0 <= m * c <= n * c && 0 <= c * m <= c * n
  {
  }

  /** What is left of `n` in a u64 without overflow checks. */
  function Wrap(n: nat): (r: nat)
    ensures r <= n && r < U64_LIMIT
    ensures n < U64_LIMIT ==> r == n
  {
    if n < U64_LIMIT then n else Wrap(n - U64_LIMIT)
  }

  lemma {:induction false} WrapIsModulo(n: nat)
    ensures Wrap(n) == n % U64_LIMIT
  {
    if n >= U64_LIMIT { WrapIsModulo(n - U64_LIMIT); }
  }

  lemma {:induction false} WrapTwice(m: nat, n: nat)
    ensures Wrap(Wrap(m) + n) == Wrap(m + n)
  {
    if m >= U64_LIMIT {
      WrapTwice(m - U64_LIMIT, n);
      assert m - U64_LIMIT + n == m + n - U64_LIMIT;
    }
  }
}
