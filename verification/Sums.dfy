/** Finite sums of integer terms. */
module Sums {
  import opened Arith

  function Sum(n: nat, f: int -> int): int {
    if n == 0 then 0 else Sum(n - 1, f) + f(n - 1)
  }

  lemma {:induction false} SumExt(n: nat, f: int -> int, g: int -> int)
    requires forall k :: 0 <= k < n ==> f(k) == g(k)
    ensures Sum(n, f) == Sum(n, g)
  {
    if n > 0 { SumExt(n - 1, f, g); }
  }

  lemma {:induction false} SumAdd(n: nat, f: int -> int, g: int -> int)
    ensures Sum(n, k => f(k) + g(k)) == Sum(n, f) + Sum(n, g)
  {
    if n > 0 { SumAdd(n - 1, f, g); }
  }

  lemma {:induction false} SumScale(n: nat, c: int, f: int -> int)
    ensures Sum(n, k => c * f(k)) == c * Sum(n, f)
  {
    if n > 0 { SumScale(n - 1, c, f); }
  }

  lemma {:induction false} SumConst(n: nat, c: int)
    ensures Sum(n, _ => c) == n * c
  {
    if n > 0 {
      SumConst(n - 1, c);
      assert n * c == (n - 1) * c + c;
    }
  }

  lemma {:induction false} SumSplit(n: nat, m: nat, f: int -> int)
    ensures Sum(n + m, f) == Sum(n, f) + Sum(m, j => f(n + j))
  {
    if m > 0 { SumSplit(n, m - 1, f); }
  }

  lemma {:induction false} SumPairs(n: nat, f: int -> int)
    ensures Sum(2 * n, f) == Sum(n, l => f(2 * l) + f(2 * l + 1))
  {
    if n > 0 {
      SumPairs(n - 1, f);
      assert Sum(2 * n, f) == Sum(2 * (n - 1), f) + f(2 * n - 2) + f(2 * n - 1);
    }
  }

  /** Exchanging the order of summation. */
  lemma {:induction false} SumSwap(n: nat, m: nat, h: (int, int) -> int)
    ensures Sum(n, i => Sum(m, j => h(i, j))) == Sum(m, j => Sum(n, i => h(i, j)))
  {
    if n == 0 {
      SumConst(m, 0);
      SumExt(m, j => Sum(n, i => h(i, j)), _ => 0);
    } else {
      SumSwap(n - 1, m, h);
      var f, g := j => Sum(n - 1, i => h(i, j)), j => h(n - 1, j);
      SumAdd(m, f, g);
      SumExt(m, k => f(k) + g(k), j => Sum(n, i => h(i, j)));
      SumExt(m, g, j => h(n - 1, j));
    }
  }

  /** A sum with one non-zero term. */
  lemma {:induction false} SumDelta(n: nat, k: int, f: int -> int)
    requires 0 <= k < n && forall j :: 0 <= j < n && j != k ==> f(j) == 0
    ensures Sum(n, f) == f(k)
  {
    if k == n - 1 {
      SumConst(n - 1, 0);
      SumExt(n - 1, f, _ => 0);
    } else {
      SumDelta(n - 1, k, f);
    }
  }

  lemma {:induction false} SumBound(n: nat, f: int -> int, b: int)
    requires forall k :: 0 <= k < n ==> -b <= f(k) <= b
    ensures -(n * b) <= Sum(n, f) <= n * b
  {
    if n > 0 {
      SumBound(n - 1, f, b);
      assert n * b == (n - 1) * b + b;
    }
  }

  lemma {:induction false} SumResidue(n: nat, f: int -> int, g: int -> int, m: int)
    requires m > 0 && forall k :: 0 <= k < n ==> f(k) % m == g(k) % m
    ensures Sum(n, f) % m == Sum(n, g) % m
  {
    if n > 0 {
      SumResidue(n - 1, f, g, m);
      ModAdd(Sum(n - 1, f), f(n - 1), m);
      ModAdd(Sum(n - 1, g), g(n - 1), m);
    }
  }
}
