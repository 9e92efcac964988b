/** Finite sums over an index range, the algebra the binning windows need. */
module Sums {

  /** f(0) + f(1) + ... + f(n - 1). */
  function Sum(n: nat, f: int -> int): (s: int)
  {
    if n == 0 then 0 else Sum(n - 1, f) + f(n - 1)
  }

  lemma {:induction false} SumCongr(n: nat, f: int -> int, g: int -> int)
    requires forall i :: 0 <= i < n ==> f(i) == g(i)
    ensures Sum(n, f) == Sum(n, g)
  {
    if n > 0 {
      SumCongr(n - 1, f, g);
    }
  }

  lemma {:induction false} SumPlus(n: nat, f: int -> int, g: int -> int)
    ensures Sum(n, i => f(i) + g(i)) == Sum(n, f) + Sum(n, g)
  {
    if n > 0 {
      SumPlus(n - 1, f, g);
    }
  }

  lemma {:induction false} SumScale(n: nat, m: int, f: int -> int)
    ensures Sum(n, i => m * f(i)) == m * Sum(n, f)
  {
    if n > 0 {
      SumScale(n - 1, m, f);
    }
  }

  lemma {:induction false} SumZero(n: nat)
    ensures Sum(n, _ => 0) == 0
  {
    if n > 0 {
      SumZero(n - 1);
    }
  }

  lemma {:induction false} SumConcat(n: nat, m: nat, f: int -> int)
    ensures Sum(n + m, f) == Sum(n, f) + Sum(m, j => f(n + j))
  {
    if m > 0 {
      SumConcat(n, m - 1, f);
    }
  }

  /** Order of summation does not matter. */
  lemma {:induction false} SumSwap(n: nat, m: nat, f: (int, int) -> int)
    ensures Sum(n, i => Sum(m, j => f(i, j))) == Sum(m, j => Sum(n, i => f(i, j)))
  {
    var inner := (i: int) => Sum(m, j => f(i, j));
    SumCongr(n, inner, i => Sum(m, j => f(i, j)));
    if n == 0 {
      SumZero(m);
      SumCongr(m, j => Sum(n, i => f(i, j)), _ => 0);
    } else {
      SumSwap(n - 1, m, f);
      var last := (j: int) => f(n - 1, j);
      var rest := (j: int) => Sum(n - 1, i => f(i, j));
      SumCongr(m, j => f(n - 1, j), last);
      SumCongr(m, j => Sum(n - 1, i => f(i, j)), rest);
      SumPlus(m, rest, last);
      SumCongr(m, j => Sum(n, i => f(i, j)), j => rest(j) + last(j));
      SumCongr(n - 1, inner, i => Sum(m, j => f(i, j)));
    }
  }

  /** A sum over n * m terms is n blocks of m. */
  lemma MulNext(n: int, m: int)
    requires n >= 1 && m >= 0
    ensures n * m == (n - 1) * m + m && (n - 1) * m >= 0
  {
  }

  lemma {:induction false} SumSplit(n: nat, m: nat, f: int -> int)
    ensures n * m >= 0 && Sum(n * m, f) == Sum(n, q => Sum(m, r => f(q * m + r)))
  {
    if n > 0 {
      SumSplit(n - 1, m, f);
      MulNext(n, m);
      SumConcat((n - 1) * m, m, f);
      SumCongr(m, j => f((n - 1) * m + j), r => f((n - 1) * m + r));
    }
  }

  lemma {:induction false} SumFromFirst(n: nat, g: int -> int, h: int -> int)
    requires n > 0 && forall j :: 0 <= j < n - 1 ==> h(j) == g(1 + j)
    ensures Sum(n, g) == g(0) + Sum(n - 1, h)
  {
    if n > 1 {
      SumFromFirst(n - 1, g, h);
      assert h(n - 2) == g(1 + (n - 2));
    }
  }

  /** A sum runs as well backwards. */
  lemma {:induction false} SumBackwards(n: nat, f: int -> int, g: int -> int)
    requires forall i :: 0 <= i < n ==> g(i) == f(n - 1 - i)
    ensures Sum(n, f) == Sum(n, g)
  {
    if n > 0 {
      assert Sum(n, f) == Sum(n - 1, f) + f(n - 1);
      hide Sum;
      var h := (j: int) => g(1 + j);
      forall j | 0 <= j < n - 1
        ensures h(j) == f(n - 1 - 1 - j)
      {
        assert g(1 + j) == f(n - 1 - (1 + j));
      }
      SumBackwards(n - 1, f, h);
      SumFromFirst(n, g, h);
    }
  }

  lemma SumReverse(n: nat, f: int -> int)
    ensures Sum(n, f) == Sum(n, i => f(n - 1 - i))
  {
    hide Sum;
    SumBackwards(n, f, i => f(n - 1 - i));
  }
}
