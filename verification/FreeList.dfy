/** The choices the pool makes on its free list, by buffer size. */
module FreeList {
  import opened Wrappers

  function SumSizes(s: seq<nat>): (n: nat)
  {
    if |s| == 0 then 0 else SumSizes(s[..|s| - 1]) + s[|s| - 1]
  }

  function Without<T>(s: seq<T>, i: nat): (r: seq<T>)
    requires i < |s|
    ensures |r| == |s| - 1
  {
    s[..i] + s[i + 1..]
  }

  /** All but the last, without i. */
  lemma FrontWithout<T>(s: seq<T>, i: nat)
    requires i < |s|
    ensures var n := |s| - 1;
      if i < n then Without(s, i)[..n - 1] == Without(s[..n], i) && Without(s, i)[n - 1] == s[n]
      else Without(s, i) == s[..n]
  {
  }

  lemma {:induction false} SumConcat(a: seq<nat>, b: seq<nat>)
    ensures SumSizes(a + b) == SumSizes(a) + SumSizes(b)
  {
    if |b| == 0 {
      assert a + b == a;
    } else {
      assert (a + b)[..|a + b| - 1] == a + b[..|b| - 1];
      SumConcat(a, b[..|b| - 1]);
    }
  }

  lemma {:induction false} SumWithout(s: seq<nat>, i: nat)
    requires i < |s|
    ensures SumSizes(Without(s, i)) == SumSizes(s) - s[i]
  {
    var n := |s| - 1;
    if i < n {
      assert Without(s, i)[..n - 1] == Without(s[..n], i);
      SumWithout(s[..n], i);
    } else {
      assert Without(s, i) == s[..n];
    }
  }

  lemma SumPush(s: seq<nat>, x: nat)
    ensures SumSizes(s + [x]) == SumSizes(s) + x
  {
    assert (s + [x])[..|s|] == s;
  }

  lemma SumFirst(s: seq<nat>)
    ensures SumSizes(s) == if |s| == 0 then 0 else s[0] + SumSizes(s[1..])
  {
    if |s| > 0 {
      assert s == [s[0]] + s[1..];
      SumConcat([s[0]], s[1..]);
    }
  }

  lemma SumNext(s: seq<nat>, k: nat)
    requires k <= |s|
    ensures k == 0 ==> SumSizes(s[..k]) == 0
    ensures k < |s| ==> SumSizes(s[..k + 1]) == SumSizes(s[..k]) + s[k]
  {
    if k < |s| {
      assert s[..k + 1] == s[..k] + [s[k]];
      SumPush(s[..k], s[k]);
    }
  }

  lemma {:induction false} SumAtLeast(s: seq<nat>, i: nat)
    requires i < |s|
    ensures s[i] <= SumSizes(s)
  {
    SumWithout(s, i);
  }

  /** i is the first of the smallest buffers that hold `need`. */
  ghost predicate IsBestFit(free: seq<nat>, need: nat, i: nat)
  {
    && i < |free| && free[i] >= need
    && forall j :: 0 <= j < |free| && free[j] >= need ==> free[i] < free[j] || (free[i] == free[j] && i <= j)
  }

  /** The smallest free buffer that holds `need`, the first of equals. */
  function BestFit(free: seq<nat>, need: nat): (r: Option<nat>)
    ensures r.None? <==> forall j :: 0 <= j < |free| ==> free[j] < need
    ensures r.Some? ==> IsBestFit(free, need, r.value)
  {
    if |free| == 0 then None
    else
      var n := |free| - 1;
      var best := BestFit(free[..n], need);
      assert forall j :: 0 <= j < n ==> free[j] == free[..n][j];
      if free[n] >= need && (best.None? || free[n] < free[best.value]) then Some(n) else best
  }

  /** The largest free buffer, the last of equals. */
  function Largest(free: seq<nat>): (i: nat)
    requires |free| > 0
    ensures i < |free|
    ensures forall j :: 0 <= j < |free| ==> free[j] < free[i] || (free[j] == free[i] && j <= i)
  {
    var n := |free| - 1;
    if n == 0 then 0
    else
      var best := Largest(free[..n]);
      assert forall j :: 0 <= j < n ==> free[j] == free[..n][j];
      if free[best] <= free[n] then n else best
  }

  /** A buffer over 1.5 times the request is not reused. */
  predicate TooLarge(size: nat, need: nat)
  {
    2 * size > 3 * need
  }

  /** The charge covers the request and is at most 1.5 times it. */
  ghost predicate Snug(requested: nat, charge: nat)
  {
    requested <= charge && 2 * charge <= 3 * requested
  }

  /** Snug one by one, snug in total. */
  lemma {:induction false} SnugSums(requested: seq<nat>, charged: seq<nat>)
    requires |requested| == |charged| && forall i :: 0 <= i < |requested| ==> Snug(requested[i], charged[i])
    ensures SumSizes(requested) <= SumSizes(charged) && 2 * SumSizes(charged) <= 3 * SumSizes(requested)
  {
    var n := |requested| - 1;
    if n >= 0 {
      SnugSums(requested[..n], charged[..n]);
      assert Snug(requested[n], charged[n]);
    }
  }
}
