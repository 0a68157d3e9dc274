/** Sums, maxima and pointwise facts about sequences of cell counts. */
module Numbers {

  function Max(a: int, b: int): int {
    if a < b then b else a
  }

  function Min(a: int, b: int): int {
    if a < b then a else b
  }

  function Sum(s: seq<int>): int {
    if s == [] then 0 else Sum(s[..|s| - 1]) + s[|s| - 1]
  }

  /** The largest element, or 0 when every element is negative or there is none. */
  function MaxOf(s: seq<int>): int {
    if s == [] then 0 else Max(MaxOf(s[..|s| - 1]), s[|s| - 1])
  }

  lemma {:induction false} SumConcat(a: seq<int>, b: seq<int>)
    ensures Sum(a + b) == Sum(a) + Sum(b)
    decreases |b|
  {
    if b == [] {
      assert a + b == a;
    } else {
      assert (a + b)[..|a + b| - 1] == a + b[..|b| - 1];
      SumConcat(a, b[..|b| - 1]);
    }
  }

  lemma {:induction false} SumPrefix(s: seq<int>, k: nat)
    requires k < |s|
    ensures Sum(s[..k + 1]) == Sum(s[..k]) + s[k]
  {
    assert s[..k + 1][..k] == s[..k];
  }

  lemma SumSplit(s: seq<int>, k: nat)
    requires k <= |s|
    ensures Sum(s) == Sum(s[..k]) + Sum(s[k..])
  {
    assert s == s[..k] + s[k..];
    SumConcat(s[..k], s[k..]);
  }

  lemma {:induction false} SumUpdate(s: seq<int>, i: nat, v: int)
    requires i < |s|
    ensures Sum(s[i := v]) == Sum(s) - s[i] + v
  {
    assert s[i := v] == s[..i] + [v] + s[i + 1..];
    assert s == s[..i] + [s[i]] + s[i + 1..];
    SumConcat(s[..i] + [v], s[i + 1..]);
    SumConcat(s[..i], [v]);
    SumConcat(s[..i] + [s[i]], s[i + 1..]);
    SumConcat(s[..i], [s[i]]);
  }

  lemma {:induction false} SumInsert(s: seq<int>, i: nat, v: int)
    requires i <= |s|
    ensures Sum(s[..i] + [v] + s[i..]) == Sum(s) + v
  {
    SumSplit(s, i);
    SumConcat(s[..i] + [v], s[i..]);
    SumConcat(s[..i], [v]);
  }

  /** Pointwise bounds carry over to sums; equal sums under a pointwise bound mean equal sequences. */
  lemma {:induction false} SumMonotone(a: seq<int>, b: seq<int>)
    requires |a| == |b| && forall i :: 0 <= i < |a| ==> a[i] <= b[i]
    ensures Sum(a) <= Sum(b)
    ensures Sum(a) == Sum(b) ==> a == b
    decreases |a|
  {
    if a != [] {
      var n := |a| - 1;
      SumMonotone(a[..n], b[..n]);
      assert a == a[..n] + [a[n]] && b == b[..n] + [b[n]];
    }
  }

  lemma {:induction false} SumBetween(s: seq<int>, lo: int, hi: int)
    requires forall i :: 0 <= i < |s| ==> lo <= s[i] <= hi
    ensures lo * |s| <= Sum(s) <= hi * |s|
    decreases |s|
  {
    if s != [] {
      var n := |s| - 1;
      SumBetween(s[..n], lo, hi);
      assert lo * (n + 1) == lo * n + lo && hi * (n + 1) == hi * n + hi;
    }
  }

  /** Sum of a pointwise difference. */
  lemma {:induction false} SumMinus(a: seq<int>, b: seq<int>, d: seq<int>)
    requires |a| == |b| == |d| && forall i :: 0 <= i < |a| ==> d[i] == a[i] - b[i]
    ensures Sum(d) == Sum(a) - Sum(b)
    decreases |a|
  {
    if a != [] {
      var n := |a| - 1;
      SumMinus(a[..n], b[..n], d[..n]);
    }
  }

  lemma {:induction false} MaxOfBounds(s: seq<int>, i: nat)
    requires i < |s|
    ensures s[i] <= MaxOf(s)
    decreases |s|
  {
    if i < |s| - 1 {
      MaxOfBounds(s[..|s| - 1], i);
    }
  }

  lemma {:induction false} MaxOfLeast(s: seq<int>, bound: int)
    requires 0 <= bound && forall i :: 0 <= i < |s| ==> s[i] <= bound
    ensures 0 <= MaxOf(s) <= bound
    decreases |s|
  {
    if s != [] {
      MaxOfLeast(s[..|s| - 1], bound);
    }
  }
}
