/** The sizing loops over child slices, each proved to compute its apportionment. */
module Sizing {
  import opened Numbers
  import opened Apportion

  method RaiseSizesToMinimums(sizes: array<int>, minimums: seq<int>) returns (ok: bool)
    requires sizes.Length == |minimums|
    modifies sizes
    ensures (sizes[..], ok) == Raise(old(sizes[..]), minimums)
  {
    hide Raised;
    hide Repay;
    hide Deficit;
    ghost var was := sizes[..];
    ghost var up := Raised(was, minimums);
    var deficit := RaiseEach(sizes, minimums);
    RepayNothing(up, minimums);
    if deficit == 0 {
      return true;
    }
    deficit := TakeBack(sizes, minimums, deficit);
    ok := deficit == 0;
  }

  /** Lifts each size to its minimum and counts the cells that cost. */
  method RaiseEach(sizes: array<int>, minimums: seq<int>) returns (deficit: nat)
    requires sizes.Length == |minimums|
    modifies sizes
    ensures sizes[..] == Raised(old(sizes[..]), minimums)
    ensures deficit == Deficit(old(sizes[..]), minimums)
  {
    ghost var was := sizes[..];
    ghost var up := Raised(was, minimums);
    deficit := 0;
    for i := 0 to sizes.Length
      invariant forall j :: 0 <= j < sizes.Length ==> sizes[j] == if j < i then up[j] else was[j]
      invariant deficit == Sum(up[..i]) - Sum(was[..i])
    {
      SumPrefix(up, i);
      SumPrefix(was, i);
      if sizes[i] < minimums[i] {
        deficit := deficit + minimums[i] - sizes[i];
        sizes[i] := minimums[i];
      }
    }
    assert up[..sizes.Length] == up && was[..sizes.Length] == was;
  }

  /** Takes the deficit back from the surplus over the minimums, last sibling first. */
  method TakeBack(sizes: array<int>, minimums: seq<int>, owed: nat) returns (deficit: nat)
    requires sizes.Length == |minimums|
    modifies sizes
    ensures (sizes[..], deficit) == Repay(old(sizes[..]), minimums, owed)
  {
    hide Repay;
    ghost var was := sizes[..];
    ghost var goal := Repay(was, minimums, owed);
    deficit := owed;
    var i := sizes.Length;
    assert was[..i] == was && minimums[..i] == minimums && sizes[i..] == [];
    while i > 0 && deficit > 0
      invariant 0 <= i <= sizes.Length
      invariant forall j :: 0 <= j < i ==> sizes[j] == was[j]
      invariant goal.0 == Repay(was[..i], minimums[..i], deficit).0 + sizes[i..]
      invariant goal.1 == Repay(was[..i], minimums[..i], deficit).1
    {
      i := i - 1;
      ghost var tail := sizes[i + 1..];
      var take := sizes[i] - minimums[i];
      RepayStep(was, minimums, i, deficit);
      if take > 0 {
        if take > deficit {
          take := deficit;
        }
        sizes[i] := sizes[i] - take;
        deficit := deficit - take;
      }
      assert sizes[i..] == [sizes[i]] + tail;
    }
    RepayDone(was, minimums, i, deficit);
    assert sizes[..] == was[..i] + sizes[i..];
  }

  lemma RepayStep(sizes: seq<int>, minimums: seq<int>, i: nat, deficit: nat)
    requires i < |sizes| == |minimums|
    ensures var take := Min(Max(sizes[i] - minimums[i], 0), deficit);
      var rest := Repay(sizes[..i], minimums[..i], deficit - take);
      Repay(sizes[..i + 1], minimums[..i + 1], deficit) == (rest.0 + [sizes[i] - take], rest.1)
  {
    assert sizes[..i + 1][..i] == sizes[..i] && minimums[..i + 1][..i] == minimums[..i];
  }

  lemma RepayDone(sizes: seq<int>, minimums: seq<int>, i: nat, deficit: nat)
    requires i <= |sizes| == |minimums| && (i == 0 || deficit == 0)
    ensures Repay(sizes[..i], minimums[..i], deficit) == (sizes[..i], deficit)
  {
    if deficit == 0 {
      RepayNothing(sizes[..i], minimums[..i]);
    }
  }

  /** Largest-remainder sizes for siblings of the given present sizes. */
  method ProportionalChildSizes(current: seq<int>, target: int) returns (sizes: array<int>)
    ensures fresh(sizes) && sizes[..] == Proportional(current, target)
  {
    hide Shared;
    hide EvenExtra;
    hide Sum;
    var n := |current|;
    sizes := new int[n](_ => PANE_MIN_SIZE);
    if n == 0 {
      return;
    }
    var extra := Max(target - (n - 1), PANE_MIN_SIZE * n) - PANE_MIN_SIZE * n;
    if extra == 0 {
      return;
    }
    var weights := Weights(current);
    var total := SumOf(weights);
    if total <= 0 {
      sizes := SpreadEvenly(n, extra);
    } else {
      sizes := ShareByWeight(extra, weights, total);
    }
  }

  method SumOf(s: seq<int>) returns (total: int)
    ensures total == Sum(s)
  {
    total := 0;
    for i := 0 to |s|
      invariant total == Sum(s[..i])
    {
      SumPrefix(s, i);
      total := total + s[i];
    }
    assert s[..|s|] == s;
  }

  method SpreadEvenly(n: nat, extra: nat) returns (sizes: array<int>)
    requires n > 0
    ensures fresh(sizes) && sizes[..] == EvenExtra(n, extra)
  {
    sizes := new int[n];
    var base, leftover := extra / n, extra % n;
    for i := 0 to n
      invariant forall j :: 0 <= j < i ==> sizes[j] == EvenExtra(n, extra)[j]
    {
      sizes[i] := PANE_MIN_SIZE + base;
      if i >= n - leftover {
        sizes[i] := sizes[i] + 1;
      }
    }
  }

  method ShareByWeight(extra: nat, weights: seq<int>, total: int) returns (sizes: array<int>)
    requires total == Sum(weights) > 0
    ensures fresh(sizes) && sizes[..] == Shared(extra, weights)
  {
    hide Sum;
    hide Order;
    hide Bump;
    hide Leftover;
    var n := |weights|;
    sizes := new int[n];
    var rems := [];
    var given := 0;
    ghost var shares := Shares(extra, weights, total);
    SumEmpty(shares);
    for i := 0 to n
      invariant |rems| == i && forall j :: 0 <= j < i ==> rems[j] == Remainders(extra, weights, total)[j]
      invariant forall j :: 0 <= j < i ==> sizes[j] == PANE_MIN_SIZE + shares[j]
      invariant given == Sum(shares[..i])
    {
      SumPrefix(shares, i);
      var share := extra * weights[i] / total;
      sizes[i] := PANE_MIN_SIZE + share;
      given := given + share;
      rems := rems + [extra * weights[i] % total];
    }
    assert rems == Remainders(extra, weights, total);
    assert shares[..n] == shares && sizes[..] == BaseSizes(shares);
    LeftoverIs(extra, weights);
    var leftover := extra - given;
    var order := Order(rems, n);
    BumpInOrder(sizes, order, leftover);
  }

  lemma SumEmpty(s: seq<int>)
    ensures Sum(s[..0]) == 0
  {
  }

  lemma LeftoverIs(extra: nat, weights: seq<int>)
    requires Sum(weights) > 0
    ensures Leftover(extra, weights) == extra - Sum(Shares(extra, weights, Sum(weights)))
    ensures 0 <= Leftover(extra, weights) <= |weights|
  {
    LeftoverBounds(extra, weights);
  }

  /** One more cell for each of the first `leftover` siblings in priority order. */
  method BumpInOrder(sizes: array<int>, order: seq<nat>, leftover: nat)
    requires leftover <= |order| && forall a :: 0 <= a < |order| ==> order[a] < sizes.Length
    modifies sizes
    ensures sizes[..] == Bump(old(sizes[..]), order[..leftover])
  {
    ghost var base := sizes[..];
    for i := 0 to leftover
      invariant sizes[..] == Bump(base, order[..i])
    {
      assert order[..i + 1][..i] == order[..i];
      sizes[order[i]] := sizes[order[i]] + 1;
    }
  }

  /** Proportional sizes respecting subtree minimums; `target` excludes separators. */
  method ProportionalSubtreeChildSizes(current: seq<int>, minimums: seq<int>, target: int) returns (sizes: seq<int>)
    requires |current| == |minimums|
    ensures sizes == Fit(current, minimums, target)
    ensures |current| > 0 && (forall i :: 0 <= i < |minimums| ==> minimums[i] >= PANE_MIN_SIZE)
      ==> Sum(sizes) == Max(target, Sum(minimums)) && Fitted(current, minimums, sizes)
  {
    hide Proportional;
    hide Raise;
    hide Sum;
    hide Fitted;
    if |current| > 0 && forall i :: 0 <= i < |minimums| ==> minimums[i] >= PANE_MIN_SIZE {
      FitFills(current, minimums, target);
    }
    if |current| == 0 {
      return [];
    }
    var least := SumOf(minimums);
    var goal := if target < least then least else target;
    var fitted := ProportionalChildSizes(current, goal + |current| - 1);
    var ok := RaiseSizesToMinimums(fitted, minimums);
    sizes := fitted[..];
  }

  method EqualSplitSizes(total: int, count: nat) returns (sizes: array<int>)
    ensures fresh(sizes) && sizes[..] == EqualSizes(total, count)
    ensures count > 0 ==> Sum(sizes[..]) == total - (count - 1)
    ensures 0 < count <= total + 1 ==> Even(sizes[..])
  {
    sizes := new int[count];
    if count == 0 {
      return;
    }
    var room := total - (count - 1);
    var each := Quot(room, count);
    for i := 0 to count
      invariant forall j :: 0 <= j < i ==> sizes[j] == each
    {
      sizes[i] := each;
    }
    sizes[count - 1] := room - each * (count - 1);
    assert sizes[..] == EqualSizes(total, count);
    EqualSizesFill(total, count);
  }

  /** Equal sizes respecting subtree minimums, when those fit. */
  method EqualSubtreeSplitSizes(minimums: seq<int>, total: int) returns (sizes: seq<int>, ok: bool)
    ensures ok == EqualFit(minimums, total).1
    ensures ok ==> sizes == EqualFit(minimums, total).0
    ensures ok && total >= |minimums| - 1 ==> Leveled(minimums, sizes)
  {
    hide EqualSizes;
    hide Raise;
    if |minimums| == 0 {
      return [], false;
    }
    var equal := EqualSplitSizes(total, |minimums|);
    ok := RaiseSizesToMinimums(equal, minimums);
    sizes := equal[..];
    EqualFitFills(minimums, total);
  }
}
