/**
 * How a row or column of cells is divided among siblings: largest-remainder
 * sizing, equal sizing, and raising sizes to subtree minimums.
 */
module Apportion {
  import opened Numbers

  const PANE_MIN_SIZE := 2

  // ----- largest remainder -----

  /** Excess of each child over the pane minimum; its weight in the division. */
  function Weights(current: seq<int>): (w: seq<int>)
    ensures |w| == |current|
    ensures forall i :: 0 <= i < |w| ==> w[i] == Max(current[i] - PANE_MIN_SIZE, 0)
  {
    seq(|current|, i requires 0 <= i < |current| => Max(current[i] - PANE_MIN_SIZE, 0))
  }

  function Shares(extra: nat, weights: seq<int>, total: int): (s: seq<int>)
    requires total > 0
    ensures |s| == |weights|
  {
    seq(|weights|, i requires 0 <= i < |weights| => extra * weights[i] / total)
  }

  function Remainders(extra: nat, weights: seq<int>, total: int): (r: seq<int>)
    requires total > 0
    ensures |r| == |weights|
    ensures forall i :: 0 <= i < |r| ==> 0 <= r[i] < total
  {
    seq(|weights|, i requires 0 <= i < |weights| => extra * weights[i] % total)
  }

  /** Priority for a leftover cell: larger remainder first, then the later sibling. */
  predicate Before(rems: seq<int>, i: nat, j: nat)
    requires i < |rems| && j < |rems|
  {
    rems[i] > rems[j] || (rems[i] == rems[j] && i > j)
  }

  ghost predicate Ordered(rems: seq<int>, order: seq<nat>) {
    && (forall a :: 0 <= a < |order| ==> order[a] < |rems|)
    && (forall a, b :: 0 <= a < b < |order| ==> Before(rems, order[a], order[b]))
  }

  function Pick(rems: seq<int>, order: seq<nat>): (p: seq<int>)
    requires forall a :: 0 <= a < |order| ==> order[a] < |rems|
    ensures |p| == |order|
    ensures forall a :: 0 <= a < |order| ==> p[a] == rems[order[a]]
  {
    seq(|order|, a requires 0 <= a < |order| => rems[order[a]])
  }

  /** Position at which sibling i enters an order. */
  function Slot(rems: seq<int>, order: seq<nat>, i: nat): (k: nat)
    requires i < |rems| && forall a :: 0 <= a < |order| ==> order[a] < |rems|
    ensures k <= |order|
    ensures forall a :: 0 <= a < k ==> Before(rems, order[a], i)
    ensures k < |order| ==> !Before(rems, order[k], i)
  {
    if order == [] || !Before(rems, order[0], i) then 0
    else Slot(rems, order[1..], i) + 1
  }

  /** The siblings 0..n-1 sorted by priority (the stable sort of the remainder records). */
  function Order(rems: seq<int>, n: nat): (order: seq<nat>)
    requires n <= |rems|
    ensures |order| == n && forall a :: 0 <= a < n ==> order[a] < n
  {
    if n == 0 then []
    else
      var prev := Order(rems, n - 1);
      var k := Slot(rems, prev, n - 1);
      prev[..k] + [n - 1] + prev[k..]
  }

  /** The sort is a permutation of 0..n-1 in strictly decreasing priority. */
  lemma {:induction false} OrderSorts(rems: seq<int>, n: nat)
    requires n <= |rems|
    ensures Ordered(rems, Order(rems, n))
    decreases n
  {
    hide Slot;
    hide Ordered;
    if n == 0 {
      NothingOrdered(rems);
    } else {
      OrderSorts(rems, n - 1);
      var prev := Order(rems, n - 1);
      InsertOrdered(rems, prev, n - 1, Slot(rems, prev, n - 1));
    }
  }

  lemma NothingOrdered(rems: seq<int>)
    ensures Ordered(rems, [])
  {
  }

  lemma {:induction false} OrderCovers(rems: seq<int>, n: nat)
    requires n <= |rems|
    ensures forall i :: 0 <= i < n ==> i in Order(rems, n)
    decreases n
  {
    if n > 0 {
      OrderCovers(rems, n - 1);
      var prev := Order(rems, n - 1);
      InsertCovers(prev, n - 1, Slot(rems, prev, n - 1));
    }
  }

  lemma {:induction false} OrderSum(rems: seq<int>, n: nat)
    requires n <= |rems|
    ensures Sum(Pick(rems, Order(rems, n))) == Sum(rems[..n])
    decreases n
  {
    if n > 0 {
      OrderSum(rems, n - 1);
      var prev := Order(rems, n - 1);
      InsertSum(rems, prev, n - 1, Slot(rems, prev, n - 1));
    }
  }

  lemma {:induction false} InsertOrdered(rems: seq<int>, prev: seq<nat>, i: nat, k: nat)
    requires |prev| == i < |rems| && Ordered(rems, prev)
    requires forall a :: 0 <= a < i ==> prev[a] < i
    requires k == Slot(rems, prev, i)
    ensures Ordered(rems, prev[..k] + [i] + prev[k..])
  {
    hide Slot;
    forall b | k <= b < i ensures Before(rems, i, prev[b]) {
      assert b > k ==> Before(rems, prev[k], prev[b]);
    }
    var out := prev[..k] + [i] + prev[k..];
    assert forall a :: 0 <= a < |out| ==> out[a] == if a < k then prev[a] else if a == k then i else prev[a - 1];
  }

  lemma {:induction false} InsertCovers(prev: seq<nat>, i: nat, k: nat)
    requires |prev| == i && k <= i
    requires forall j :: 0 <= j < i ==> j in prev
    ensures forall j :: 0 <= j <= i ==> j in prev[..k] + [i] + prev[k..]
  {
    var order := prev[..k] + [i] + prev[k..];
    assert order[k] == i;
    forall j | 0 <= j < i ensures j in order {
      assert j in prev;
      assert prev == prev[..k] + prev[k..];
    }
  }

  lemma {:induction false} InsertSum(rems: seq<int>, prev: seq<nat>, i: nat, k: nat)
    requires |prev| == i < |rems| && k <= i
    requires forall a :: 0 <= a < i ==> prev[a] < i
    requires Sum(Pick(rems, prev)) == Sum(rems[..i])
    ensures Sum(Pick(rems, prev[..k] + [i] + prev[k..])) == Sum(rems[..i + 1])
  {
    var p := Pick(rems, prev);
    assert Pick(rems, prev[..k] + [i] + prev[k..]) == p[..k] + [rems[i]] + p[k..];
    SumInsert(p, k, rems[i]);
    SumPrefix(rems, i);
  }

  /** One more cell for each listed sibling. */
  function Bump(sizes: seq<int>, order: seq<nat>): (r: seq<int>)
    requires forall a :: 0 <= a < |order| ==> order[a] < |sizes|
    ensures |r| == |sizes|
    ensures Sum(r) == Sum(sizes) + |order|
  {
    if order == [] then sizes
    else
      var r := Bump(sizes, order[..|order| - 1]);
      var i := order[|order| - 1];
      SumUpdate(r, i, r[i] + 1);
      r[i := r[i] + 1]
  }

  lemma {:induction false} BumpOnce(sizes: seq<int>, order: seq<nat>, i: nat)
    requires forall a :: 0 <= a < |order| ==> order[a] < |sizes|
    requires forall a, b :: 0 <= a < b < |order| ==> order[a] != order[b]
    requires i < |sizes|
    ensures Bump(sizes, order)[i] == sizes[i] + (if i in order then 1 else 0)
    decreases |order|
  {
    if order != [] {
      var n := |order| - 1;
      BumpOnce(sizes, order[..n], i);
      assert order == order[..n] + [order[n]];
    }
  }

  /** Extra cells to hand out above the pane minimum, for n siblings and their separators. */
  function Extra(n: nat, target: int): (e: nat) {
    Max(target - (n - 1) - PANE_MIN_SIZE * n, 0)
  }

  function BaseSizes(shares: seq<int>): (s: seq<int>)
    ensures |s| == |shares|
    ensures forall i :: 0 <= i < |s| ==> s[i] == PANE_MIN_SIZE + shares[i]
  {
    seq(|shares|, i requires 0 <= i < |shares| => PANE_MIN_SIZE + shares[i])
  }

  /** All weights zero: spread evenly, the leftover going to the last siblings. */
  function EvenExtra(n: nat, extra: nat): (s: seq<int>)
    requires n > 0
    ensures |s| == n
    ensures forall i :: 0 <= i < n ==>
      s[i] == PANE_MIN_SIZE + extra / n + (if i >= n - extra % n then 1 else 0)
  {
    seq(n, i requires 0 <= i < n =>
      PANE_MIN_SIZE + extra / n + (if i >= n - extra % n then 1 else 0))
  }

  function Leftover(extra: nat, weights: seq<int>): int
    requires Sum(weights) > 0
  {
    extra - Sum(Shares(extra, weights, Sum(weights)))
  }

  /** Sizes for siblings whose present sizes are `current`, to fill `target` cells with separators. */
  function Proportional(current: seq<int>, target: int): (s: seq<int>)
    ensures |s| == |current|
  {
    var n := |current|;
    if n == 0 then [] else
    var extra := Extra(n, target);
    var weights := Weights(current);
    var total := Sum(weights);
    if extra == 0 then seq(n, _ => PANE_MIN_SIZE)
    else if total <= 0 then EvenExtra(n, extra)
    else Shared(extra, weights)
  }

  /** The siblings that are rounded up. */
  function RoundedUp(extra: nat, weights: seq<int>): (up: seq<nat>)
    requires Sum(weights) > 0
    ensures forall a :: 0 <= a < |up| ==> up[a] < |weights|
    ensures |up| == Leftover(extra, weights)
  {
    LeftoverBounds(extra, weights);
    Order(Remainders(extra, weights, Sum(weights)), |weights|)[..Leftover(extra, weights)]
  }

  /** Floors of the quotas, plus one cell for each sibling rounded up. */
  function Shared(extra: nat, weights: seq<int>): (s: seq<int>)
    requires Sum(weights) > 0
    ensures |s| == |weights|
  {
    Bump(BaseSizes(Shares(extra, weights, Sum(weights))), RoundedUp(extra, weights))
  }

  lemma {:induction false} Distribute(k: int, a: int, b: int)
    ensures k * (a + b) == k * a + k * b
  {
  }

  /** Shares and remainders account for every cell of the exact quotas. */
  lemma {:induction false} QuotaIdentity(extra: nat, weights: seq<int>, total: int)
    requires total > 0
    ensures total * Sum(Shares(extra, weights, total)) + Sum(Remainders(extra, weights, total))
            == extra * Sum(weights)
    decreases |weights|
  {
    if weights != [] {
      var n := |weights| - 1;
      var q, r := Shares(extra, weights, total), Remainders(extra, weights, total);
      QuotaIdentity(extra, weights[..n], total);
      assert q[..n] == Shares(extra, weights[..n], total);
      assert r[..n] == Remainders(extra, weights[..n], total);
      QuotaAt(extra, weights, total, n);
      Distribute(total, Sum(q[..n]), q[n]);
      Distribute(extra, Sum(weights[..n]), weights[n]);
    } else {
      assert Shares(extra, weights, total) == [] && Remainders(extra, weights, total) == [];
    }
  }

  lemma {:induction false} LeftoverIdentity(extra: nat, weights: seq<int>)
    requires Sum(weights) > 0
    ensures var total := Sum(weights);
      total * Leftover(extra, weights) == Sum(Remainders(extra, weights, total))
  {
    var total := Sum(weights);
    QuotaIdentity(extra, weights, total);
    var a := Sum(Shares(extra, weights, total));
    assert total * (extra - a) == total * extra - total * a;
  }

  /** Fewer leftover cells than siblings. */
  lemma {:induction false} LeftoverBounds(extra: nat, weights: seq<int>)
    requires Sum(weights) > 0
    ensures 0 <= Leftover(extra, weights) < |weights|
  {
    var total := Sum(weights);
    var r := Remainders(extra, weights, total);
    LeftoverIdentity(extra, weights);
    SumBetween(r, 0, total - 1);
    QuotientBounds(total, Leftover(extra, weights), |weights|);
  }

  lemma {:induction false} QuotientBounds(d: int, q: int, n: nat)
    requires d > 0 && 0 <= d * q <= (d - 1) * n
    ensures 0 <= q <= n && (n > 0 ==> q < n)
  {
    assert q >= n ==> d * q >= d * n;
    assert q >= n + 1 ==> d * q >= d * (n + 1);
    assert q <= -1 ==> d * q <= -d;
    assert (d - 1) * n == d * n - n;
  }

  /** Everyone who receives a leftover cell had a fractional share. */
  lemma {:induction false} LeftoverGoesToFractions(extra: nat, weights: seq<int>, j: nat)
    requires Sum(weights) > 0 && j < Leftover(extra, weights) < |weights|
    ensures var r := Remainders(extra, weights, Sum(weights));
      r[Order(r, |weights|)[j]] > 0
  {
    var total := Sum(weights);
    var r := Remainders(extra, weights, total);
    var order := Order(r, |weights|);
    var p := Pick(r, order);
    OrderSorts(r, |weights|);
    OrderSum(r, |weights|);
    assert r[..|weights|] == r;
    LeftoverIdentity(extra, weights);
    if p[j] == 0 {
      SortedTailSum(r, order, j, total);
      QuotientBounds(total, Leftover(extra, weights), j);
      assert false;
    }
  }

  /** Once the sorted remainders reach zero, only the front contributes. */
  lemma {:induction false} SortedTailSum(rems: seq<int>, order: seq<nat>, j: nat, total: int)
    requires Ordered(rems, order) && j < |order| && rems[order[j]] == 0
    requires forall i :: 0 <= i < |rems| ==> 0 <= rems[i] < total
    ensures 0 <= Sum(Pick(rems, order)) <= (total - 1) * j
  {
    var p := Pick(rems, order);
    forall b | j <= b < |p| ensures p[b] == 0 {
      assert b > j ==> Before(rems, order[j], order[b]);
    }
    SumBetween(p[..j], 0, total - 1);
    SumBetween(p[j..], 0, 0);
    SumSplit(p, j);
  }

  lemma {:induction false} SharedAt(extra: nat, weights: seq<int>, i: nat)
    requires Sum(weights) > 0 && i < |weights|
    ensures Shared(extra, weights)[i]
            == PANE_MIN_SIZE + Shares(extra, weights, Sum(weights))[i]
               + if i in RoundedUp(extra, weights) then 1 else 0
  {
    RoundedUpDistinct(extra, weights);
    BumpOnce(BaseSizes(Shares(extra, weights, Sum(weights))), RoundedUp(extra, weights), i);
  }

  lemma {:induction false} RoundedUpDistinct(extra: nat, weights: seq<int>)
    requires Sum(weights) > 0
    ensures var up := RoundedUp(extra, weights); forall a, b :: 0 <= a < b < |up| ==> up[a] != up[b]
  {
    var rems := Remainders(extra, weights, Sum(weights));
    OrderSorts(rems, |weights|);
    LeftoverBounds(extra, weights);
    PrefixDistinct(rems, Order(rems, |weights|), Leftover(extra, weights));
  }

  lemma {:induction false} PrefixDistinct(rems: seq<int>, order: seq<nat>, l: nat)
    requires Ordered(rems, order) && l <= |order|
    ensures forall a, b :: 0 <= a < b < l ==> order[..l][a] != order[..l][b]
  {
    forall a, b | 0 <= a < b < l ensures order[..l][a] != order[..l][b] {
      assert Before(rems, order[a], order[b]);
    }
  }

  /** A share is the floor of the exact quota, the remainder what is missing to it. */
  lemma {:induction false} QuotaAt(extra: nat, weights: seq<int>, total: int, i: nat)
    requires total > 0 && i < |weights|
    ensures extra * weights[i]
            == total * Shares(extra, weights, total)[i] + Remainders(extra, weights, total)[i]
    ensures weights[i] >= 0 ==> Shares(extra, weights, total)[i] >= 0
  {
    assert weights[i] >= 0 ==> extra * weights[i] >= 0;
  }

  lemma {:induction false} SharedFills(extra: nat, weights: seq<int>)
    requires Sum(weights) > 0
    ensures Sum(Shared(extra, weights)) == PANE_MIN_SIZE * |weights| + extra
  {
    var n := |weights|;
    var q := Shares(extra, weights, Sum(weights));
    var floor := seq(n, _ => PANE_MIN_SIZE);
    SumMinus(BaseSizes(q), q, floor);
    SumBetween(floor, PANE_MIN_SIZE, PANE_MIN_SIZE);
  }

  /** Largest-remainder sizing fills the available cells exactly, and nobody falls below the minimum. */
  lemma {:induction false} ProportionalFills(current: seq<int>, target: int)
    requires |current| > 0
    ensures Sum(Proportional(current, target))
            == Max(target - (|current| - 1), PANE_MIN_SIZE * |current|)
    ensures forall i :: 0 <= i < |current| ==> Proportional(current, target)[i] >= PANE_MIN_SIZE
  {
    hide Sum;
    hide Shared;
    hide Weights;
    hide EvenExtra;
    var n := |current|;
    var extra := Extra(n, target);
    var weights := Weights(current);
    if extra == 0 {
      SumBetween(Proportional(current, target), PANE_MIN_SIZE, PANE_MIN_SIZE);
    } else if Sum(weights) <= 0 {
      EvenExtraSum(n, extra);
    } else {
      SharedFills(extra, weights);
      SharedAboveMin(extra, weights);
    }
  }

  lemma {:induction false} SharedAboveMin(extra: nat, weights: seq<int>)
    requires Sum(weights) > 0 && forall i :: 0 <= i < |weights| ==> weights[i] >= 0
    ensures forall i :: 0 <= i < |weights| ==> Shared(extra, weights)[i] >= PANE_MIN_SIZE
  {
    hide Sum;
    hide Shared;
    hide Shares;
    forall i | 0 <= i < |weights| ensures Shared(extra, weights)[i] >= PANE_MIN_SIZE {
      SharedAt(extra, weights, i);
      QuotaAt(extra, weights, Sum(weights), i);
    }
  }

  lemma {:induction false} EvenExtraPrefix(n: nat, extra: nat, k: nat)
    requires 0 < n && k <= n
    ensures Sum(EvenExtra(n, extra)[..k])
            == k * (PANE_MIN_SIZE + extra / n) + Max(0, k - (n - extra % n))
    decreases k
  {
    if k > 0 {
      EvenExtraPrefix(n, extra, k - 1);
      SumPrefix(EvenExtra(n, extra), k - 1);
      var each := PANE_MIN_SIZE + extra / n;
      assert (k - 1) * each == k * each - each;
    }
  }

  lemma {:induction false} EvenExtraSum(n: nat, extra: nat)
    requires 0 < n
    ensures Sum(EvenExtra(n, extra)) == PANE_MIN_SIZE * n + extra
  {
    EvenExtraPrefix(n, extra, n);
    assert EvenExtra(n, extra)[..n] == EvenExtra(n, extra);
    assert n * (PANE_MIN_SIZE + extra / n) == PANE_MIN_SIZE * n + n * (extra / n);
  }

  lemma {:induction false} QuotaGap(total: int, exact: int, q: int, r: int, up: bool)
    requires exact == total * q + r && 0 <= r < total && (up ==> r > 0)
    ensures -total < total * (q + if up then 1 else 0) - exact < total
  {
    assert total * (q + 1) == total * q + total;
  }

  lemma {:induction false} RoundedUpFractional(extra: nat, weights: seq<int>, i: nat)
    requires Sum(weights) > 0 && i in RoundedUp(extra, weights)
    ensures Remainders(extra, weights, Sum(weights))[i] > 0
  {
    var up := RoundedUp(extra, weights);
    var a :| 0 <= a < |up| && up[a] == i;
    LeftoverBounds(extra, weights);
    LeftoverGoesToFractions(extra, weights, a);
  }

  lemma {:induction false} SharedQuota(extra: nat, weights: seq<int>, i: nat)
    requires Sum(weights) > 0 && i < |weights|
    ensures var total, got := Sum(weights), Shared(extra, weights)[i] - PANE_MIN_SIZE;
      -total < total * got - extra * weights[i] < total
  {
    var total := Sum(weights);
    SharedAt(extra, weights, i);
    QuotaAt(extra, weights, total, i);
    var up := i in RoundedUp(extra, weights);
    if up {
      RoundedUpFractional(extra, weights, i);
    }
    QuotaGap(total, extra * weights[i], Shares(extra, weights, total)[i],
             Remainders(extra, weights, total)[i], up);
  }

  /**
   * Each sibling gets the floor or the ceiling of its exact quota above the
   * minimum: the gap to the quota is less than one cell either way.
   */
  lemma {:induction false} ProportionalQuota(current: seq<int>, target: int, i: nat)
    requires i < |current|
    requires Extra(|current|, target) > 0 && Sum(Weights(current)) > 0
    ensures var extra, weights := Extra(|current|, target), Weights(current);
      var total, got := Sum(weights), Proportional(current, target)[i] - PANE_MIN_SIZE;
      -total < total * got - extra * weights[i] < total
  {
    SharedQuota(Extra(|current|, target), Weights(current), i);
  }

  /** Leftover cells go to the largest remainders; equal remainders favour later siblings. */
  lemma {:induction false} RoundedUpFirst(extra: nat, weights: seq<int>, i: nat, j: nat)
    requires Sum(weights) > 0 && i < |weights| && j < |weights|
    requires i in RoundedUp(extra, weights) && j !in RoundedUp(extra, weights)
    ensures Before(Remainders(extra, weights, Sum(weights)), i, j)
  {
    var rems := Remainders(extra, weights, Sum(weights));
    var order, up := Order(rems, |weights|), RoundedUp(extra, weights);
    OrderSorts(rems, |weights|);
    OrderCovers(rems, |weights|);
    assert j in order;
    var b :| 0 <= b < |order| && order[b] == j;
    var a :| 0 <= a < |up| && up[a] == i;
    assert forall k :: 0 <= k < |up| ==> up[k] == order[k];
  }

  // ----- what sizing is for, without the way it is computed -----

  /** How far sibling i is above (or below) its exact share of the cells above the minimums, times the total weight. */
  function Gap(was: seq<int>, now: seq<int>, i: nat): int
    requires i < |was| == |now|
  {
    Sum(Weights(was)) * (now[i] - PANE_MIN_SIZE)
      - (Sum(now) - PANE_MIN_SIZE * |was|) * Max(was[i] - PANE_MIN_SIZE, 0)
  }

  /**
   * `now` divides its cells in proportion to what siblings were above the
   * minimum: every sibling gets its exact share rounded down or up, and rounding
   * up goes to the larger fraction, then to the later sibling. If nobody was
   * above the minimum the cells are spread evenly, later siblings first.
   */
  ghost predicate InProportion(was: seq<int>, now: seq<int>) {
    && |now| == |was|
    && (Sum(Weights(was)) > 0 ==>
          && (forall i :: 0 <= i < |was| ==> -Sum(Weights(was)) < Gap(was, now, i) < Sum(Weights(was)))
          && (forall i, j :: 0 <= i < |was| && 0 <= j < |was| ==> Fairer(was, now, i, j)))
    && (Sum(Weights(was)) == 0 ==> forall i, j :: 0 <= i < j < |now| ==> now[i] <= now[j] <= now[i] + 1)
  }

  /** No cell of i would be better placed at j. */
  predicate Fairer(was: seq<int>, now: seq<int>, i: nat, j: nat)
    requires i < |was| == |now| && j < |was|
  {
    var excess := Gap(was, now, i) - Gap(was, now, j);
    excess < Sum(Weights(was)) || (excess == Sum(Weights(was)) && i > j)
  }

  /** `wanted` raised to the minimums, what that costs taken back from the last sibling first. */
  ghost predicate RaisedFrom(wanted: seq<int>, minimums: seq<int>, now: seq<int>) {
    && |wanted| == |minimums| == |now| && Sum(now) == Sum(wanted)
    && (forall i :: 0 <= i < |now| ==> minimums[i] <= now[i] <= Max(wanted[i], minimums[i]))
    && (forall i, j :: 0 <= i < j < |now| && now[i] < Max(wanted[i], minimums[i]) ==> now[j] == minimums[j])
  }

  /** In proportion, but for siblings whose subtrees need more. */
  ghost predicate Fitted(was: seq<int>, minimums: seq<int>, now: seq<int>) {
    exists wanted :: InProportion(was, wanted) && RaisedFrom(wanted, minimums, now)
  }

  /** All siblings have the whole part of a fair share, and the last one the rest. */
  ghost predicate Even(sizes: seq<int>) {
    forall i :: 0 <= i < |sizes| - 1 ==> sizes[i] == Sum(sizes) / |sizes|
  }

  /** Even, but for siblings whose subtrees need more. */
  ghost predicate Leveled(minimums: seq<int>, now: seq<int>) {
    exists wanted :: Even(wanted) && RaisedFrom(wanted, minimums, now)
  }

  /** Where no minimum is in the way, nothing is raised. */
  lemma {:induction false} RaisedPlain(wanted: seq<int>, minimums: seq<int>, now: seq<int>)
    requires RaisedFrom(wanted, minimums, now) && forall i :: 0 <= i < |wanted| ==> minimums[i] <= wanted[i]
    ensures now == wanted
  {
    SumMonotone(now, wanted);
  }

  /** If two sequences with the same sum differ, each is somewhere above the other. */
  lemma {:induction false} Differ(a: seq<int>, b: seq<int>) returns (i: nat, j: nat)
    requires |a| == |b| && Sum(a) == Sum(b) && a != b
    ensures i < |a| && j < |a| && a[i] > b[i] && a[j] < b[j]
  {
    if forall k :: 0 <= k < |a| ==> a[k] <= b[k] {
      SumMonotone(a, b);
    }
    if forall k :: 0 <= k < |a| ==> b[k] <= a[k] {
      SumMonotone(b, a);
    }
    i :| 0 <= i < |a| && a[i] > b[i];
    j :| 0 <= j < |a| && a[j] < b[j];
  }

  /** There is only one division in proportion of the same number of cells. */
  lemma {:induction false} ProportionUnique(was: seq<int>, a: seq<int>, b: seq<int>)
    requires InProportion(was, a) && InProportion(was, b) && Sum(a) == Sum(b)
    ensures a == b
  {
    hide Gap;
    hide Weights;
    TotalWeight(was);
    if a != b {
      var i, j := Differ(a, b);
      if Sum(Weights(was)) > 0 {
        assert Fairer(was, a, i, j) && Fairer(was, b, j, i);
        GapDifference(was, a, b, i);
        GapDifference(was, b, a, j);
      }
    }
  }

  lemma {:induction false} GapDifference(was: seq<int>, a: seq<int>, b: seq<int>, i: nat)
    requires i < |was| == |a| == |b| && Sum(a) == Sum(b) && a[i] > b[i] && Sum(Weights(was)) > 0
    ensures Gap(was, a, i) >= Gap(was, b, i) + Sum(Weights(was))
  {
    var total := Sum(Weights(was));
    Distribute(total, b[i] - PANE_MIN_SIZE, a[i] - b[i]);
    assert total * (a[i] - b[i]) >= total;
  }

  lemma TotalWeight(was: seq<int>)
    ensures Sum(Weights(was)) >= 0
  {
    var w := Weights(was);
    SumMonotone(seq(|w|, _ => 0), w);
    SumBetween(seq(|w|, _ => 0), 0, 0);
  }

  /** Raising determines the sizes. */
  lemma {:induction false} RaisedUnique(wanted: seq<int>, minimums: seq<int>, a: seq<int>, b: seq<int>)
    requires RaisedFrom(wanted, minimums, a) && RaisedFrom(wanted, minimums, b)
    ensures a == b
  {
    hide RaisedFrom;
    RaisedSum(wanted, minimums, a);
    RaisedSum(wanted, minimums, b);
    if a != b {
      var i, j := Differ(a, b);
      if i < j {
        RaisedStep(wanted, minimums, a, b, i, j);
      } else {
        RaisedStep(wanted, minimums, b, a, j, i);
      }
    }
  }

  lemma RaisedStep(wanted: seq<int>, minimums: seq<int>, a: seq<int>, b: seq<int>, i: nat, j: nat)
    requires RaisedFrom(wanted, minimums, a) && RaisedFrom(wanted, minimums, b) && i <= j < |a|
    ensures |a| == |b| && (b[i] < a[i] ==> b[j] < a[j] || b[j] == minimums[j] <= a[j])
  {
  }

  lemma FittedUnique(was: seq<int>, minimums: seq<int>, a: seq<int>, b: seq<int>)
    requires Fitted(was, minimums, a) && Fitted(was, minimums, b) && Sum(a) == Sum(b)
    ensures a == b
  {
    hide InProportion;
    hide RaisedFrom;
    var p :| InProportion(was, p) && RaisedFrom(p, minimums, a);
    var q :| InProportion(was, q) && RaisedFrom(q, minimums, b);
    RaisedSum(p, minimums, a);
    RaisedSum(q, minimums, b);
    ProportionUnique(was, p, q);
    RaisedUnique(p, minimums, a, b);
  }

  /** Panes side by side, with no subtree that needs more, are exactly in proportion. */
  lemma {:induction false} FittedPlain(was: seq<int>, minimums: seq<int>, now: seq<int>)
    requires Fitted(was, minimums, now) && forall i :: 0 <= i < |minimums| ==> minimums[i] == PANE_MIN_SIZE
    ensures InProportion(was, now)
  {
    hide Sum;
    hide InProportion;
    var wanted :| InProportion(was, wanted) && RaisedFrom(wanted, minimums, now);
    SumFloor(now);
    forall i | 0 <= i < |wanted| ensures minimums[i] <= wanted[i] {
      ProportionFloor(was, wanted, i);
    }
    RaisedPlain(wanted, minimums, now);
  }

  lemma {:induction false} ProportionFloor(was: seq<int>, now: seq<int>, i: nat)
    requires InProportion(was, now) && i < |now| && Sum(now) >= PANE_MIN_SIZE * |now|
    ensures now[i] >= PANE_MIN_SIZE
  {
    hide Sum;
    var total, extra := Sum(Weights(was)), Sum(now) - PANE_MIN_SIZE * |was|;
    TotalWeight(was);
    if total > 0 {
      TimesNegative(total, now[i] - PANE_MIN_SIZE);
      assert extra * Max(was[i] - PANE_MIN_SIZE, 0) >= 0;
      assert Gap(was, now, i) > -total;
    } else if now[i] < PANE_MIN_SIZE {
      EvenBelow(now, i);
    }
  }

  lemma TimesNegative(d: int, x: int)
    requires d > 0
    ensures x < 0 ==> d * x <= -d
  {
  }

  lemma {:induction false} EvenBelow(now: seq<int>, i: nat)
    requires i < |now| && forall i, j :: 0 <= i < j < |now| ==> now[i] <= now[j] <= now[i] + 1
    requires now[i] < PANE_MIN_SIZE
    ensures Sum(now) < PANE_MIN_SIZE * |now|
  {
    var floor := seq(|now|, _ => PANE_MIN_SIZE);
    SumBetween(floor, PANE_MIN_SIZE, PANE_MIN_SIZE);
    SumMonotone(now, floor);
  }

  lemma RaisedSum(wanted: seq<int>, minimums: seq<int>, now: seq<int>)
    requires RaisedFrom(wanted, minimums, now)
    ensures |now| == |wanted| && Sum(now) == Sum(wanted)
  {
  }

  // ----- raising to minimums -----

  function Raised(sizes: seq<int>, minimums: seq<int>): (r: seq<int>)
    requires |sizes| == |minimums|
    ensures |r| == |sizes|
    ensures forall i :: 0 <= i < |r| ==> r[i] == Max(sizes[i], minimums[i])
  {
    seq(|sizes|, i requires 0 <= i < |sizes| => Max(sizes[i], minimums[i]))
  }

  function Deficit(sizes: seq<int>, minimums: seq<int>): (d: nat)
    requires |sizes| == |minimums|
    ensures d == Sum(Raised(sizes, minimums)) - Sum(sizes)
  {
    SumMonotone(sizes, Raised(sizes, minimums));
    Sum(Raised(sizes, minimums)) - Sum(sizes)
  }

  /** Takes `deficit` cells back from the surplus over the minimums, last sibling first. */
  function Repay(sizes: seq<int>, minimums: seq<int>, deficit: nat): (r: (seq<int>, nat))
    requires |sizes| == |minimums|
    ensures |r.0| == |sizes| && r.1 <= deficit
  {
    if sizes == [] then ([], deficit)
    else
      var n := |sizes| - 1;
      var take := Min(Max(sizes[n] - minimums[n], 0), deficit);
      var rest := Repay(sizes[..n], minimums[..n], deficit - take);
      (rest.0 + [sizes[n] - take], rest.1)
  }

  function Raise(sizes: seq<int>, minimums: seq<int>): (r: (seq<int>, bool))
    requires |sizes| == |minimums|
    ensures |r.0| == |sizes|
  {
    var out := Repay(Raised(sizes, minimums), minimums, Deficit(sizes, minimums));
    (out.0, out.1 == 0)
  }

  lemma {:induction false} RepaySum(sizes: seq<int>, minimums: seq<int>, deficit: nat)
    requires |sizes| == |minimums|
    ensures var (r, left) := Repay(sizes, minimums, deficit);
      Sum(r) == Sum(sizes) - deficit + left
    decreases |sizes|
  {
    if sizes != [] {
      var n := |sizes| - 1;
      var take := Min(Max(sizes[n] - minimums[n], 0), deficit);
      RepaySum(sizes[..n], minimums[..n], deficit - take);
      var r0 := Repay(sizes[..n], minimums[..n], deficit - take).0;
      assert (r0 + [sizes[n] - take])[..n] == r0;
    }
  }

  lemma {:induction false} RepayAt(sizes: seq<int>, minimums: seq<int>, deficit: nat, i: nat)
    requires |sizes| == |minimums| && i < |sizes|
    requires forall i :: 0 <= i < |sizes| ==> minimums[i] <= sizes[i]
    ensures var (r, left) := Repay(sizes, minimums, deficit);
      minimums[i] <= r[i] <= sizes[i] && (left > 0 ==> r[i] == minimums[i])
    decreases |sizes|
  {
    var n := |sizes| - 1;
    if i < n {
      var take := Min(sizes[n] - minimums[n], deficit);
      RepayAt(sizes[..n], minimums[..n], deficit - take, i);
    }
  }

  /**
   * Raising keeps the sum and meets every minimum exactly when the sum allows
   * it; otherwise it reports failure and leaves every sibling at its minimum.
   */
  lemma {:induction false} RaiseMeetsMinimums(sizes: seq<int>, minimums: seq<int>)
    requires |sizes| == |minimums|
    ensures var (r, ok) := Raise(sizes, minimums);
      && (ok <==> Sum(minimums) <= Sum(sizes))
      && (forall i :: 0 <= i < |r| ==> minimums[i] <= r[i])
      && (ok ==> Sum(r) == Sum(sizes))
      && (!ok ==> r == minimums)
  {
    hide Sum;
    hide Repay;
    hide Raised;
    hide Deficit;
    var up := Raised(sizes, minimums);
    var d := Deficit(sizes, minimums);
    var (r, left) := Repay(up, minimums, d);
    RepaySum(up, minimums, d);
    forall i | 0 <= i < |r| ensures minimums[i] <= r[i] && (left > 0 ==> r[i] == minimums[i]) {
      RepayAt(up, minimums, d, i);
    }
    SumMonotone(minimums, r);
    if left > 0 {
      assert r == minimums;
    }
  }

  /** Sizes that already meet their minimums are left alone. */
  lemma {:induction false} RaiseIdle(sizes: seq<int>, minimums: seq<int>)
    requires |sizes| == |minimums|
    requires forall i :: 0 <= i < |sizes| ==> minimums[i] <= sizes[i]
    ensures Raise(sizes, minimums) == (sizes, true)
  {
    assert Raised(sizes, minimums) == sizes;
    RepayNothing(sizes, minimums);
  }

  lemma {:induction false} RepayNothing(sizes: seq<int>, minimums: seq<int>)
    requires |sizes| == |minimums|
    ensures Repay(sizes, minimums, 0) == (sizes, 0)
    decreases |sizes|
  {
    if sizes != [] {
      var n := |sizes| - 1;
      RepayNothing(sizes[..n], minimums[..n]);
      assert sizes == sizes[..n] + [sizes[n]];
    }
  }

  lemma {:induction false} SharedGap(extra: nat, weights: seq<int>, i: nat)
    requires Sum(weights) > 0 && i < |weights|
    ensures Sum(weights) * (Shared(extra, weights)[i] - PANE_MIN_SIZE) - extra * weights[i]
            == (if i in RoundedUp(extra, weights) then Sum(weights) else 0) - Remainders(extra, weights, Sum(weights))[i]
  {
    hide Shared;
    hide RoundedUp;
    hide Sum;
    SharedAt(extra, weights, i);
    QuotaAt(extra, weights, Sum(weights), i);
    Distribute(Sum(weights), Shares(extra, weights, Sum(weights))[i], 1);
  }

  lemma {:induction false} SharedFairer(current: seq<int>, extra: nat, i: nat, j: nat)
    requires Sum(Weights(current)) > 0 && i < |current| && j < |current|
    ensures Fairer(current, Shared(extra, Weights(current)), i, j)
  {
    hide Shared;
    hide RoundedUp;
    hide Remainders;
    hide Sum;
    var weights := Weights(current);
    SharedFills(extra, weights);
    SharedGap(extra, weights, i);
    SharedGap(extra, weights, j);
    if i in RoundedUp(extra, weights) && j !in RoundedUp(extra, weights) {
      RoundedUpFirst(extra, weights, i, j);
    }
  }

  lemma {:induction false} SharedInProportion(current: seq<int>, extra: nat)
    requires Sum(Weights(current)) > 0
    ensures InProportion(current, Shared(extra, Weights(current)))
  {
    hide Shared;
    hide Sum;
    hide Fairer;
    var weights := Weights(current);
    SharedFills(extra, weights);
    forall i | 0 <= i < |current|
      ensures -Sum(weights) < Gap(current, Shared(extra, weights), i) < Sum(weights)
    {
      SharedQuota(extra, weights, i);
    }
    forall i, j | 0 <= i < |current| && 0 <= j < |current| ensures Fairer(current, Shared(extra, weights), i, j) {
      SharedFairer(current, extra, i, j);
    }
  }

  /** Largest-remainder sizing divides in proportion. */
  lemma {:induction false} ProportionalDivides(current: seq<int>, target: int)
    requires |current| > 0
    ensures InProportion(current, Proportional(current, target))
  {
    hide Shared;
    hide Sum;
    hide Weights;
    TotalWeight(current);
    ProportionalFills(current, target);
    if Extra(|current|, target) > 0 && Sum(Weights(current)) > 0 {
      SharedInProportion(current, Extra(|current|, target));
    }
  }

  lemma {:induction false} RepayInTurn(sizes: seq<int>, minimums: seq<int>, deficit: nat, i: nat, j: nat)
    requires |sizes| == |minimums| && i < j < |sizes|
    requires forall i :: 0 <= i < |sizes| ==> minimums[i] <= sizes[i]
    ensures var r := Repay(sizes, minimums, deficit).0; r[i] < sizes[i] ==> r[j] == minimums[j]
    decreases |sizes|
  {
    var n := |sizes| - 1;
    var take := Min(sizes[n] - minimums[n], deficit);
    if j < n {
      RepayInTurn(sizes[..n], minimums[..n], deficit - take, i, j);
    } else if take == deficit {
      RepayNothing(sizes[..n], minimums[..n]);
    }
  }

  /** When the minimums fit, raising takes what they cost back from the last sibling first. */
  lemma {:induction false} RaiseInTurn(sizes: seq<int>, minimums: seq<int>)
    requires |sizes| == |minimums| && Sum(minimums) <= Sum(sizes)
    ensures RaisedFrom(sizes, minimums, Raise(sizes, minimums).0)
  {
    hide Sum;
    hide Repay;
    hide Raised;
    hide Deficit;
    var up, d := Raised(sizes, minimums), Deficit(sizes, minimums);
    var r := Repay(up, minimums, d).0;
    RaiseMeetsMinimums(sizes, minimums);
    forall i | 0 <= i < |r| ensures r[i] <= up[i] {
      RepayAt(up, minimums, d, i);
    }
    forall i, j | 0 <= i < j < |r| && r[i] < up[i] ensures r[j] == minimums[j] {
      RepayInTurn(up, minimums, d, i, j);
    }
  }

  /** Proportional sizes raised to subtree minimums; `target` excludes separators. */
  function Fit(current: seq<int>, minimums: seq<int>, target: int): (s: seq<int>)
    requires |current| == |minimums|
    ensures |s| == |current|
  {
    if current == [] then []
    else
      Raise(Proportional(current, Max(target, Sum(minimums)) + |current| - 1), minimums).0
  }

  /**
   * Fitted sizes fill the target (or the minimums, if those need more) and
   * meet every minimum, and are in proportion but for what minimums ask.
   */
  lemma {:induction false} FitFills(current: seq<int>, minimums: seq<int>, target: int)
    requires |current| == |minimums| > 0
    requires forall i :: 0 <= i < |minimums| ==> minimums[i] >= PANE_MIN_SIZE
    ensures var s := Fit(current, minimums, target);
      && Sum(s) == Max(target, Sum(minimums))
      && Fitted(current, minimums, s)
      && forall i :: 0 <= i < |s| ==> minimums[i] <= s[i]
  {
    hide Sum;
    hide Proportional;
    hide Raise;
    hide InProportion;
    hide RaisedFrom;
    var goal := Max(target, Sum(minimums));
    SumFloor(minimums);
    ProportionalFills(current, goal + |current| - 1);
    var p := Proportional(current, goal + |current| - 1);
    assert Sum(p) == goal;
    ProportionalDivides(current, goal + |current| - 1);
    RaiseInTurn(p, minimums);
    RaiseFills(p, minimums);
  }

  lemma {:induction false} RaiseFills(sizes: seq<int>, minimums: seq<int>)
    requires |sizes| == |minimums| && Sum(minimums) <= Sum(sizes)
    ensures Sum(Raise(sizes, minimums).0) == Sum(sizes)
    ensures forall i :: 0 <= i < |sizes| ==> minimums[i] <= Raise(sizes, minimums).0[i]
  {
    RaiseMeetsMinimums(sizes, minimums);
  }

  lemma {:induction false} SumFloor(s: seq<int>)
    requires forall i :: 0 <= i < |s| ==> s[i] >= PANE_MIN_SIZE
    ensures Sum(s) >= PANE_MIN_SIZE * |s|
    decreases |s|
  {
    if s != [] {
      SumFloor(s[..|s| - 1]);
    }
  }

  // ----- equal sizes -----

  /** Integer division that truncates toward zero, for a positive divisor. */
  function Quot(a: int, b: int): int
    requires b > 0
  {
    if a >= 0 then a / b else -((-a) / b)
  }

  /** Equal sizes for `count` siblings in `total` cells; the last absorbs the rounding. */
  function EqualSizes(total: int, count: nat): (s: seq<int>)
    ensures |s| == count
  {
    if count == 0 then []
    else
      var room := total - (count - 1);
      var each := Quot(room, count);
      seq(count - 1, _ => each) + [room - each * (count - 1)]
  }

  /** Equal sizes fill the total; all are the same but the last, which takes the rest of the division. */
  lemma {:induction false} EqualSizesFill(total: int, count: nat)
    requires count > 0
    ensures Sum(EqualSizes(total, count)) == total - (count - 1)
    ensures total >= count - 1 ==> Even(EqualSizes(total, count))
    ensures total < count - 1 ==>
      forall i :: 0 <= i < count - 1 ==> 0 <= count * EqualSizes(total, count)[i] - (total - (count - 1)) < count
  {
    var room := total - (count - 1);
    var each := Quot(room, count);
    var front := seq(count - 1, _ => each);
    SumConcat(front, [room - each * (count - 1)]);
    SumBetween(front, each, each);
    assert [room - each * (count - 1)][..0] == [];
  }

  /** Equal sizes raised to subtree minimums; fails when the minimums do not fit. */
  function EqualFit(minimums: seq<int>, total: int): (r: (seq<int>, bool))
    ensures |r.0| == |minimums|
  {
    if minimums == [] then ([], false)
    else Raise(EqualSizes(total, |minimums|), minimums)
  }

  /**
   * Equalizing succeeds exactly when the minimums and separators fit, and then
   * fills the node, evenly but for what minimums ask.
   */
  lemma {:induction false} EqualFitFills(minimums: seq<int>, total: int)
    requires minimums != []
    ensures var (s, ok) := EqualFit(minimums, total);
      && (ok <==> Sum(minimums) + |minimums| - 1 <= total)
      && (ok ==> Sum(s) + |s| - 1 == total && forall i :: 0 <= i < |s| ==> minimums[i] <= s[i])
      && (ok && total >= |minimums| - 1 ==> Leveled(minimums, s))
  {
    hide EqualSizes;
    hide Sum;
    hide Raise;
    hide RaisedFrom;
    hide Even;
    var equal := EqualSizes(total, |minimums|);
    EqualSizesFill(total, |minimums|);
    RaiseMeetsMinimums(equal, minimums);
    if Sum(minimums) <= Sum(equal) {
      RaiseInTurn(equal, minimums);
    }
  }

  /** Where a fair share covers every minimum, all siblings but the last have just that. */
  lemma {:induction false} LeveledPlain(minimums: seq<int>, now: seq<int>)
    requires Leveled(minimums, now) && Sum(now) >= 0
    requires forall i :: 0 <= i < |now| ==> minimums[i] <= Sum(now) / |now|
    ensures Even(now)
  {
    hide Sum;
    var wanted :| Even(wanted) && RaisedFrom(wanted, minimums, now);
    if now != [] {
      EvenLast(wanted);
      RaisedPlain(wanted, minimums, now);
    }
  }

  lemma {:induction false} EvenLast(s: seq<int>)
    requires Even(s) && s != [] && Sum(s) >= 0
    ensures s[|s| - 1] >= Sum(s) / |s|
  {
    var n := |s| - 1;
    var each := Sum(s) / |s|;
    SumBetween(s[..n], each, each);
    assert each * |s| == each * n + each;
  }
}
