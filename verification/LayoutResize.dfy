/** Resizing a tiled subtree along one axis: proportionally, or by moving one outer edge. */
module LayoutResize {
  import opened Numbers
  import opened Apportion
  import opened LayoutTree
  import opened LayoutShare

  // ----- how far a subtree can shrink -----

  function Slack(t: Tree, axis: Dir): int
    decreases t
  {
    match t
    case Leaf(_, _, _) => Max(Size(t, axis) - PANE_MIN_SIZE, 0)
    case Node(d, ks, _, _) =>
      if d == axis then Sum(Slacks(ks, axis))
      else if ks == [] then 0
      else Least(Slacks(ks, axis))
  }

  function Slacks(ks: seq<Tree>, axis: Dir): (s: seq<int>)
    ensures |s| == |ks|
    ensures forall i :: 0 <= i < |ks| ==> s[i] == Slack(ks[i], axis)
    decreases ks
  {
    seq(|ks|, i requires 0 <= i < |ks| => Slack(ks[i], axis))
  }

  function Least(s: seq<int>): int
    requires s != []
  {
    if |s| == 1 then s[0] else Min(Least(s[..|s| - 1]), s[|s| - 1])
  }

  lemma {:induction false} LeastFromMax(s: seq<int>, m: seq<int>, size: int)
    requires |s| == |m| > 0
    requires forall i :: 0 <= i < |s| ==> s[i] == size - m[i] && m[i] >= 0
    ensures Least(s) == size - MaxOf(m)
    decreases |s|
  {
    var n := |s| - 1;
    if n == 0 {
      assert m[..0] == [];
    } else {
      LeastFromMax(s[..n], m[..n], size);
    }
  }

  /** The check that bounds shrinking is exact: current size minus the subtree minimum. */
  lemma {:induction false} SlackIsSizeMinusMin(t: Tree, axis: Dir)
    requires Sized(t)
    ensures Slack(t, axis) == Size(t, axis) - MinSize(t, axis)
    decreases t
  {
    if t.Node? {
      var ss, ms, sizes := Slacks(t.kids, axis), MinSizes(t.kids, axis), Sizes(t.kids, axis);
      forall i | 0 <= i < |t.kids| ensures ss[i] == sizes[i] - ms[i] && ms[i] >= 0 {
        SlackIsSizeMinusMin(t.kids[i], axis);
        SizedGrown(t.kids[i]);
        MinSizeFloor(t.kids[i], axis);
      }
      if t.dir == axis {
        SumMinus(sizes, ms, ss);
      } else {
        assert forall i :: 0 <= i < |sizes| ==> sizes[i] == Size(t, axis);
        LeastFromMax(ss, ms, Size(t, axis));
      }
    }
  }

  // ----- proportional resize along one axis -----

  function ResizeAxis(t: Tree, axis: Dir, target: int): (r: Tree)
    ensures r.at == t.at
    decreases t
  {
    var ext := Along(axis, target, Size(t, Cross(axis)));
    match t
    case Leaf(p, at, _) => Leaf(p, at, ext)
    case Node(d, ks, at, _) =>
      if ks == [] then Node(d, ks, at, ext)
      else
        var sizes := if d == axis then KidSizes(ks, axis, target) else seq(|ks|, _ => target);
        Node(d, ResizeAxisKids(ks, axis, sizes), at, ext)
  }

  function ResizeAxisKids(ks: seq<Tree>, axis: Dir, sizes: seq<int>): (r: seq<Tree>)
    requires |sizes| == |ks|
    ensures |r| == |ks|
    ensures forall i :: 0 <= i < |ks| ==> r[i] == ResizeAxis(ks[i], axis, sizes[i])
    decreases ks
  {
    seq(|ks|, i requires 0 <= i < |ks| => ResizeAxis(ks[i], axis, sizes[i]))
  }

  lemma {:induction false} ResizeAxisErase(t: Tree, axis: Dir, target: int)
    ensures Erase(ResizeAxis(t, axis, target)) == Erase(t)
    ensures Size(ResizeAxis(t, axis, target), axis) == target
    ensures Size(ResizeAxis(t, axis, target), Cross(axis)) == Size(t, Cross(axis))
    decreases t
  {
    hide Apportion.Fit;
    if t.Node? && t.kids != [] {
      var r := ResizeAxis(t, axis, target);
      var sizes := if t.dir == axis then KidSizes(t.kids, axis, target) else seq(|t.kids|, _ => target);
      assert r.kids == ResizeAxisKids(t.kids, axis, sizes);
      forall i | 0 <= i < |t.kids| ensures Erase(r.kids[i]) == Erase(t.kids[i]) {
        ResizeAxisErase(t.kids[i], axis, sizes[i]);
      }
      assert EraseAll(r.kids) == EraseAll(t.kids);
    }
  }

  /** A target no smaller than the minimum is met exactly, and the other axis is untouched. */
  lemma {:induction false} ResizeAxisSized(t: Tree, axis: Dir, target: int)
    requires Sized(t) && target >= MinSize(t, axis)
    ensures Sized(ResizeAxis(t, axis, target))
    decreases t, 1
  {
    if t.Node? {
      if t.dir == axis {
        ResizeAxisAlong(t, target);
      } else {
        ResizeAxisAcross(t, axis, target);
      }
    }
  }

  lemma {:induction false} ResizeAxisAlong(t: Tree, target: int)
    requires Sized(t) && t.Node? && target >= MinSize(t, t.dir)
    ensures Sized(ResizeAxis(t, t.dir, target))
    decreases t, 0
  {
    hide KidSizes;
    hide MinSize;
    hide Sized;
    SizedKids(t);
    SizedGrown(t);
    KidSizesFill(t, target);
    ResizeAxisKidsSized(t.kids, t.dir, KidSizes(t.kids, t.dir, target));
    SizedFromKids(ResizeAxis(t, t.dir, target), KidSizes(t.kids, t.dir, target));
  }

  lemma {:induction false} ResizeAxisAcross(t: Tree, axis: Dir, target: int)
    requires Sized(t) && t.Node? && target >= MinSize(t, axis) && t.dir != axis
    ensures Sized(ResizeAxis(t, axis, target))
    decreases t, 0
  {
    hide MinSize;
    hide Sized;
    var r := ResizeAxis(t, axis, target);
    SizedKids(t);
    MinAcross(t, target);
    ResizeAxisKidsSized(t.kids, axis, seq(|t.kids|, _ => target));
    assert Sizes(r.kids, t.dir) == Sizes(t.kids, t.dir);
    SizedFromKids(r, Sizes(t.kids, t.dir));
  }

  lemma {:induction false} ResizeAxisKidsSized(ks: seq<Tree>, axis: Dir, sizes: seq<int>)
    requires |ks| == |sizes|
    requires forall i :: 0 <= i < |ks| ==> Sized(ks[i]) && MinSize(ks[i], axis) <= sizes[i]
    ensures var r := ResizeAxisKids(ks, axis, sizes);
      forall i :: 0 <= i < |ks| ==>
        Sized(r[i]) && Size(r[i], axis) == sizes[i] && Size(r[i], Cross(axis)) == Size(ks[i], Cross(axis))
    decreases ks, 2
  {
    var r := ResizeAxisKids(ks, axis, sizes);
    forall i | 0 <= i < |ks|
      ensures Sized(r[i]) && Size(r[i], axis) == sizes[i] && Size(r[i], Cross(axis)) == Size(ks[i], Cross(axis))
    {
      ResizeAxisSized(ks[i], axis, sizes[i]);
      ResizeAxisErase(ks[i], axis, sizes[i]);
    }
  }

  /** Every node along the axis is divided in proportion to what its children were; the other axis is untouched. */
  lemma {:induction false} ResizeAxisRescales(t: Tree, axis: Dir, target: int)
    requires Sized(t) && target >= MinSize(t, axis)
    ensures Rescaled(t, ResizeAxis(t, axis, target), axis)
    ensures SameOn(t, ResizeAxis(t, axis, target), Cross(axis))
    decreases t, 1
  {
    hide Fitted;
    hide KidSizes;
    hide MinSize;
    hide Sized;
    if t.Node? {
      SizedKids(t);
      if t.dir == axis {
        ResizeAxisAlongRescales(t, target);
      } else {
        MinAcross(t, target);
        ResizeAxisKidsRescale(t.kids, axis, seq(|t.kids|, _ => target));
      }
    }
  }

  lemma {:induction false} ResizeAxisAlongRescales(t: Tree, target: int)
    requires t.Node? && Sized(t) && target >= MinSize(t, t.dir)
    ensures Rescaled(t, ResizeAxis(t, t.dir, target), t.dir)
    ensures SameOn(t, ResizeAxis(t, t.dir, target), Cross(t.dir))
    decreases t, 0
  {
    hide Fitted;
    hide KidSizes;
    hide MinSize;
    hide Sized;
    SizedKids(t);
    SizedGrown(t);
    var sizes := KidSizes(t.kids, t.dir, target);
    KidSizesFill(t, target);
    KidSizesFitted(t, target);
    ResizeAxisKidsRescale(t.kids, t.dir, sizes);
    SameSizesAs(ResizeAxisKids(t.kids, t.dir, sizes), sizes, t.dir);
  }

  lemma {:induction false} ResizeAxisKidsRescale(ks: seq<Tree>, axis: Dir, sizes: seq<int>)
    requires |ks| == |sizes|
    requires forall i :: 0 <= i < |ks| ==> Sized(ks[i]) && MinSize(ks[i], axis) <= sizes[i]
    ensures var r := ResizeAxisKids(ks, axis, sizes);
      forall i :: 0 <= i < |ks| ==>
        Rescaled(ks[i], r[i], axis) && SameOn(ks[i], r[i], Cross(axis)) && Size(r[i], axis) == sizes[i]
    decreases ks, 2
  {
    hide Sized;
    hide MinSize;
    var r := ResizeAxisKids(ks, axis, sizes);
    forall i | 0 <= i < |ks|
      ensures Rescaled(ks[i], r[i], axis) && SameOn(ks[i], r[i], Cross(axis)) && Size(r[i], axis) == sizes[i]
    {
      ResizeAxisRescales(ks[i], axis, sizes[i]);
      ResizeAxisErase(ks[i], axis, sizes[i]);
    }
  }

  function ClampShrink(t: Tree, axis: Dir, target: int): int {
    var current := Size(t, axis);
    if target < current then Max(target, current - Slack(t, axis)) else target
  }

  function ResizeToAxis(t: Tree, axis: Dir, target: int): (r: Tree)
    ensures r.at == t.at
  {
    if target == Size(t, axis) then t
    else ResizeAxis(t, axis, ClampShrink(t, axis, target))
  }

  function ResizeAll(t: Tree, want: Vec): Tree {
    FixOffsets(ResizeToAxis(ResizeToAxis(t, Vertical, want.x), Horizontal, want.y))
  }

  lemma {:induction false} ClampShrinkIsMax(t: Tree, axis: Dir, target: int)
    requires Sized(t)
    ensures ClampShrink(t, axis, target) == Max(target, MinSize(t, axis))
  {
    SlackIsSizeMinusMin(t, axis);
    SizedAboveMin(t, axis);
  }

  /** Resizing one axis reaches max(target, minimum), divided in proportion throughout, and leaves the other axis alone. */
  lemma {:induction false} ResizeToAxisSized(t: Tree, axis: Dir, target: int)
    requires Sized(t)
    ensures var r := ResizeToAxis(t, axis, target);
      && Sized(r) && Erase(r) == Erase(t)
      && Size(r, axis) == Max(target, MinSize(t, axis))
      && Size(r, Cross(axis)) == Size(t, Cross(axis))
      && Rescaled(t, r, axis) && SameOn(t, r, Cross(axis))
  {
    hide Sized;
    hide Erase;
    hide MinSize;
    hide ClampShrink;
    hide Rescaled;
    hide SameOn;
    ClampShrinkIsMax(t, axis, target);
    SizedAboveMin(t, axis);
    if target != Size(t, axis) {
      ResizeAxisSized(t, axis, Max(target, MinSize(t, axis)));
      ResizeAxisErase(t, axis, Max(target, MinSize(t, axis)));
      ResizeAxisRescales(t, axis, Max(target, MinSize(t, axis)));
    } else {
      RescaledSelf(t, axis);
      SameOnSelf(t, Cross(axis));
    }
  }

  /**
   * ResizeAll turns a tiled tree into the exact tiling of max(requested,
   * minimum) on both axes, and every node divides its cells in proportion to
   * what its children were, but for what their subtrees need.
   */
  lemma {:induction false} ResizeAllTiles(t: Tree, want: Vec)
    requires Sized(t)
    ensures Tiled(ResizeAll(t, want))
    ensures ResizeAll(t, want).size == Clamp(t, want)
    ensures Erase(ResizeAll(t, want)) == Erase(t)
    ensures Rescaled(t, ResizeAll(t, want), Vertical) && Rescaled(t, ResizeAll(t, want), Horizontal)
  {
    hide Sized;
    hide Placed;
    hide Erase;
    hide MinSize;
    hide ResizeToAxis;
    hide Rescaled;
    hide SameOn;
    var a := ResizeToAxis(t, Vertical, want.x);
    var b := ResizeToAxis(a, Horizontal, want.y);
    ResizeToAxisSized(t, Vertical, want.x);
    ResizeToAxisSized(a, Horizontal, want.y);
    SizedGrown(t);
    SameShapeSameMin(t, a, Horizontal);
    FixOffsetsTiles(b);
    FixedRescales(t, a, b);
  }

  lemma {:induction false} FixedRescales(t: Tree, a: Tree, b: Tree)
    requires Grown(t) && Erase(t) == Erase(a)
    requires Rescaled(t, a, Vertical) && SameOn(t, a, Horizontal)
    requires Rescaled(a, b, Horizontal) && SameOn(a, b, Vertical)
    ensures Rescaled(t, FixOffsets(b), Vertical) && Rescaled(t, FixOffsets(b), Horizontal)
  {
    hide Erase;
    hide Rescaled;
    hide SameOn;
    RescaledThen(t, a, b, Vertical);
    RescaledAfter(t, a, b, Horizontal);
    PlaceSame(b, b.at, Vertical);
    PlaceSame(b, b.at, Horizontal);
    RescaledThen(t, b, FixOffsets(b), Vertical);
    RescaledThen(t, b, FixOffsets(b), Horizontal);
  }

  // ----- moving one edge -----

  datatype Edge = Start | End

  /** What the children nearer the moved edge than child i can give together. */
  function NearerSlack(slacks: seq<int>, i: nat, edge: Edge): int
    requires i < |slacks|
  {
    if edge.Start? then Sum(slacks[..i]) else Sum(slacks[i + 1..])
  }

  /** How much each child gives up when the edge takes `remaining` cells, nearest child first. */
  function ShrinkPlan(slacks: seq<int>, remaining: int, edge: Edge): (plan: seq<int>)
    ensures |plan| == |slacks|
    ensures forall i :: 0 <= i < |plan| ==>
      plan[i] == Max(0, Min(slacks[i], remaining - NearerSlack(slacks, i, edge)))
  {
    seq(|slacks|, i requires 0 <= i < |slacks| =>
      Max(0, Min(slacks[i], remaining - NearerSlack(slacks, i, edge))))
  }

  /** Sizes of the children after an edge move by `delta` cells. */
  function EdgeSizes(ks: seq<Tree>, axis: Dir, delta: int, edge: Edge): (s: seq<int>)
    requires ks != []
    ensures |s| == |ks|
  {
    var sizes := Sizes(ks, axis);
    if delta > 0 then
      var k := if edge.Start? then 0 else |ks| - 1;
      sizes[k := sizes[k] + delta]
    else
      var plan := ShrinkPlan(Slacks(ks, axis), -delta, edge);
      seq(|ks|, i requires 0 <= i < |ks| => sizes[i] - plan[i])
  }

  function ResizeFromEdge(t: Tree, axis: Dir, target: int, edge: Edge): (r: Tree)
    ensures r.at == t.at
    decreases t
  {
    if target == Size(t, axis) then t
    else
      match t
      case Leaf(p, at, _) =>
        Leaf(p, at, Along(axis, Max(target, PANE_MIN_SIZE), Size(t, Cross(axis))))
      case Node(d, ks, at, _) =>
        var ext := Along(axis, target, Size(t, Cross(axis)));
        if ks == [] then Node(d, ks, at, ext)
        else
          var sizes := if d == axis then EdgeSizes(ks, axis, target - Size(t, axis), edge)
                       else seq(|ks|, _ => target);
          Node(d, ResizeFromEdgeKids(ks, axis, sizes, edge), at, ext)
  }

  function ResizeFromEdgeKids(ks: seq<Tree>, axis: Dir, sizes: seq<int>, edge: Edge): (r: seq<Tree>)
    requires |sizes| == |ks|
    ensures |r| == |ks|
    ensures forall i :: 0 <= i < |ks| ==> r[i] == ResizeFromEdge(ks[i], axis, sizes[i], edge)
    decreases ks
  {
    seq(|ks|, i requires 0 <= i < |ks| => ResizeFromEdge(ks[i], axis, sizes[i], edge))
  }

  function ResizeToAxisFromEdge(t: Tree, axis: Dir, target: int, edge: Edge): Tree {
    if target == Size(t, axis) then t
    else ResizeFromEdge(t, axis, ClampShrink(t, axis, target), edge)
  }

  /** Distance order: a is at least as near to the moved edge as b. */
  predicate Nearer(edge: Edge, a: int, b: int) {
    if edge.Start? then a < b else a > b
  }

  /**
   * The plan takes exactly what is asked when the slack suffices, never more
   * than a child can give, and touches a child only once every child nearer
   * the edge has given all it can.
   */
  ghost predicate Greedy(slacks: seq<int>, plan: seq<int>, edge: Edge) {
    && |plan| == |slacks|
    && (forall i :: 0 <= i < |plan| ==> 0 <= plan[i] <= slacks[i])
    && (forall i, j :: 0 <= i < |plan| && 0 <= j < |plan| && Nearer(edge, i, j) && plan[j] > 0
          ==> plan[i] == slacks[i])
  }

  lemma {:induction false} ShrinkPlanGreedy(slacks: seq<int>, remaining: int, edge: Edge)
    requires 0 <= remaining <= Sum(slacks)
    requires forall i :: 0 <= i < |slacks| ==> slacks[i] >= 0
    ensures Sum(ShrinkPlan(slacks, remaining, edge)) == remaining
    ensures Greedy(slacks, ShrinkPlan(slacks, remaining, edge), edge)
  {
    hide Sum;
    hide ShrinkPlan;
    hide Greedy;
    ShrinkPlanSum(slacks, remaining, edge);
    ShrinkPlanInTurn(slacks, remaining, edge);
  }

  lemma {:induction false} ShrinkPlanSum(slacks: seq<int>, remaining: int, edge: Edge)
    requires 0 <= remaining <= Sum(slacks)
    requires forall i :: 0 <= i < |slacks| ==> slacks[i] >= 0
    ensures Sum(ShrinkPlan(slacks, remaining, edge)) == remaining
  {
    hide Sum;
    hide ShrinkPlan;
    var plan := ShrinkPlan(slacks, remaining, edge);
    if edge.Start? {
      ShrinkPlanFromStart(slacks, remaining, |slacks|);
      assert plan[..|slacks|] == plan && slacks[..|slacks|] == slacks;
    } else {
      ShrinkPlanFromEnd(slacks, remaining, 0);
      assert plan[0..] == plan && slacks[0..] == slacks;
    }
  }

  lemma {:induction false} ShrinkPlanInTurn(slacks: seq<int>, remaining: int, edge: Edge)
    requires 0 <= remaining
    requires forall i :: 0 <= i < |slacks| ==> slacks[i] >= 0
    ensures Greedy(slacks, ShrinkPlan(slacks, remaining, edge), edge)
  {
    hide NearerSlack;
    hide ShrinkPlan;
    hide Nearer;
    var plan := ShrinkPlan(slacks, remaining, edge);
    forall i | 0 <= i < |plan| ensures 0 <= plan[i] <= slacks[i] {
      NearerSlackCovers(slacks, i, edge);
    }
    forall i, j | 0 <= i < |plan| && 0 <= j < |plan| && Nearer(edge, i, j) && plan[j] > 0
      ensures plan[i] == slacks[i]
    {
      NearerSlackGrows(slacks, i, j, edge);
    }
  }

  lemma {:induction false} NearerSlackCovers(slacks: seq<int>, i: nat, edge: Edge)
    requires i < |slacks| && forall i :: 0 <= i < |slacks| ==> slacks[i] >= 0
    ensures NearerSlack(slacks, i, edge) >= 0
  {
    if edge.Start? {
      SumNonNegative(slacks[..i]);
    } else {
      SumNonNegative(slacks[i + 1..]);
    }
  }

  lemma {:induction false} NearerSlackGrows(slacks: seq<int>, i: nat, j: nat, edge: Edge)
    requires forall i :: 0 <= i < |slacks| ==> slacks[i] >= 0
    requires i < |slacks| && j < |slacks| && Nearer(edge, i, j)
    ensures NearerSlack(slacks, i, edge) + slacks[i] <= NearerSlack(slacks, j, edge)
  {
    if edge.Start? {
      SumPrefix(slacks, i);
      SumSplit(slacks[..j], i + 1);
      assert slacks[..j][..i + 1] == slacks[..i + 1];
      SumNonNegative(slacks[..j][i + 1..]);
    } else {
      SumHead(slacks[i..]);
      assert slacks[i..][1..] == slacks[i + 1..];
      SumSplit(slacks[j + 1..], i - j - 1);
      assert slacks[j + 1..][i - j - 1..] == slacks[i..];
      SumNonNegative(slacks[j + 1..][..i - j - 1]);
    }
  }

  lemma {:induction false} ShrinkPlanFromStart(slacks: seq<int>, remaining: int, k: nat)
    requires 0 <= remaining && k <= |slacks|
    requires forall i :: 0 <= i < |slacks| ==> slacks[i] >= 0
    ensures Sum(ShrinkPlan(slacks, remaining, Start)[..k]) == Min(remaining, Sum(slacks[..k]))
    decreases k
  {
    if k > 0 {
      ShrinkPlanFromStart(slacks, remaining, k - 1);
      SumPrefix(slacks, k - 1);
      SumPrefix(ShrinkPlan(slacks, remaining, Start), k - 1);
    }
  }

  lemma {:induction false} ShrinkPlanFromEnd(slacks: seq<int>, remaining: int, k: nat)
    requires 0 <= remaining && k <= |slacks|
    requires forall i :: 0 <= i < |slacks| ==> slacks[i] >= 0
    ensures Sum(ShrinkPlan(slacks, remaining, End)[k..]) == Min(remaining, Sum(slacks[k..]))
    decreases |slacks| - k
  {
    if k < |slacks| {
      var plan := ShrinkPlan(slacks, remaining, End);
      ShrinkPlanFromEnd(slacks, remaining, k + 1);
      SumHead(slacks[k..]);
      SumHead(plan[k..]);
      assert slacks[k..][1..] == slacks[k + 1..] && plan[k..][1..] == plan[k + 1..];
    }
  }

  lemma {:induction false} SumHead(s: seq<int>)
    requires s != []
    ensures Sum(s) == s[0] + Sum(s[1..])
  {
    SumSplit(s, 1);
    assert s[..1] == [s[0]];
    assert [s[0]][..0] == [];
  }

  lemma {:induction false} SumNonNegative(s: seq<int>)
    requires forall i :: 0 <= i < |s| ==> s[i] >= 0
    ensures Sum(s) >= 0
    decreases |s|
  {
    if s != [] {
      SumNonNegative(s[..|s| - 1]);
    }
  }

  lemma {:induction false} SlacksNonNegative(ks: seq<Tree>, axis: Dir)
    requires forall i :: 0 <= i < |ks| ==> Sized(ks[i])
    ensures forall i :: 0 <= i < |ks| ==>
      Slacks(ks, axis)[i] == Size(ks[i], axis) - MinSize(ks[i], axis) >= 0
  {
    forall i | 0 <= i < |ks|
      ensures Slacks(ks, axis)[i] == Size(ks[i], axis) - MinSize(ks[i], axis) >= 0
    {
      SlackIsSizeMinusMin(ks[i], axis);
      SizedAboveMin(ks[i], axis);
    }
  }

  /** Children's sizes after an edge move fill the node again and respect their minimums. */
  lemma {:induction false} EdgeSizesFill(t: Tree, target: int, edge: Edge)
    requires t.Node? && Sized(t) && target >= MinSize(t, t.dir)
    ensures var s := EdgeSizes(t.kids, t.dir, target - Size(t, t.dir), edge);
      && Sum(s) + |s| - 1 == target
      && forall i :: 0 <= i < |s| ==> MinSize(t.kids[i], t.dir) <= s[i]
  {
    if target > Size(t, t.dir) {
      EdgeSizesGrow(t, target, edge);
    } else {
      EdgeSizesShrink(t, target, edge);
    }
  }

  lemma {:induction false} EdgeSizesGrow(t: Tree, target: int, edge: Edge)
    requires t.Node? && Sized(t) && target > Size(t, t.dir)
    ensures var s := EdgeSizes(t.kids, t.dir, target - Size(t, t.dir), edge);
      && Sum(s) + |s| - 1 == target
      && forall i :: 0 <= i < |s| ==> MinSize(t.kids[i], t.dir) <= s[i]
  {
    hide MinSize;
    hide Sized;
    SizedKids(t);
    var delta, sizes := target - Size(t, t.dir), Sizes(t.kids, t.dir);
    var k := if edge.Start? then 0 else |t.kids| - 1;
    SumUpdate(sizes, k, sizes[k] + delta);
    forall i | 0 <= i < |t.kids| ensures MinSize(t.kids[i], t.dir) <= sizes[i] {
      SizedAboveMin(t.kids[i], t.dir);
    }
  }

  lemma {:induction false} EdgeSizesShrink(t: Tree, target: int, edge: Edge)
    requires t.Node? && Sized(t) && MinSize(t, t.dir) <= target <= Size(t, t.dir)
    ensures var s := EdgeSizes(t.kids, t.dir, target - Size(t, t.dir), edge);
      && Sum(s) + |s| - 1 == target
      && forall i :: 0 <= i < |s| ==> MinSize(t.kids[i], t.dir) <= s[i]
  {
    hide MinSize;
    hide Slack;
    hide ShrinkPlan;
    var cells := Size(t, t.dir) - target;
    var slacks := Slacks(t.kids, t.dir);
    SlacksNonNegative(t.kids, t.dir);
    SlackTotal(t);
    ShrinkPlanGreedy(slacks, cells, edge);
    var s := EdgeSizes(t.kids, t.dir, -cells, edge);
    SumMinus(Sizes(t.kids, t.dir), ShrinkPlan(slacks, cells, edge), s);
  }

  lemma {:induction false} SlackTotal(t: Tree)
    requires t.Node? && Sized(t)
    ensures Sum(Slacks(t.kids, t.dir)) == Size(t, t.dir) - MinSize(t, t.dir)
  {
    SlackIsSizeMinusMin(t, t.dir);
  }

  lemma {:induction false} ResizeFromEdgeErase(t: Tree, axis: Dir, target: int, edge: Edge)
    ensures Erase(ResizeFromEdge(t, axis, target, edge)) == Erase(t)
    ensures Size(ResizeFromEdge(t, axis, target, edge), Cross(axis)) == Size(t, Cross(axis))
    decreases t
  {
    hide EdgeSizes;
    if t.Node? && t.kids != [] && target != Size(t, axis) {
      var r := ResizeFromEdge(t, axis, target, edge);
      var sizes := if t.dir == axis then EdgeSizes(t.kids, axis, target - Size(t, axis), edge)
                   else seq(|t.kids|, _ => target);
      assert r.kids == ResizeFromEdgeKids(t.kids, axis, sizes, edge);
      forall i | 0 <= i < |t.kids| ensures Erase(r.kids[i]) == Erase(t.kids[i]) {
        ResizeFromEdgeErase(t.kids[i], axis, sizes[i], edge);
      }
      assert EraseAll(r.kids) == EraseAll(t.kids);
    }
  }

  /** Moving one edge to any target above the minimum keeps the sizes an exact tiling. */
  lemma {:induction false} ResizeFromEdgeSized(t: Tree, axis: Dir, target: int, edge: Edge)
    requires Sized(t) && target >= MinSize(t, axis)
    ensures Sized(ResizeFromEdge(t, axis, target, edge))
    ensures Size(ResizeFromEdge(t, axis, target, edge), axis) == target
    decreases t, 1
  {
    if t.Node? && target != Size(t, axis) {
      if t.dir == axis {
        ResizeFromEdgeAlong(t, target, edge);
      } else {
        ResizeFromEdgeAcross(t, axis, target, edge);
      }
    }
  }

  lemma {:induction false} ResizeFromEdgeAlong(t: Tree, target: int, edge: Edge)
    requires Sized(t) && t.Node? && MinSize(t, t.dir) <= target != Size(t, t.dir)
    ensures Sized(ResizeFromEdge(t, t.dir, target, edge))
    decreases t, 0
  {
    hide EdgeSizes;
    hide MinSize;
    hide Sized;
    hide ResizeFromEdge;
    SizedKids(t);
    var sizes := EdgeSizes(t.kids, t.dir, target - Size(t, t.dir), edge);
    EdgeSizesFill(t, target, edge);
    EdgeKids(t, target, edge);
    ResizeFromEdgeKidsSized(t.kids, t.dir, sizes, edge);
    SizedFromKids(ResizeFromEdge(t, t.dir, target, edge), sizes);
  }

  lemma {:induction false} ResizeFromEdgeAcross(t: Tree, axis: Dir, target: int, edge: Edge)
    requires Sized(t) && t.Node? && MinSize(t, axis) <= target != Size(t, axis) && t.dir != axis
    ensures Sized(ResizeFromEdge(t, axis, target, edge))
    decreases t, 0
  {
    hide MinSize;
    hide Sized;
    var r := ResizeFromEdge(t, axis, target, edge);
    SizedKids(t);
    MinAcross(t, target);
    ResizeFromEdgeKidsSized(t.kids, axis, seq(|t.kids|, _ => target), edge);
    assert Sizes(r.kids, t.dir) == Sizes(t.kids, t.dir);
    SizedFromKids(r, Sizes(t.kids, t.dir));
  }

  lemma {:induction false} ResizeFromEdgeKidsSized(ks: seq<Tree>, axis: Dir, sizes: seq<int>, edge: Edge)
    requires |ks| == |sizes|
    requires forall i :: 0 <= i < |ks| ==> Sized(ks[i]) && MinSize(ks[i], axis) <= sizes[i]
    ensures var r := ResizeFromEdgeKids(ks, axis, sizes, edge);
      forall i :: 0 <= i < |ks| ==>
        Sized(r[i]) && Size(r[i], axis) == sizes[i] && Size(r[i], Cross(axis)) == Size(ks[i], Cross(axis))
    decreases ks, 2
  {
    var r := ResizeFromEdgeKids(ks, axis, sizes, edge);
    forall i | 0 <= i < |ks|
      ensures Sized(r[i]) && Size(r[i], axis) == sizes[i] && Size(r[i], Cross(axis)) == Size(ks[i], Cross(axis))
    {
      ResizeFromEdgeSized(ks[i], axis, sizes[i], edge);
      ResizeFromEdgeErase(ks[i], axis, sizes[i], edge);
    }
  }

  /**
   * One outer edge of t moved along the axis and made it u: throughout, growth
   * goes to the child at that edge, and a child shrinks only once every child
   * nearer the edge is at its minimum.
   */
  ghost predicate EdgeMoved(t: Tree, u: Tree, axis: Dir, edge: Edge)
    decreases t
  {
    && (u.Node? <==> t.Node?)
    && (t.Node? ==>
          && u.dir == t.dir && |u.kids| == |t.kids|
          && (forall i :: 0 <= i < |t.kids| ==> EdgeMoved(t.kids[i], u.kids[i], axis, edge))
          && (t.dir == axis && Size(u, axis) > Size(t, axis) ==>
                forall i :: 0 <= i < |t.kids| && i != EdgeKid(t.kids, edge) ==> SameOn(t.kids[i], u.kids[i], axis))
          && (t.dir == axis && Size(u, axis) <= Size(t, axis) ==>
                forall i, j :: 0 <= i < |t.kids| && 0 <= j < |t.kids| && Nearer(edge, i, j) ==>
                  SameOn(t.kids[j], u.kids[j], axis) || Size(u.kids[i], axis) == MinSize(t.kids[i], axis)))
  }

  function EdgeKid(ks: seq<Tree>, edge: Edge): int {
    if edge.Start? then 0 else |ks| - 1
  }

  lemma {:induction false} EdgeMovedSelf(t: Tree, axis: Dir, edge: Edge)
    ensures EdgeMoved(t, t, axis, edge)
    decreases t
  {
    if t.Node? {
      forall i | 0 <= i < |t.kids| ensures EdgeMoved(t.kids[i], t.kids[i], axis, edge) && SameOn(t.kids[i], t.kids[i], axis) {
        EdgeMovedSelf(t.kids[i], axis, edge);
        SameOnSelf(t.kids[i], axis);
      }
    }
  }

  /** Positions do not matter. */
  lemma {:induction false} EdgeMovedThen(t: Tree, u: Tree, v: Tree, axis: Dir, edge: Edge)
    requires EdgeMoved(t, u, axis, edge) && SameOn(u, v, axis)
    ensures EdgeMoved(t, v, axis, edge)
    decreases t
  {
    hide MinSize;
    if t.Node? {
      forall i | 0 <= i < |t.kids|
        ensures EdgeMoved(t.kids[i], v.kids[i], axis, edge) && Size(v.kids[i], axis) == Size(u.kids[i], axis)
        ensures SameOn(t.kids[i], u.kids[i], axis) ==> SameOn(t.kids[i], v.kids[i], axis)
      {
        EdgeMovedThen(t.kids[i], u.kids[i], v.kids[i], axis, edge);
        if SameOn(t.kids[i], u.kids[i], axis) {
          SameOnTransitive(t.kids[i], u.kids[i], v.kids[i], axis);
        }
      }
    }
  }

  lemma {:induction false} ResizeFromEdgeMoves(t: Tree, axis: Dir, target: int, edge: Edge)
    requires Sized(t) && target >= MinSize(t, axis)
    ensures var r := ResizeFromEdge(t, axis, target, edge); EdgeMoved(t, r, axis, edge) && SameOn(t, r, Cross(axis))
    decreases t, 1
  {
    hide MinSize;
    hide Sized;
    hide EdgeSizes;
    hide EdgeMoved;
    hide SameOn;
    if target == Size(t, axis) {
      EdgeMovedSelf(t, axis, edge);
      SameOnSelf(t, Cross(axis));
    } else if t.Leaf? {
      LeafEdge(t, axis, target, edge);
    } else if t.dir == axis {
      ResizeFromEdgeMovesAlong(t, target, edge);
    } else {
      ResizeFromEdgeMovesAcross(t, axis, target, edge);
    }
  }

  lemma LeafEdge(t: Tree, axis: Dir, target: int, edge: Edge)
    requires t.Leaf?
    ensures var r := ResizeFromEdge(t, axis, target, edge); EdgeMoved(t, r, axis, edge) && SameOn(t, r, Cross(axis))
  {
  }

  lemma {:induction false} ResizeFromEdgeMovesAlong(t: Tree, target: int, edge: Edge)
    requires t.Node? && Sized(t) && MinSize(t, t.dir) <= target != Size(t, t.dir)
    ensures var r := ResizeFromEdge(t, t.dir, target, edge); EdgeMoved(t, r, t.dir, edge) && SameOn(t, r, Cross(t.dir))
    decreases t, 0
  {
    hide MinSize;
    hide Sized;
    hide EdgeSizes;
    hide ShrinkPlan;
    hide Nearer;
    SizedKids(t);
    var r := ResizeFromEdge(t, t.dir, target, edge);
    var sizes := EdgeSizes(t.kids, t.dir, target - Size(t, t.dir), edge);
    EdgeSizesFill(t, target, edge);
    EdgeKids(t, target, edge);
    ResizeFromEdgeKidsMove(t.kids, t.dir, sizes, edge);
    if target > Size(t, t.dir) {
      EdgeSizesKeep(t, target, edge);
    } else {
      forall i, j | 0 <= i < |t.kids| && 0 <= j < |t.kids| && Nearer(edge, i, j)
        ensures sizes[j] == Size(t.kids[j], t.dir) || sizes[i] == MinSize(t.kids[i], t.dir)
      {
        EdgeSizesNearestFirst(t, target, edge, i, j);
      }
    }
  }

  lemma EdgeSizesKeep(t: Tree, target: int, edge: Edge)
    requires t.Node? && t.kids != [] && target > Size(t, t.dir)
    ensures var s := EdgeSizes(t.kids, t.dir, target - Size(t, t.dir), edge);
      forall i :: 0 <= i < |t.kids| && i != EdgeKid(t.kids, edge) ==> s[i] == Size(t.kids[i], t.dir)
  {
  }

  lemma {:induction false} ResizeFromEdgeMovesAcross(t: Tree, axis: Dir, target: int, edge: Edge)
    requires t.Node? && Sized(t) && t.dir != axis && MinSize(t, axis) <= target != Size(t, axis)
    ensures var r := ResizeFromEdge(t, axis, target, edge); EdgeMoved(t, r, axis, edge) && SameOn(t, r, Cross(axis))
    decreases t, 0
  {
    hide MinSize;
    hide Sized;
    hide EdgeSizes;
    SizedKids(t);
    MinAcross(t, target);
    ResizeFromEdgeKidsMove(t.kids, axis, seq(|t.kids|, _ => target), edge);
  }

  lemma {:induction false} ResizeFromEdgeKidsMove(ks: seq<Tree>, axis: Dir, sizes: seq<int>, edge: Edge)
    requires |ks| == |sizes|
    requires forall i :: 0 <= i < |ks| ==> Sized(ks[i]) && MinSize(ks[i], axis) <= sizes[i]
    ensures var r := ResizeFromEdgeKids(ks, axis, sizes, edge);
      forall i :: 0 <= i < |ks| ==>
        && EdgeMoved(ks[i], r[i], axis, edge) && SameOn(ks[i], r[i], Cross(axis)) && Size(r[i], axis) == sizes[i]
        && (sizes[i] == Size(ks[i], axis) ==> SameOn(ks[i], r[i], axis))
    decreases ks, 2
  {
    hide MinSize;
    hide Sized;
    hide EdgeMoved;
    hide SameOn;
    var r := ResizeFromEdgeKids(ks, axis, sizes, edge);
    ResizeFromEdgeKidsSized(ks, axis, sizes, edge);
    forall i | 0 <= i < |ks|
      ensures EdgeMoved(ks[i], r[i], axis, edge) && SameOn(ks[i], r[i], Cross(axis))
      ensures sizes[i] == Size(ks[i], axis) ==> SameOn(ks[i], r[i], axis)
    {
      ResizeFromEdgeMoves(ks[i], axis, sizes[i], edge);
      EdgeStays(ks[i], axis, edge);
      SameOnSelf(ks[i], axis);
    }
  }

  /** An edge drag reaches max(target, minimum), keeps the tiling, the shape and the other axis. */
  lemma {:induction false} EdgeDragTiles(t: Tree, axis: Dir, target: int, edge: Edge)
    requires Sized(t)
    ensures var r := ResizeToAxisFromEdge(t, axis, target, edge);
      && Sized(r) && Erase(r) == Erase(t)
      && Size(r, axis) == Max(target, MinSize(t, axis))
      && Size(r, Cross(axis)) == Size(t, Cross(axis))
      && EdgeMoved(t, r, axis, edge) && SameOn(t, r, Cross(axis))
  {
    hide Sized;
    hide Erase;
    hide MinSize;
    hide ClampShrink;
    hide ResizeFromEdge;
    hide EdgeMoved;
    hide SameOn;
    ClampShrinkIsMax(t, axis, target);
    SizedAboveMin(t, axis);
    if target == Size(t, axis) {
      EdgeMovedSelf(t, axis, edge);
      SameOnSelf(t, Cross(axis));
    } else {
      ResizeFromEdgeMoves(t, axis, Max(target, MinSize(t, axis)), edge);
      ResizeFromEdgeSized(t, axis, Max(target, MinSize(t, axis)), edge);
      ResizeFromEdgeErase(t, axis, Max(target, MinSize(t, axis)), edge);
    }
  }

  /** Growing a node along its split changes only the child at the moved edge. */
  lemma {:induction false} EdgeDragGrowsOnlyEdgeChild(t: Tree, target: int, edge: Edge, i: nat)
    requires Sized(t) && t.Node? && target > Size(t, t.dir) && i < |t.kids|
    requires i != if edge.Start? then 0 else |t.kids| - 1
    ensures ResizeToAxisFromEdge(t, t.dir, target, edge).kids[i] == t.kids[i]
  {
    var r := ResizeToAxisFromEdge(t, t.dir, target, edge);
    var sizes := EdgeSizes(t.kids, t.dir, target - Size(t, t.dir), edge);
    assert r.kids == ResizeFromEdgeKids(t.kids, t.dir, sizes, edge);
    assert sizes[i] == Size(t.kids[i], t.dir);
  }

  /** Shrinking changes a child only after every child nearer the edge is at its minimum. */
  lemma {:induction false} EdgeDragShrinksNearestFirst(t: Tree, target: int, edge: Edge, i: nat, j: nat)
    requires Sized(t) && t.Node? && target < Size(t, t.dir)
    requires i < |t.kids| && j < |t.kids| && Nearer(edge, i, j)
    ensures var r := ResizeToAxisFromEdge(t, t.dir, target, edge);
      r.kids[j] == t.kids[j] || Size(r.kids[i], t.dir) == MinSize(t.kids[i], t.dir)
  {
    hide EdgeSizes;
    hide MinSize;
    hide Sized;
    hide ClampShrink;
    hide ResizeFromEdge;
    var goal := Max(target, MinSize(t, t.dir));
    var ks, d := t.kids, t.dir;
    ClampShrinkIsMax(t, d, target);
    SizedAboveMin(t, d);
    if goal == Size(t, d) {
      EdgeStays(t, d, edge);
    } else {
      var sizes := EdgeSizes(ks, d, goal - Size(t, d), edge);
      EdgeKids(t, goal, edge);
      EdgeSizesFill(t, goal, edge);
      SizedKids(t);
      ResizeFromEdgeKidsSized(ks, d, sizes, edge);
      EdgeSizesNearestFirst(t, goal, edge, i, j);
      EdgeStays(ks[j], d, edge);
    }
  }

  lemma EdgeStays(t: Tree, axis: Dir, edge: Edge)
    ensures ResizeFromEdge(t, axis, Size(t, axis), edge) == t
  {
  }

  lemma EdgeKids(t: Tree, goal: int, edge: Edge)
    requires t.Node? && t.kids != [] && goal != Size(t, t.dir)
    ensures var r := ResizeFromEdge(t, t.dir, goal, edge);
      r.Node? && r.dir == t.dir && r.size == Along(t.dir, goal, Size(t, Cross(t.dir)))
      && r.kids == ResizeFromEdgeKids(t.kids, t.dir, EdgeSizes(t.kids, t.dir, goal - Size(t, t.dir), edge), edge)
  {
    hide EdgeSizes;
  }

  lemma {:induction false} EdgeSizesNearestFirst(t: Tree, goal: int, edge: Edge, i: nat, j: nat)
    requires t.Node? && Sized(t) && MinSize(t, t.dir) <= goal < Size(t, t.dir)
    requires i < |t.kids| && j < |t.kids| && Nearer(edge, i, j)
    ensures var s := EdgeSizes(t.kids, t.dir, goal - Size(t, t.dir), edge);
      s[j] == Size(t.kids[j], t.dir) || s[i] == MinSize(t.kids[i], t.dir)
  {
    hide ShrinkPlan;
    hide Slack;
    hide MinSize;
    hide Sized;
    SizedKids(t);
    SlacksNonNegative(t.kids, t.dir);
    SlackTotal(t);
    ShrinkPlanGreedy(Slacks(t.kids, t.dir), Size(t, t.dir) - goal, edge);
  }
}
