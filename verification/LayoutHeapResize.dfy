/** Axis and edge resizing of the mutable cell tree. */
module LayoutHeapResize {
  import opened Numbers
  import opened Apportion
  import opened LayoutTree
  import opened LayoutResize
  import opened LayoutHeap
  import LayoutEdit
  import LayoutRun
  import Sizing

  // ----- how far a subtree can shrink -----

  method ResizeCheck(c: LayoutCell, ghost s: Shape, axis: Dir) returns (room: int)
    requires Proper(s) && s.cell == c && Linked(s)
    ensures room == Slack(Abs(s), axis)
    decreases s, 1
  {
    hide Proper;
    hide Linked;
    hide Abs;
    hide AbsOf;
    hide Sum;
    hide Least;
    OpenShape(s);
    if c.isLeaf {
      AbsLeaf(s);
      var size := On(c.size, axis);
      return if size > PANE_MIN_SIZE then size - PANE_MIN_SIZE else 0;
    }
    AbsNode(s);
    FamilyAt(s.kids, Below(s));
    if c.dir == axis {
      room := ResizeCheckSum(c, s.kids, Below(s), axis);
    } else {
      room := ResizeCheckLeast(c, s.kids, Below(s), axis);
    }
  }

  method ResizeCheckSum(c: LayoutCell, ghost ks: seq<Shape>, ghost below: set<LayoutCell>, axis: Dir) returns (room: int)
    requires c.children == Roots(ks) && Family(ks, below) && AllLinked(ks, below)
    ensures room == Sum(Slacks(AbsOf(ks, below), axis))
    decreases ks, 0
  {
    hide Proper;
    hide Linked;
    hide Family;
    hide Abs;
    hide AbsOf;
    hide Slack;
    FamilyAt(ks, below);
    ghost var slacks := Slacks(AbsOf(ks, below), axis);
    room := 0;
    for i := 0 to |c.children|
      invariant room == Sum(slacks[..i])
    {
      var r := ResizeCheck(c.children[i], ks[i], axis);
      SumPrefix(slacks, i);
      room := room + r;
    }
    assert slacks[..|slacks|] == slacks;
  }

  method ResizeCheckLeast(c: LayoutCell, ghost ks: seq<Shape>, ghost below: set<LayoutCell>, axis: Dir) returns (room: int)
    requires c.children == Roots(ks) && Family(ks, below) && AllLinked(ks, below)
    ensures var slacks := Slacks(AbsOf(ks, below), axis);
      room == if slacks == [] then 0 else Least(slacks)
    decreases ks, 0
  {
    hide Proper;
    hide Linked;
    hide Family;
    hide Abs;
    hide AbsOf;
    hide Slack;
    FamilyAt(ks, below);
    ghost var slacks := Slacks(AbsOf(ks, below), axis);
    room := -1;
    for i := 0 to |c.children|
      invariant i == 0 ==> room == -1
      invariant i > 0 ==> room >= 0 && room == Least(slacks[..i])
    {
      var r := ResizeCheck(c.children[i], ks[i], axis);
      SlackNonNegative(Abs(ks[i]), axis);
      assert slacks[..i + 1][..i] == slacks[..i];
      if room == -1 || r < room {
        room := r;
      }
    }
    assert slacks[..|slacks|] == slacks;
    if room < 0 {
      room := 0;
    }
  }

  lemma {:induction false} SlackNonNegative(t: Tree, axis: Dir)
    ensures Slack(t, axis) >= 0
    decreases t
  {
    if t.Node? {
      var slacks := Slacks(t.kids, axis);
      forall i | 0 <= i < |slacks| ensures slacks[i] >= 0 {
        SlackNonNegative(t.kids[i], axis);
      }
      SumNonNegative(slacks);
      if slacks != [] {
        LeastNonNegative(slacks);
      }
    }
  }

  lemma {:induction false} LeastNonNegative(s: seq<int>)
    requires s != [] && forall i :: 0 <= i < |s| ==> s[i] >= 0
    ensures Least(s) >= 0
    decreases |s|
  {
    if |s| > 1 {
      LeastNonNegative(s[..|s| - 1]);
    }
  }

  // ----- proportional resize -----

  method ResizeAxis(c: LayoutCell, ghost s: Shape, axis: Dir, target: int)
    requires Proper(s) && s.cell == c && Linked(s)
    modifies s.all`size
    ensures Abs(s) == LayoutResize.ResizeAxis(old(Abs(s)), axis, target)
    decreases s, 2
  {
    hide Proper;
    hide Linked;
    hide Abs;
    hide AbsOf;
    hide KidSizes;
    hide ResizeAxisKids;
    OpenShape(s);
    if c.isLeaf {
      AbsLeaf(s);
      c.size := Along(axis, target, On(c.size, Cross(axis)));
      AbsLeaf(s);
      return;
    }
    AbsNode(s);
    FamilyAt(s.kids, Below(s));
    var sizes := seq(|c.children|, _ => target);
    if c.dir == axis {
      sizes := c.FitChildren(s, target);
    }
    c.SetSizeOnly(s, Along(axis, target, On(c.size, Cross(axis))));
    if |c.children| == 0 {
      AbsNode(s);
      return;
    }
    ResizeAxisChildren(c, s.kids, Below(s), axis, sizes);
    AbsNode(s);
  }

  method ResizeAxisChildren(c: LayoutCell, ghost ks: seq<Shape>, ghost below: set<LayoutCell>, axis: Dir, sizes: seq<int>)
    requires c.children == Roots(ks) && Family(ks, below) && AllLinked(ks, below) && |sizes| == |ks|
    modifies below`size
    ensures AbsOf(ks, below) == ResizeAxisKids(old(AbsOf(ks, below)), axis, sizes)
    decreases ks, 1
  {
    hide Proper;
    hide AllLinked;
    hide Abs;
    hide AbsOf;
    hide Family;
    hide LayoutResize.ResizeAxis;
    FamilyAt(ks, below);
    ghost var was := AbsOf(ks, below);
    for i := 0 to |c.children|
      invariant forall j :: 0 <= j < |ks| ==>
        Abs(ks[j]) == if j < i then LayoutResize.ResizeAxis(was[j], axis, sizes[j]) else was[j]
    {
      ResizeAxisChild(c, ks, below, i, axis, sizes[i]);
    }
    FamilyAt(ks, below);
    assert AbsOf(ks, below) == ResizeAxisKids(was, axis, sizes);
  }

  method ResizeAxisChild(c: LayoutCell, ghost ks: seq<Shape>, ghost below: set<LayoutCell>, i: nat, axis: Dir, target: int)
    requires c.children == Roots(ks) && Family(ks, below) && AllLinked(ks, below) && i < |ks|
    modifies below`size
    ensures Abs(ks[i]) == LayoutResize.ResizeAxis(old(Abs(ks[i])), axis, target)
    ensures forall j :: 0 <= j < |ks| && j != i ==> Abs(ks[j]) == old(Abs(ks[j]))
    decreases ks, 0
  {
    hide LayoutResize.ResizeAxis;
    ResizeAxis(c.children[i], ks[i], axis, target);
  }

  /** The clamped target when shrinking: no further than the subtree can give. */
  method ClampTarget(c: LayoutCell, ghost s: Shape, axis: Dir, target: int) returns (goal: int)
    requires Proper(s) && s.cell == c && Linked(s)
    ensures goal == ClampShrink(Abs(s), axis, target)
  {
    hide Slack;
    AbsHead(s);
    goal := target;
    var current := On(c.size, axis);
    if target < current {
      var room := ResizeCheck(c, s, axis);
      if target < current - room {
        goal := current - room;
      }
    }
  }

  method ResizeToAxis(c: LayoutCell, ghost s: Shape, axis: Dir, target: int)
    requires Proper(s) && s.cell == c && Linked(s)
    modifies s.all`size
    ensures Abs(s) == LayoutResize.ResizeToAxis(old(Abs(s)), axis, target)
  {
    hide ClampShrink;
    hide LayoutResize.ResizeAxis;
    AbsHead(s);
    if target == On(c.size, axis) {
      return;
    }
    var goal := ClampTarget(c, s, axis, target);
    ResizeAxis(c, s, axis, goal);
  }

  /** Fits the whole tree to new terminal dimensions. */
  method ResizeAll(c: LayoutCell, ghost s: Shape, want: Vec)
    requires Proper(s) && s.cell == c && Linked(s)
    modifies s.all`at, s.all`size
    ensures Abs(s) == LayoutResize.ResizeAll(old(Abs(s)), want)
  {
    hide LayoutResize.ResizeToAxis;
    hide LayoutTree.FixOffsets;
    ResizeToAxis(c, s, Vertical, want.x);
    ResizeToAxis(c, s, Horizontal, want.y);
    c.FixOffsets(s);
  }

  // ----- moving one edge -----

  method ResizeAxisFromEdge(c: LayoutCell, ghost s: Shape, axis: Dir, target: int, edge: Edge)
    requires Proper(s) && s.cell == c && Linked(s)
    modifies s.all`size
    ensures Abs(s) == ResizeFromEdge(old(Abs(s)), axis, target, edge)
    decreases s, 3
  {
    hide Proper;
    hide Linked;
    hide Abs;
    hide AbsOf;
    hide EdgeSizes;
    hide ResizeFromEdgeKids;
    OpenShape(s);
    AbsHead(s);
    var current := On(c.size, axis);
    if target == current {
      return;
    }
    if c.isLeaf {
      AbsLeaf(s);
      c.size := Along(axis, if target < PANE_MIN_SIZE then PANE_MIN_SIZE else target, On(c.size, Cross(axis)));
      AbsLeaf(s);
      return;
    }
    AbsNode(s);
    FamilyAt(s.kids, Below(s));
    c.SetSizeOnly(s, Along(axis, target, On(c.size, Cross(axis))));
    if |c.children| == 0 {
      AbsNode(s);
      return;
    }
    if c.dir != axis {
      EdgeAcross(c, s.kids, Below(s), axis, target, edge);
    } else if target > current {
      EdgeGrow(c, s.kids, Below(s), axis, target - current, edge);
    } else if edge.Start? {
      EdgeShrinkFromStart(c, s.kids, Below(s), axis, current - target);
    } else {
      EdgeShrinkFromEnd(c, s.kids, Below(s), axis, current - target);
    }
    AbsNode(s);
  }

  method EdgeChild(c: LayoutCell, ghost ks: seq<Shape>, ghost below: set<LayoutCell>, i: nat, axis: Dir, target: int, edge: Edge)
    requires c.children == Roots(ks) && Family(ks, below) && AllLinked(ks, below) && i < |ks|
    modifies below`size
    ensures Abs(ks[i]) == ResizeFromEdge(old(Abs(ks[i])), axis, target, edge)
    ensures forall j :: 0 <= j < |ks| && j != i ==> Abs(ks[j]) == old(Abs(ks[j]))
    decreases ks, 0
  {
    hide ResizeFromEdge;
    ResizeAxisFromEdge(c.children[i], ks[i], axis, target, edge);
  }

  method EdgeAcross(c: LayoutCell, ghost ks: seq<Shape>, ghost below: set<LayoutCell>, axis: Dir, target: int, edge: Edge)
    requires c.children == Roots(ks) && Family(ks, below) && AllLinked(ks, below)
    modifies below`size
    ensures AbsOf(ks, below) == ResizeFromEdgeKids(old(AbsOf(ks, below)), axis, seq(|ks|, _ => target), edge)
    decreases ks, 1
  {
    hide Proper;
    hide AllLinked;
    hide Abs;
    hide AbsOf;
    hide Family;
    hide ResizeFromEdge;
    FamilyAt(ks, below);
    ghost var was := AbsOf(ks, below);
    for i := 0 to |c.children|
      invariant forall j :: 0 <= j < |ks| ==>
        Abs(ks[j]) == if j < i then ResizeFromEdge(was[j], axis, target, edge) else was[j]
    {
      EdgeChild(c, ks, below, i, axis, target, edge);
    }
    FamilyAt(ks, below);
    assert AbsOf(ks, below) == ResizeFromEdgeKids(was, axis, seq(|ks|, _ => target), edge);
  }

  /** Asking a cell for the size it has changes nothing. */
  lemma {:induction false} EdgeIdle(t: Tree, axis: Dir, edge: Edge)
    ensures ResizeFromEdge(t, axis, Size(t, axis), edge) == t
  {
  }

  method EdgeGrow(c: LayoutCell, ghost ks: seq<Shape>, ghost below: set<LayoutCell>, axis: Dir, delta: int, edge: Edge)
    requires c.children == Roots(ks) && Family(ks, below) && AllLinked(ks, below) && ks != [] && delta > 0
    modifies below`size
    ensures AbsOf(ks, below) ==
      var was := old(AbsOf(ks, below)); ResizeFromEdgeKids(was, axis, EdgeSizes(was, axis, delta, edge), edge)
    decreases ks, 1
  {
    hide Proper;
    hide AllLinked;
    hide Abs;
    hide AbsOf;
    hide Family;
    hide ResizeFromEdge;
    FamilyAt(ks, below);
    ghost var was := AbsOf(ks, below);
    var k := if edge.Start? then 0 else |c.children| - 1;
    AbsChild(c, ks, below, k);
    EdgeChild(c, ks, below, k, axis, On(c.children[k].size, axis) + delta, edge);
    FamilyAt(ks, below);
    forall j | 0 <= j < |ks| && j != k ensures ResizeFromEdge(was[j], axis, Size(was[j], axis), edge) == was[j] {
      EdgeIdle(was[j], axis, edge);
    }
    assert AbsOf(ks, below) == ResizeFromEdgeKids(was, axis, EdgeSizes(was, axis, delta, edge), edge);
  }

  lemma {:induction false} AbsChild(c: LayoutCell, ks: seq<Shape>, below: set<LayoutCell>, i: nat)
    requires c.children == Roots(ks) && Family(ks, below) && i < |ks|
    ensures Abs(ks[i]).size == c.children[i].size
  {
  }

  /** What an edge move leaves child i with, when the node gives up `cells` cells. */
  lemma {:induction false} EdgeSizesAt(ks: seq<Tree>, axis: Dir, cells: int, edge: Edge, i: nat)
    requires i < |ks| && cells >= 0
    ensures var slacks := Slacks(ks, axis);
      EdgeSizes(ks, axis, -cells, edge)[i]
      == Size(ks[i], axis) - Max(0, Min(slacks[i], cells - NearerSlack(slacks, i, edge)))
  {
    hide Slack;
    hide NearerSlack;
  }

  method EdgeShrinkFromStart(c: LayoutCell, ghost ks: seq<Shape>, ghost below: set<LayoutCell>, axis: Dir, cells: int)
    requires c.children == Roots(ks) && Family(ks, below) && AllLinked(ks, below) && ks != [] && cells >= 0
    modifies below`size
    ensures AbsOf(ks, below) ==
      var was := old(AbsOf(ks, below)); ResizeFromEdgeKids(was, axis, EdgeSizes(was, axis, -cells, Start), Start)
    decreases ks, 2
  {
    hide Proper;
    hide AllLinked;
    hide Abs;
    hide AbsOf;
    hide Family;
    hide ResizeFromEdge;
    hide Slack;
    hide Sum;
    hide EdgeSizes;
    FamilyAt(ks, below);
    ghost var was := AbsOf(ks, below);
    ghost var slacks := Slacks(was, axis);
    var remaining := cells;
    var i := 0;
    SumNone(slacks);
    while i < |c.children| && remaining > 0
      invariant 0 <= i <= |ks|
      invariant forall j :: 0 <= j < |ks| ==>
        Abs(ks[j]) == if j < i then ResizeFromEdge(was[j], axis, EdgeSizes(was, axis, -cells, Start)[j], Start) else was[j]
      invariant remaining == Max(0, cells - Sum(slacks[..i]))
    {
      SumPrefix(slacks, i);
      EdgeSizesAt(was, axis, cells, Start, i);
      remaining := ShrinkChild(c, ks, below, i, axis, remaining, Start);
      i := i + 1;
    }
    FamilyAt(ks, below);
    forall j | i <= j < |ks|
      ensures was[j] == ResizeFromEdge(was[j], axis, EdgeSizes(was, axis, -cells, Start)[j], Start)
    {
      EdgeIdle(was[j], axis, Start);
      SlacksAllNonNegative(was, axis);
      PrefixGrows(slacks, i, j);
      EdgeSizesAt(was, axis, cells, Start, j);
    }
    assert AbsOf(ks, below) == ResizeFromEdgeKids(was, axis, EdgeSizes(was, axis, -cells, Start), Start);
  }

  method EdgeShrinkFromEnd(c: LayoutCell, ghost ks: seq<Shape>, ghost below: set<LayoutCell>, axis: Dir, cells: int)
    requires c.children == Roots(ks) && Family(ks, below) && AllLinked(ks, below) && ks != [] && cells >= 0
    modifies below`size
    ensures AbsOf(ks, below) ==
      var was := old(AbsOf(ks, below)); ResizeFromEdgeKids(was, axis, EdgeSizes(was, axis, -cells, End), End)
    decreases ks, 2
  {
    hide Proper;
    hide AllLinked;
    hide Abs;
    hide AbsOf;
    hide Family;
    hide ResizeFromEdge;
    hide Slack;
    hide Sum;
    hide EdgeSizes;
    FamilyAt(ks, below);
    ghost var was := AbsOf(ks, below);
    ghost var slacks := Slacks(was, axis);
    var remaining := cells;
    var i := |c.children|;
    SumNone(slacks);
    while i > 0 && remaining > 0
      invariant 0 <= i <= |ks|
      invariant forall j :: 0 <= j < |ks| ==>
        Abs(ks[j]) == if j >= i then ResizeFromEdge(was[j], axis, EdgeSizes(was, axis, -cells, End)[j], End) else was[j]
      invariant remaining == Max(0, cells - Sum(slacks[i..]))
    {
      i := i - 1;
      SumHead(slacks[i..]);
      assert slacks[i..][1..] == slacks[i + 1..];
      EdgeSizesAt(was, axis, cells, End, i);
      remaining := ShrinkChild(c, ks, below, i, axis, remaining, End);
    }
    FamilyAt(ks, below);
    forall j | 0 <= j < i
      ensures was[j] == ResizeFromEdge(was[j], axis, EdgeSizes(was, axis, -cells, End)[j], End)
    {
      EdgeIdle(was[j], axis, End);
      SlacksAllNonNegative(was, axis);
      SuffixGrows(slacks, j + 1, i);
      EdgeSizesAt(was, axis, cells, End, j);
    }
    assert AbsOf(ks, below) == ResizeFromEdgeKids(was, axis, EdgeSizes(was, axis, -cells, End), End);
  }

  lemma {:induction false} SumNone(s: seq<int>)
    ensures Sum(s[..0]) == 0 && Sum(s[|s|..]) == 0
  {
  }

  lemma {:induction false} SlacksAllNonNegative(ks: seq<Tree>, axis: Dir)
    ensures forall i :: 0 <= i < |ks| ==> Slacks(ks, axis)[i] >= 0
  {
    forall i | 0 <= i < |ks| ensures Slacks(ks, axis)[i] >= 0 {
      SlackNonNegative(ks[i], axis);
    }
  }

  lemma {:induction false} PrefixGrows(s: seq<int>, i: nat, j: nat)
    requires i <= j <= |s| && forall k :: 0 <= k < |s| ==> s[k] >= 0
    ensures Sum(s[..i]) <= Sum(s[..j])
  {
    SumSplit(s[..j], i);
    assert s[..j][..i] == s[..i];
    SumNonNegative(s[..j][i..]);
  }

  lemma {:induction false} SuffixGrows(s: seq<int>, i: nat, j: nat)
    requires i <= j <= |s| && forall k :: 0 <= k < |s| ==> s[k] >= 0
    ensures Sum(s[j..]) <= Sum(s[i..])
  {
    SumSplit(s[i..], j - i);
    assert s[i..][j - i..] == s[j..];
    SumNonNegative(s[i..][..j - i]);
  }

  /** Takes what one child can give, up to `remaining`, and returns what is still to take. */
  method ShrinkChild(c: LayoutCell, ghost ks: seq<Shape>, ghost below: set<LayoutCell>, i: nat, axis: Dir,
                     remaining: int, edge: Edge) returns (left: int)
    requires c.children == Roots(ks) && Family(ks, below) && AllLinked(ks, below) && i < |ks| && remaining > 0
    modifies below`size
    ensures var was := old(Abs(ks[i])); var take := Min(Slack(was, axis), remaining);
      Abs(ks[i]) == ResizeFromEdge(was, axis, Size(was, axis) - take, edge) && left == remaining - take
    ensures forall j :: 0 <= j < |ks| && j != i ==> Abs(ks[j]) == old(Abs(ks[j]))
    ensures Slack(old(Abs(ks[i])), axis) >= 0
    decreases ks, 1
  {
    hide Abs;
    hide Slack;
    hide ResizeFromEdge;
    ghost var was := Abs(ks[i]);
    var shrink := ResizeCheck(c.children[i], ks[i], axis);
    SlackNonNegative(was, axis);
    AbsChild(c, ks, below, i);
    if shrink > remaining {
      shrink := remaining;
    }
    if shrink == 0 {
      EdgeIdle(was, axis, edge);
    } else {
      EdgeChild(c, ks, below, i, axis, On(c.children[i].size, axis) - shrink, edge);
    }
    left := remaining - shrink;
  }

  /** Moves one outer edge of the subtree to the clamped target. */
  method ResizeToAxisFromEdge(c: LayoutCell, ghost s: Shape, axis: Dir, target: int, edge: Edge)
    requires Proper(s) && s.cell == c && Linked(s)
    modifies s.all`size
    ensures Abs(s) == LayoutResize.ResizeToAxisFromEdge(old(Abs(s)), axis, target, edge)
  {
    hide ClampShrink;
    hide ResizeFromEdge;
    AbsHead(s);
    if target == On(c.size, axis) {
      return;
    }
    var goal := ClampTarget(c, s, axis, target);
    ResizeAxisFromEdge(c, s, axis, goal, edge);
  }

  // ----- moving cells between siblings -----

  method EdgeToAxisChild(c: LayoutCell, ghost ks: seq<Shape>, ghost below: set<LayoutCell>, i: nat, axis: Dir, target: int, edge: Edge)
    requires c.children == Roots(ks) && Family(ks, below) && AllLinked(ks, below) && i < |ks|
    modifies below`size
    ensures Abs(ks[i]) == LayoutResize.ResizeToAxisFromEdge(old(Abs(ks[i])), axis, target, edge)
    ensures forall j :: 0 <= j < |ks| && j != i ==> Abs(ks[j]) == old(Abs(ks[j]))
  {
    hide LayoutResize.ResizeToAxisFromEdge;
    ResizeToAxisFromEdge(c.children[i], ks[i], axis, target, edge);
  }

  /** Child g of a node grows by what child d can give, up to `needed`; says how much that was. */
  method TransferAxisSize(c: LayoutCell, ghost s: Shape, g: nat, d: nat, needed: nat) returns (moved: int)
    requires Proper(s) && s.cell == c && Linked(s) && !c.isLeaf && g < |s.kids| && d < |s.kids| && g != d
    modifies Below(s)`size
    ensures old(Abs(s)).Node? && |old(Abs(s)).kids| == |s.kids|
    ensures moved == LayoutRun.Available(old(Abs(s)).kids[d], old(Abs(s)).dir, needed)
    ensures Abs(s) == LayoutRun.Transfer(old(Abs(s)), g, d, needed)
  {
    hide Proper;
    hide Linked;
    hide Abs;
    hide AbsOf;
    hide Family;
    hide Slack;
    hide LayoutRun.Transfer;
    hide LayoutResize.ResizeToAxisFromEdge;
    OpenShape(s);
    AbsNode(s);
    FamilyAt(s.kids, Below(s));
    ghost var t := Abs(s);
    var axis := c.dir;
    moved := ResizeCheck(c.children[d], s.kids[d], axis);
    if moved == 0 {
      NoTransfer(t, g, d, needed);
      return;
    }
    if moved > needed {
      moved := needed;
    }
    var growing, giving := if d < g then Start else End, if d < g then End else Start;
    AbsHead(s.kids[g]);
    AbsHead(s.kids[d]);
    EdgeToAxisChild(c, s.kids, Below(s), g, axis, On(c.children[g].size, axis) + moved, growing);
    AbsHead(s.kids[d]);
    EdgeToAxisChild(c, s.kids, Below(s), d, axis, On(c.children[d].size, axis) - moved, giving);
    AbsNode(s);
    FamilyAt(s.kids, Below(s));
    TransferIs(t, AbsOf(s.kids, Below(s)), g, d, needed, moved);
  }

  lemma {:induction false} TransferIs(t: Tree, kids: seq<Tree>, g: nat, d: nat, needed: nat, moved: int)
    requires t.Node? && g < |t.kids| && d < |t.kids| && g != d && |kids| == |t.kids|
    requires moved == LayoutRun.Available(t.kids[d], t.dir, needed)
    requires var (growing, giving) := if d < g then (Start, End) else (End, Start);
      && kids[g] == LayoutResize.ResizeToAxisFromEdge(t.kids[g], t.dir, Size(t.kids[g], t.dir) + moved, growing)
      && kids[d] == LayoutResize.ResizeToAxisFromEdge(t.kids[d], t.dir, Size(t.kids[d], t.dir) - moved, giving)
    requires forall i :: 0 <= i < |kids| && i != g && i != d ==> kids[i] == t.kids[i]
    ensures LayoutRun.Transfer(t, g, d, needed) == Node(t.dir, kids, t.at, t.size)
  {
    hide LayoutResize.ResizeToAxisFromEdge;
    hide Slack;
    var (growing, giving) := if d < g then (Start, End) else (End, Start);
    NothingMoved(t.kids[g], t.dir, growing);
    NothingMoved(t.kids[d], t.dir, giving);
    assert moved != 0 ==> kids == LayoutRun.Transfer(t, g, d, needed).kids;
    assert moved == 0 ==> kids == t.kids;
  }

  lemma NoTransfer(t: Tree, g: nat, d: nat, needed: nat)
    requires t.Node? && g < |t.kids| && d < |t.kids| && LayoutRun.Available(t.kids[d], t.dir, needed) == 0
    ensures LayoutRun.Transfer(t, g, d, needed) == t
  {
  }

  lemma NothingMoved(t: Tree, axis: Dir, edge: Edge)
    ensures LayoutResize.ResizeToAxisFromEdge(t, axis, Size(t, axis), edge) == t
  {
  }
}
