/**
 * The split tree as a value: what a subtree of layout cells looks like at one
 * moment, and what each layout operation turns it into.
 */
module LayoutTree {
  import opened Common
  import opened Numbers
  import opened Apportion

  /** Vertical dividers put children left to right, horizontal ones top to bottom. */
  datatype Dir = Vertical | Horizontal

  /** Columns and rows: a position (X, Y) or an extent (W, H). */
  datatype Vec = Vec(x: int, y: int)

  datatype Tree =
    | Leaf(pane: Option<nat>, at: Vec, size: Vec)
    | Node(dir: Dir, kids: seq<Tree>, at: Vec, size: Vec)

  function Cross(axis: Dir): Dir {
    if axis.Vertical? then Horizontal else Vertical
  }

  /** The component a split in direction `axis` divides. */
  function On(v: Vec, axis: Dir): int {
    if axis.Vertical? then v.x else v.y
  }

  function Along(axis: Dir, along: int, across: int): Vec {
    if axis.Vertical? then Vec(along, across) else Vec(across, along)
  }

  function Size(t: Tree, axis: Dir): int {
    On(t.size, axis)
  }

  function Pos(t: Tree, axis: Dir): int {
    On(t.at, axis)
  }

  function Sizes(ks: seq<Tree>, axis: Dir): (s: seq<int>)
    ensures |s| == |ks|
    ensures forall i :: 0 <= i < |ks| ==> s[i] == Size(ks[i], axis)
  {
    seq(|ks|, i requires 0 <= i < |ks| => Size(ks[i], axis))
  }

  // ----- shape -----

  /** The tree without its geometry: split directions, nesting and panes. */
  function Erase(t: Tree): (e: Tree)
    decreases t
  {
    match t
    case Leaf(p, _, _) => Leaf(p, Vec(0, 0), Vec(0, 0))
    case Node(d, ks, _, _) => Node(d, EraseAll(ks), Vec(0, 0), Vec(0, 0))
  }

  function EraseAll(ks: seq<Tree>): (es: seq<Tree>)
    ensures |es| == |ks|
    ensures forall i :: 0 <= i < |ks| ==> es[i] == Erase(ks[i])
    decreases ks
  {
    seq(|ks|, i requires 0 <= i < |ks| => Erase(ks[i]))
  }

  /** Every split node has a child. */
  ghost predicate Grown(t: Tree)
    decreases t
  {
    t.Node? ==> |t.kids| >= 1 && forall i :: 0 <= i < |t.kids| ==> Grown(t.kids[i])
  }

  /** Every split node has at least two children. */
  ghost predicate Branching(t: Tree)
    decreases t
  {
    t.Node? ==> |t.kids| >= 2 && forall i :: 0 <= i < |t.kids| ==> Branching(t.kids[i])
  }

  lemma {:induction false} BranchingGrown(t: Tree)
    requires Branching(t)
    ensures Grown(t)
    decreases t
  {
    if t.Node? {
      forall i | 0 <= i < |t.kids| ensures Grown(t.kids[i]) {
        BranchingGrown(t.kids[i]);
      }
    }
  }

  // ----- geometry -----

  /** Children fill their node with one separator between siblings, cross sizes agree, no pane is too small. */
  ghost predicate Sized(t: Tree)
    decreases t
  {
    match t
    case Leaf(_, _, size) => size.x >= PANE_MIN_SIZE && size.y >= PANE_MIN_SIZE
    case Node(d, ks, _, _) =>
      && |ks| >= 1
      && Sum(Sizes(ks, d)) + |ks| - 1 == Size(t, d)
      && forall i :: 0 <= i < |ks| ==> Sized(ks[i]) && Size(ks[i], Cross(d)) == Size(t, Cross(d))
  }

  /** Where child i starts along the split axis. */
  function Offset(ks: seq<Tree>, axis: Dir, start: int, i: nat): int
    requires i <= |ks|
  {
    start + Sum(Sizes(ks, axis)[..i]) + i
  }

  /** Each child starts right after its predecessor's separator. */
  ghost predicate Placed(t: Tree)
    decreases t
  {
    t.Node? ==> forall i :: 0 <= i < |t.kids| ==>
      && Placed(t.kids[i])
      && Pos(t.kids[i], t.dir) == Offset(t.kids, t.dir, Pos(t, t.dir), i)
      && Pos(t.kids[i], Cross(t.dir)) == Pos(t, Cross(t.dir))
  }

  ghost predicate Tiled(t: Tree) {
    Sized(t) && Placed(t)
  }

  // ----- subtree minimums -----

  function MinSize(t: Tree, axis: Dir): int
    decreases t
  {
    match t
    case Leaf(_, _, _) => PANE_MIN_SIZE
    case Node(d, ks, _, _) =>
      if ks == [] then Size(t, axis)
      else if d == axis then |ks| - 1 + Sum(MinSizes(ks, axis))
      else MaxOf(MinSizes(ks, axis))
  }

  function MinSizes(ks: seq<Tree>, axis: Dir): (s: seq<int>)
    ensures |s| == |ks|
    ensures forall i :: 0 <= i < |ks| ==> s[i] == MinSize(ks[i], axis)
    decreases ks
  {
    seq(|ks|, i requires 0 <= i < |ks| => MinSize(ks[i], axis))
  }

  lemma {:induction false} MinSizeFloor(t: Tree, axis: Dir)
    requires Grown(t)
    ensures MinSize(t, axis) >= PANE_MIN_SIZE
    decreases t
  {
    if t.Node? {
      var ms := MinSizes(t.kids, axis);
      forall i | 0 <= i < |ms| ensures ms[i] >= PANE_MIN_SIZE {
        MinSizeFloor(t.kids[i], axis);
      }
      SumFloor(ms);
      MaxOfBounds(ms, 0);
    }
  }

  lemma {:induction false} MinSizesFloor(ks: seq<Tree>, axis: Dir)
    requires forall i :: 0 <= i < |ks| ==> Grown(ks[i])
    ensures forall i :: 0 <= i < |ks| ==> MinSizes(ks, axis)[i] >= PANE_MIN_SIZE
  {
    forall i | 0 <= i < |ks| ensures MinSizes(ks, axis)[i] >= PANE_MIN_SIZE {
      MinSizeFloor(ks[i], axis);
    }
  }

  /** Minimums depend on the shape alone. */
  lemma {:induction false} MinSizeErase(t: Tree, axis: Dir)
    requires Grown(t)
    ensures MinSize(t, axis) == MinSize(Erase(t), axis)
    decreases t
  {
    if t.Node? {
      forall i | 0 <= i < |t.kids|
        ensures MinSizes(t.kids, axis)[i] == MinSizes(EraseAll(t.kids), axis)[i]
      {
        MinSizeErase(t.kids[i], axis);
      }
      assert MinSizes(t.kids, axis) == MinSizes(EraseAll(t.kids), axis);
    }
  }

  lemma {:induction false} GrownErase(t: Tree)
    ensures Grown(t) <==> Grown(Erase(t))
    ensures Branching(t) <==> Branching(Erase(t))
    decreases t
  {
    if t.Node? {
      forall i | 0 <= i < |t.kids|
        ensures Grown(t.kids[i]) <==> Grown(EraseAll(t.kids)[i])
        ensures Branching(t.kids[i]) <==> Branching(EraseAll(t.kids)[i])
      {
        GrownErase(t.kids[i]);
      }
    }
  }

  lemma SameShapeSameMin(t: Tree, u: Tree, axis: Dir)
    requires Erase(t) == Erase(u) && Grown(t)
    ensures Grown(u) && MinSize(t, axis) == MinSize(u, axis)
  {
    GrownErase(t);
    GrownErase(u);
    MinSizeErase(t, axis);
    MinSizeErase(u, axis);
  }

  lemma {:induction false} SizedGrown(t: Tree)
    requires Sized(t)
    ensures Grown(t)
    decreases t
  {
    if t.Node? {
      forall i | 0 <= i < |t.kids| ensures Grown(t.kids[i]) {
        SizedGrown(t.kids[i]);
      }
    }
  }

  /** A tiled subtree is at least as large as its minimum. */
  lemma {:induction false} SizedAboveMin(t: Tree, axis: Dir)
    requires Sized(t)
    ensures Size(t, axis) >= MinSize(t, axis)
    decreases t
  {
    if t.Node? {
      var ms, ss := MinSizes(t.kids, axis), Sizes(t.kids, axis);
      forall i | 0 <= i < |t.kids| ensures ms[i] <= ss[i] {
        SizedAboveMin(t.kids[i], axis);
      }
      if t.dir == axis {
        SumMonotone(ms, ss);
      } else {
        forall i | 0 <= i < |ms| ensures ms[i] <= Size(t, axis) {
          assert ss[i] == Size(t, axis);
        }
        SizedGrown(t.kids[0]);
        MinSizeFloor(t.kids[0], axis);
        MaxOfLeast(ms, Size(t, axis));
      }
    }
  }

  // ----- FixOffsets -----

  /** The subtree moved to `at`, with every position below recomputed from sizes. */
  function Place(t: Tree, at: Vec): (r: Tree)
    ensures r.at == at && r.size == t.size
    decreases t
  {
    match t
    case Leaf(p, _, size) => Leaf(p, at, size)
    case Node(d, ks, _, size) => Node(d, PlaceAll(ks, d, at), at, size)
  }

  function KidAt(ks: seq<Tree>, d: Dir, at: Vec, i: nat): Vec
    requires i <= |ks|
  {
    Along(d, Offset(ks, d, On(at, d), i), On(at, Cross(d)))
  }

  function PlaceAll(ks: seq<Tree>, d: Dir, at: Vec): (r: seq<Tree>)
    ensures |r| == |ks|
    ensures forall i :: 0 <= i < |ks| ==> r[i] == Place(ks[i], KidAt(ks, d, at, i))
    decreases ks
  {
    seq(|ks|, i requires 0 <= i < |ks| => Place(ks[i], KidAt(ks, d, at, i)))
  }

  function FixOffsets(t: Tree): Tree {
    Place(t, t.at)
  }

  lemma {:induction false} PlaceAllSizes(ks: seq<Tree>, d: Dir, at: Vec, axis: Dir)
    ensures Sizes(PlaceAll(ks, d, at), axis) == Sizes(ks, axis)
  {
    var r := PlaceAll(ks, d, at);
    forall i | 0 <= i < |ks| ensures Sizes(r, axis)[i] == Sizes(ks, axis)[i] {
      assert r[i] == Place(ks[i], KidAt(ks, d, at, i));
    }
  }

  /** Placing makes every position right, wherever the cells were before. */
  lemma {:induction false} PlacePlaces(t: Tree, at: Vec)
    ensures Placed(Place(t, at))
    decreases t
  {
    if t.Node? {
      var r := Place(t, at);
      PlaceAllSizes(t.kids, t.dir, at, t.dir);
      forall i | 0 <= i < |t.kids|
        ensures Placed(r.kids[i])
        ensures Pos(r.kids[i], t.dir) == Offset(r.kids, t.dir, Pos(r, t.dir), i)
        ensures Pos(r.kids[i], Cross(t.dir)) == Pos(r, Cross(t.dir))
      {
        assert r.kids[i] == Place(t.kids[i], KidAt(t.kids, t.dir, at, i));
        PlacePlaces(t.kids[i], KidAt(t.kids, t.dir, at, i));
      }
    }
  }

  lemma {:induction false} PlaceErase(t: Tree, at: Vec)
    ensures Erase(Place(t, at)) == Erase(t)
    decreases t
  {
    if t.Node? {
      var r := Place(t, at);
      forall i | 0 <= i < |t.kids| ensures Erase(r.kids[i]) == Erase(t.kids[i]) {
        PlaceErase(t.kids[i], KidAt(t.kids, t.dir, at, i));
      }
      assert EraseAll(r.kids) == EraseAll(t.kids);
    }
  }

  lemma {:induction false} PlaceSized(t: Tree, at: Vec)
    requires Sized(t)
    ensures Sized(Place(t, at))
    decreases t
  {
    if t.Node? {
      var r := Place(t, at);
      PlaceAllSizes(t.kids, t.dir, at, t.dir);
      forall i | 0 <= i < |t.kids|
        ensures Sized(r.kids[i]) && Size(r.kids[i], Cross(t.dir)) == Size(t, Cross(t.dir))
      {
        PlaceSized(t.kids[i], KidAt(t.kids, t.dir, at, i));
      }
    }
  }

  lemma FixOffsetsTiles(t: Tree)
    requires Sized(t)
    ensures Tiled(FixOffsets(t))
    ensures Erase(FixOffsets(t)) == Erase(t)
  {
    PlacePlaces(t, t.at);
    PlaceErase(t, t.at);
    PlaceSized(t, t.at);
  }

  // ----- ResizeSubtree -----

  /** The requested extent, raised to the subtree minimum on each axis. */
  function Clamp(t: Tree, want: Vec): Vec {
    Vec(Max(want.x, MinSize(t, Vertical)), Max(want.y, MinSize(t, Horizontal)))
  }

  /** Sizes of the children when a node is to be `along` cells long in its split direction. */
  function KidSizes(ks: seq<Tree>, d: Dir, along: int): (s: seq<int>)
    ensures |s| == |ks|
  {
    Fit(Sizes(ks, d), MinSizes(ks, d), along - (|ks| - 1))
  }

  /** From whatever sizes the subtree has now, to the wanted extent or the subtree minimum. */
  function ResizeSubtree(t: Tree, want: Vec): (r: Tree)
    ensures r.at == t.at
    decreases t
  {
    match t
    case Leaf(p, at, _) => Leaf(p, at, Clamp(t, want))
    case Node(d, ks, at, _) =>
      if ks == [] then t
      else
        var size := Clamp(t, want);
        var kids := ResizeKids(ks, d, KidSizes(ks, d, On(size, d)), On(size, Cross(d)));
        FixOffsets(Node(d, kids, at, size))
  }

  /** Children resized to `sizes` along the split axis and to `across` on the other. */
  function ResizeKids(ks: seq<Tree>, d: Dir, sizes: seq<int>, across: int): (r: seq<Tree>)
    requires |sizes| == |ks|
    ensures |r| == |ks|
    ensures forall i :: 0 <= i < |ks| ==> r[i] == ResizeSubtree(ks[i], Along(d, sizes[i], across))
    decreases ks
  {
    seq(|ks|, i requires 0 <= i < |ks| => ResizeSubtree(ks[i], Along(d, sizes[i], across)))
  }

  lemma {:induction false} ResizeSubtreeErase(t: Tree, want: Vec)
    ensures Erase(ResizeSubtree(t, want)) == Erase(t)
    decreases t
  {
    if t.Node? && t.kids != [] {
      var size := Clamp(t, want);
      var sizes := KidSizes(t.kids, t.dir, On(size, t.dir));
      ResizeKidsErase(t.kids, t.dir, sizes, On(size, Cross(t.dir)));
      var u := Node(t.dir, ResizeKids(t.kids, t.dir, sizes, On(size, Cross(t.dir))), t.at, size);
      PlaceErase(u, t.at);
    }
  }

  lemma {:induction false} ResizeKidsErase(ks: seq<Tree>, d: Dir, sizes: seq<int>, across: int)
    requires |sizes| == |ks|
    ensures EraseAll(ResizeKids(ks, d, sizes, across)) == EraseAll(ks)
    decreases ks
  {
    var r := ResizeKids(ks, d, sizes, across);
    forall i | 0 <= i < |ks| ensures Erase(r[i]) == Erase(ks[i]) {
      ResizeSubtreeErase(ks[i], Along(d, sizes[i], across));
    }
    assert EraseAll(r) == EraseAll(ks);
  }

  /**
   * ResizeSubtree makes an exact tiling of size max(requested, minimum) on
   * each axis, whatever sizes and positions the subtree had before.
   */
  lemma {:induction false} ResizeSubtreeTiles(t: Tree, want: Vec)
    requires Grown(t)
    ensures Tiled(ResizeSubtree(t, want))
    ensures ResizeSubtree(t, want).size == Clamp(t, want)
    decreases t
  {
    hide Sized;
    hide Placed;
    hide KidSizes;
    hide FixOffsets;
    hide MinSize;
    if t.Leaf? {
      ResizedLeaf(t, want);
    } else {
      var size := Clamp(t, want);
      var sizes := KidSizes(t.kids, t.dir, On(size, t.dir));
      var across := On(size, Cross(t.dir));
      KidSizesFill(t, On(size, t.dir));
      MinAcross(t, across);
      ResizeKidsTile(t.kids, t.dir, sizes, across);
      var u := Node(t.dir, ResizeKids(t.kids, t.dir, sizes, across), t.at, size);
      SizedFromKids(u, sizes);
      FixOffsetsTiles(u);
      FixOffsetsSize(u);
    }
  }

  lemma ResizedLeaf(t: Tree, want: Vec)
    requires t.Leaf?
    ensures Tiled(ResizeSubtree(t, want)) && ResizeSubtree(t, want).size == Clamp(t, want)
  {
  }

  lemma FixOffsetsSize(t: Tree)
    ensures FixOffsets(t).size == t.size
  {
  }

  lemma {:induction false} SizedFromKids(t: Tree, sizes: seq<int>)
    requires t.Node? && |t.kids| == |sizes| >= 1
    requires forall i :: 0 <= i < |t.kids| ==>
      Sized(t.kids[i]) && Size(t.kids[i], t.dir) == sizes[i] && Size(t.kids[i], Cross(t.dir)) == Size(t, Cross(t.dir))
    requires Sum(sizes) + |sizes| - 1 == Size(t, t.dir)
    ensures Sized(t)
  {
    assert Sizes(t.kids, t.dir) == sizes;
  }

  lemma {:induction false} SizedKids(t: Tree)
    requires t.Node? && Sized(t)
    ensures t.kids != [] && Sum(Sizes(t.kids, t.dir)) + |t.kids| - 1 == Size(t, t.dir)
    ensures forall i :: 0 <= i < |t.kids| ==> Sized(t.kids[i])
    ensures forall i :: 0 <= i < |t.kids| ==> Size(t.kids[i], Cross(t.dir)) == Size(t, Cross(t.dir))
  {
  }

  /** Children's sizes fill their node and respect every child's minimum. */
  lemma {:induction false} KidSizesFill(t: Tree, along: int)
    requires t.Node? && Grown(t) && along >= MinSize(t, t.dir)
    ensures var s := KidSizes(t.kids, t.dir, along);
      && Sum(s) + |s| - 1 == along
      && forall i :: 0 <= i < |s| ==> MinSize(t.kids[i], t.dir) <= s[i]
  {
    hide Apportion.Fit;
    var ms := MinSizes(t.kids, t.dir);
    MinSizesFloor(t.kids, t.dir);
    FitFills(Sizes(t.kids, t.dir), ms, along - (|t.kids| - 1));
    assert forall i :: 0 <= i < |ms| ==> ms[i] == MinSize(t.kids[i], t.dir);
  }

  /** A node's cross minimum covers each child's. */
  lemma {:induction false} MinAcross(t: Tree, across: int)
    requires t.Node? && t.kids != [] && across >= MinSize(t, Cross(t.dir))
    ensures forall i :: 0 <= i < |t.kids| ==> MinSize(t.kids[i], Cross(t.dir)) <= across
  {
    var ms := MinSizes(t.kids, Cross(t.dir));
    forall i | 0 <= i < |t.kids| ensures MinSize(t.kids[i], Cross(t.dir)) <= across {
      MaxOfBounds(ms, i);
      assert ms[i] == MinSize(t.kids[i], Cross(t.dir));
    }
  }

  lemma {:induction false} ResizeKidsTile(ks: seq<Tree>, d: Dir, sizes: seq<int>, across: int)
    requires |sizes| == |ks|
    requires forall i :: 0 <= i < |ks| ==> Grown(ks[i])
    requires forall i :: 0 <= i < |ks| ==> MinSize(ks[i], d) <= sizes[i]
    requires forall i :: 0 <= i < |ks| ==> MinSize(ks[i], Cross(d)) <= across
    ensures var r := ResizeKids(ks, d, sizes, across);
      forall i :: 0 <= i < |ks| ==>
        Tiled(r[i]) && Size(r[i], d) == sizes[i] && Size(r[i], Cross(d)) == across
    decreases ks
  {
    var r := ResizeKids(ks, d, sizes, across);
    forall i | 0 <= i < |ks|
      ensures Tiled(r[i]) && Size(r[i], d) == sizes[i] && Size(r[i], Cross(d)) == across
    {
      ResizeSubtreeTiles(ks[i], Along(d, sizes[i], across));
    }
  }
}
