/** The mutable cell tree: each method is tied to the value-level operation it performs. */
module LayoutHeap {
  import opened Common
  import opened Numbers
  import opened Apportion
  import opened LayoutTree
  import Sizing

  /** Which cells make up a subtree and how they nest; `all` holds every cell of the subtree. */
  datatype Shape = Shape(cell: LayoutCell, kids: seq<Shape>, all: set<LayoutCell>)

  /** No cell occurs twice. */
  ghost predicate Proper(s: Shape)
    decreases s
  {
    && s.cell in s.all
    && (forall i :: 0 <= i < |s.kids| ==>
          Proper(s.kids[i]) && s.kids[i].cell in s.kids[i].all && s.kids[i].all <= s.all && s.cell !in s.kids[i].all)
    && (forall i, j :: 0 <= i < j < |s.kids| ==> s.kids[i].all !! s.kids[j].all)
  }

  ghost function Roots(ks: seq<Shape>): (r: seq<LayoutCell>)
    ensures |r| == |ks| && forall i :: 0 <= i < |ks| ==> r[i] == ks[i].cell
  {
    seq(|ks|, i requires 0 <= i < |ks| => ks[i].cell)
  }

  /** The shape is the real tree: child slices and parent links agree with it. */
  ghost predicate Linked(s: Shape)
    requires Proper(s)
    reads s.all`children, (s.all - {s.cell})`parent, s.all`isLeaf
    decreases s
  {
    && s.cell.children == Roots(s.kids)
    && (s.cell.isLeaf ==> s.kids == [])
    && (forall i :: 0 <= i < |s.kids| ==> s.kids[i].cell.parent == s.cell && Linked(s.kids[i]))
  }

  ghost function Below(s: Shape): set<LayoutCell> {
    s.all - {s.cell}
  }

  /** The value of a subtree. */
  ghost function Abs(s: Shape): Tree
    requires Proper(s)
    reads s.all`isLeaf, s.all`pane, s.all`dir, s.all`at, s.all`size
    decreases s
  {
    if s.cell.isLeaf then Leaf(s.cell.pane, s.cell.at, s.cell.size)
    else Node(s.cell.dir, AbsOf(s.kids, Below(s)), s.cell.at, s.cell.size)
  }

  ghost function AbsOf(ks: seq<Shape>, all: set<LayoutCell>): (r: seq<Tree>)
    requires forall i :: 0 <= i < |ks| ==> Proper(ks[i]) && ks[i].all <= all
    reads all`isLeaf, all`pane, all`dir, all`at, all`size
    ensures |r| == |ks| && forall i :: 0 <= i < |ks| ==> r[i] == Abs(ks[i])
    decreases ks
  {
    if ks == [] then [] else [Abs(ks[0])] + AbsOf(ks[1..], all)
  }

  class LayoutCell {
    var at: Vec
    var size: Vec
    var dir: Dir
    var isLeaf: bool
    var pane: Option<nat>
    var parent: LayoutCell?
    var children: seq<LayoutCell>

    constructor Leaf(pane: Option<nat>, at: Vec, size: Vec)
      ensures this.pane == pane && this.at == at && this.size == size
      ensures isLeaf && children == [] && parent == null
    {
      this.pane, this.at, this.size := pane, at, size;
      isLeaf, children, parent, dir := true, [], null, Vertical;
    }

    /** Moves this cell alone. */
    method SetAt(ghost s: Shape, to: Vec)
      requires Proper(s) && s.cell == this && Linked(s)
      modifies this`at
      ensures Abs(s) == MoveTo(old(Abs(s)), to)
    {
      at := to;
      if !isLeaf {
        KidsUnchanged(s);
      }
    }

    /** Moves this cell and everything below it. */
    method MoveSubtree(ghost s: Shape, to: Vec)
      requires Proper(s) && s.cell == this && Linked(s)
      modifies s.all`at
      ensures Abs(s) == Place(old(Abs(s)), to)
      decreases s, 1
    {
      PlaceAnywhere(Abs(s), to);
      SetAt(s, to);
      FixOffsets(s);
    }

    /** Recomputes every position below this cell from the sizes. */
    method FixOffsets(ghost s: Shape)
      requires Proper(s) && s.cell == this && Linked(s)
      modifies s.all`at
      ensures Abs(s) == LayoutTree.FixOffsets(old(Abs(s)))
      decreases s, 0
    {
      hide Proper;
      hide Linked;
      hide Abs;
      hide AbsOf;
      hide Place;
      hide Family;
      if isLeaf {
        AbsLeaf(s);
        return;
      }
      OpenShape(s);
      AbsNode(s);
      PlaceChildren(s.kids, Below(s), dir, at);
      AbsNode(s);
      PlaceNode(old(Abs(s)), AbsOf(s.kids, Below(s)));
    }

    method PlaceChildren(ghost ks: seq<Shape>, ghost below: set<LayoutCell>, d: Dir, start: Vec)
      requires children == Roots(ks) && Family(ks, below) && AllLinked(ks, below)
      modifies below`at
      ensures forall i :: 0 <= i < |ks| ==>
        Abs(ks[i]) == Place(old(Abs(ks[i])), KidAt(old(AbsOf(ks, below)), d, start, i))
      decreases ks, 1
    {
      hide Proper;
      hide AllLinked;
      hide Abs;
      hide AbsOf;
      hide Place;
      hide Family;
      hide Offset;
      FamilyAt(ks, below);
      ghost var was := AbsOf(ks, below);
      var off := On(start, d);
      OffsetStart(was, d, off);
      for i := 0 to |children|
        invariant off == Offset(was, d, On(start, d), i)
        invariant forall j :: 0 <= j < |ks| ==>
          Abs(ks[j]) == if j < i then Place(was[j], KidAt(was, d, start, j)) else was[j]
      {
        OffsetNext(was, d, On(start, d), i);
        PlaceSize(was[i], KidAt(was, d, start, i));
        var size := PlaceChild(ks, below, i, Along(d, off, On(start, Cross(d))));
        off := off + On(size, d) + 1;
      }
    }

    method PlaceChild(ghost ks: seq<Shape>, ghost below: set<LayoutCell>, i: nat, to: Vec) returns (size: Vec)
      requires children == Roots(ks) && Family(ks, below) && AllLinked(ks, below) && i < |ks|
      modifies below`at
      ensures Abs(ks[i]) == Place(old(Abs(ks[i])), to) && size == Abs(ks[i]).size
      ensures forall j :: 0 <= j < |ks| && j != i ==> Abs(ks[j]) == old(Abs(ks[j]))
      decreases ks, 0
    {
      children[i].MoveSubtree(ks[i], to);
      size := children[i].size;
    }

    // ----- reading sizes -----

    /** Present sizes of the children along one axis. */
    method ChildSizes(ghost ks: seq<Shape>, ghost below: set<LayoutCell>, axis: Dir) returns (sizes: seq<int>)
      requires children == Roots(ks) && Family(ks, below) && AllLinked(ks, below)
      ensures sizes == Sizes(AbsOf(ks, below), axis)
    {
      hide Proper;
      hide AllLinked;
      hide Abs;
      hide AbsOf;
      FamilyAt(ks, below);
      sizes := [];
      for i := 0 to |children|
        invariant |sizes| == i && forall j :: 0 <= j < i ==> sizes[j] == Size(Abs(ks[j]), axis)
      {
        AbsHead(ks[i]);
        sizes := sizes + [On(children[i].size, axis)];
      }
    }

    /** Subtree minimums of the children along one axis. */
    method ChildMinimums(ghost ks: seq<Shape>, ghost below: set<LayoutCell>, axis: Dir) returns (sizes: seq<int>)
      requires children == Roots(ks) && Family(ks, below) && AllLinked(ks, below)
      ensures sizes == MinSizes(AbsOf(ks, below), axis)
      decreases ks, 0
    {
      hide Abs;
      hide AbsOf;
      hide MinSize;
      FamilyAt(ks, below);
      sizes := [];
      for i := 0 to |children|
        invariant |sizes| == i && forall j :: 0 <= j < i ==> sizes[j] == MinSize(Abs(ks[j]), axis)
      {
        var m := children[i].MinSubtreeSize(ks[i], axis);
        sizes := sizes + [m];
      }
    }

    /** The smallest extent this subtree can have along one axis. */
    method MinSubtreeSize(ghost s: Shape, axis: Dir) returns (least: int)
      requires Proper(s) && s.cell == this && Linked(s)
      ensures least == MinSize(Abs(s), axis)
      decreases s, 1
    {
      hide Proper;
      hide Linked;
      hide Abs;
      hide AbsOf;
      hide Sum;
      hide MaxOf;
      OpenShape(s);
      AbsHead(s);
      if isLeaf {
        AbsLeaf(s);
        return PANE_MIN_SIZE;
      }
      AbsNode(s);
      if |children| == 0 {
        FamilyAt(s.kids, Below(s));
        return On(size, axis);
      }
      var ms := ChildMinimums(s.kids, Below(s), axis);
      FamilyAt(s.kids, Below(s));
      if dir == axis {
        least := Sizing.SumOf(ms);
        least := least + |children| - 1;
      } else {
        least := Largest(ms);
      }
    }

    // ----- resizing a whole subtree -----

    /** Children's sizes when this node is to be `along` cells long in its split direction. */
    method FitChildren(ghost s: Shape, along: int) returns (sizes: seq<int>)
      requires Proper(s) && s.cell == this && Linked(s) && !isLeaf
      ensures |Abs(s).kids| == |s.kids| && sizes == KidSizes(Abs(s).kids, dir, along)
    {
      hide Proper;
      hide Linked;
      hide Abs;
      hide AbsOf;
      hide Fit;
      hide MinSize;
      OpenShape(s);
      AbsNode(s);
      FamilyAt(s.kids, Below(s));
      var current := ChildSizes(s.kids, Below(s), dir);
      var minimums := ChildMinimums(s.kids, Below(s), dir);
      sizes := Sizing.ProportionalSubtreeChildSizes(current, minimums, along - (|children| - 1));
    }

    /** Resizes this subtree from whatever sizes it has now, and fixes positions. */
    method ResizeSubtree(ghost s: Shape, want: Vec)
      requires Proper(s) && s.cell == this && Linked(s)
      modifies s.all`at, s.all`size
      ensures Abs(s) == LayoutTree.ResizeSubtree(old(Abs(s)), want)
      decreases s, 2
    {
      hide Proper;
      hide Linked;
      hide Abs;
      hide AbsOf;
      hide KidSizes;
      hide MinSize;
      hide ResizeKids;
      hide LayoutTree.FixOffsets;
      hide LayoutTree.ResizeSubtree;
      OpenShape(s);
      ghost var was := Abs(s);
      if isLeaf {
        AbsLeaf(s);
        ResizeLeaf(was, want);
        size := Vec(Max(want.x, PANE_MIN_SIZE), Max(want.y, PANE_MIN_SIZE));
        AbsLeaf(s);
        return;
      }
      AbsNode(s);
      FamilyAt(s.kids, Below(s));
      if |children| == 0 {
        ResizeEmpty(was, want);
        return;
      }
      var minW := MinSubtreeSize(s, Vertical);
      var minH := MinSubtreeSize(s, Horizontal);
      var size' := Vec(Max(want.x, minW), Max(want.y, minH));
      var sizes := FitChildren(s, On(size', dir));
      SetSizeOnly(s, size');
      ResizeChildren(s.kids, Below(s), dir, sizes, On(size', Cross(dir)));
      AbsNode(s);
      ResizeNode(was, want, AbsOf(s.kids, Below(s)));
      FixOffsets(s);
    }

    /** Sets this cell's own extent. */
    method SetSizeOnly(ghost s: Shape, to: Vec)
      requires Proper(s) && s.cell == this && Linked(s)
      modifies this`size
      ensures size == to
      ensures forall i :: 0 <= i < |s.kids| ==> Proper(s.kids[i]) && Abs(s.kids[i]) == old(Abs(s.kids[i]))
      ensures AbsOf(s.kids, Below(s)) == old(AbsOf(s.kids, Below(s)))
    {
      size := to;
      KidsUnchanged(s);
    }

    method ResizeChildren(ghost ks: seq<Shape>, ghost below: set<LayoutCell>, d: Dir, sizes: seq<int>, across: int)
      requires children == Roots(ks) && Family(ks, below) && AllLinked(ks, below) && |sizes| == |ks|
      modifies below`at, below`size
      ensures AbsOf(ks, below) == ResizeKids(old(AbsOf(ks, below)), d, sizes, across)
      decreases ks, 1
    {
      hide Proper;
      hide AllLinked;
      hide Abs;
      hide AbsOf;
      hide Family;
      hide LayoutTree.ResizeSubtree;
      FamilyAt(ks, below);
      ghost var was := AbsOf(ks, below);
      for i := 0 to |children|
        invariant forall j :: 0 <= j < |ks| ==>
          Abs(ks[j]) == if j < i then LayoutTree.ResizeSubtree(was[j], Along(d, sizes[j], across)) else was[j]
      {
        ResizeChild(ks, below, i, Along(d, sizes[i], across));
      }
      FamilyAt(ks, below);
      assert AbsOf(ks, below) == ResizeKids(was, d, sizes, across);
    }

    method ResizeChild(ghost ks: seq<Shape>, ghost below: set<LayoutCell>, i: nat, want: Vec)
      requires children == Roots(ks) && Family(ks, below) && AllLinked(ks, below) && i < |ks|
      modifies below`at, below`size
      ensures Abs(ks[i]) == LayoutTree.ResizeSubtree(old(Abs(ks[i])), want)
      ensures forall j :: 0 <= j < |ks| && j != i ==> Abs(ks[j]) == old(Abs(ks[j]))
      decreases ks, 0
    {
      hide LayoutTree.ResizeSubtree;
      children[i].ResizeSubtree(ks[i], want);
    }
  }

  method Largest(s: seq<int>) returns (m: int)
    ensures m == MaxOf(s)
  {
    m := 0;
    for i := 0 to |s|
      invariant m == MaxOf(s[..i])
    {
      assert s[..i + 1][..i] == s[..i];
      if s[i] > m {
        m := s[i];
      }
    }
    assert s[..|s|] == s;
  }

  ghost predicate AllLinked(ks: seq<Shape>, below: set<LayoutCell>)
    requires Family(ks, below)
    reads below`children, below`parent, below`isLeaf
  {
    forall i :: 0 <= i < |ks| ==> Linked(ks[i])
  }

  /** Sibling subtrees within a set of cells, no two sharing a cell. */
  ghost predicate Family(ks: seq<Shape>, below: set<LayoutCell>) {
    && (forall i :: 0 <= i < |ks| ==> Proper(ks[i]) && ks[i].cell in ks[i].all && ks[i].all <= below)
    && (forall i, j :: 0 <= i < |ks| && 0 <= j < |ks| && i != j ==> ks[i].all !! ks[j].all)
  }

  // ----- unfolding shapes one level -----

  lemma OpenShape(s: Shape)
    requires Proper(s) && Linked(s)
    ensures s.cell in s.all && s.cell.children == Roots(s.kids) && (s.cell.isLeaf ==> s.kids == [])
    ensures forall i :: 0 <= i < |s.kids| ==> Proper(s.kids[i])
    ensures forall i :: 0 <= i < |s.kids| ==> Linked(s.kids[i])
    ensures forall i :: 0 <= i < |s.kids| ==> s.kids[i].cell.parent == s.cell
    ensures Family(s.kids, Below(s)) && AllLinked(s.kids, Below(s))
  {
  }

  lemma FamilyAt(ks: seq<Shape>, below: set<LayoutCell>)
    requires Family(ks, below)
    ensures forall i :: 0 <= i < |ks| ==> Proper(ks[i]) && ks[i].all <= below
    ensures |AbsOf(ks, below)| == |ks|
    ensures forall i :: 0 <= i < |ks| ==> AbsOf(ks, below)[i] == Abs(ks[i])
  {
  }

  lemma AbsLeaf(s: Shape)
    requires Proper(s) && s.cell.isLeaf
    ensures Abs(s) == Leaf(s.cell.pane, s.cell.at, s.cell.size)
    ensures LayoutTree.FixOffsets(Abs(s)) == Abs(s)
  {
  }

  lemma AbsHead(s: Shape)
    requires Proper(s)
    ensures Abs(s).at == s.cell.at && Abs(s).size == s.cell.size && (Abs(s).Leaf? <==> s.cell.isLeaf)
  {
  }

  lemma AbsNode(s: Shape)
    requires Proper(s) && !s.cell.isLeaf
    ensures forall i :: 0 <= i < |s.kids| ==> Proper(s.kids[i]) && s.kids[i].all <= Below(s)
    ensures Abs(s) == Node(s.cell.dir, AbsOf(s.kids, Below(s)), s.cell.at, s.cell.size)
  {
  }

  twostate predicate SameValue(c: LayoutCell)
    reads c
  {
    && c.isLeaf == old(c.isLeaf) && c.pane == old(c.pane) && c.dir == old(c.dir)
    && c.at == old(c.at) && c.size == old(c.size)
  }

  /** A change to the top cell alone leaves the children's values as they were. */
  twostate lemma KidsUnchanged(s: Shape)
    requires Proper(s)
    requires forall c :: c in Below(s) ==> SameValue(c)
    ensures AbsOf(s.kids, Below(s)) == old(AbsOf(s.kids, Below(s)))
  {
  }

  // ----- value-level helpers -----

  function MoveTo(t: Tree, at: Vec): Tree {
    match t
    case Leaf(p, _, size) => Leaf(p, at, size)
    case Node(d, ks, _, size) => Node(d, ks, at, size)
  }

  lemma PlaceAnywhere(t: Tree, at: Vec)
    ensures LayoutTree.FixOffsets(MoveTo(t, at)) == Place(t, at)
  {
  }

  lemma OffsetStart(ks: seq<Tree>, d: Dir, start: int)
    ensures Offset(ks, d, start, 0) == start
  {
    assert Sizes(ks, d)[..0] == [];
  }

  lemma OffsetNext(ks: seq<Tree>, d: Dir, start: int, i: nat)
    requires i < |ks|
    ensures Offset(ks, d, start, i + 1) == Offset(ks, d, start, i) + Size(ks[i], d) + 1
  {
    SumPrefix(Sizes(ks, d), i);
  }

  lemma PlaceSize(t: Tree, at: Vec)
    ensures Place(t, at).size == t.size
  {
  }

  lemma ResizeLeaf(t: Tree, want: Vec)
    requires t.Leaf?
    ensures LayoutTree.ResizeSubtree(t, want)
            == Leaf(t.pane, t.at, Vec(Max(want.x, PANE_MIN_SIZE), Max(want.y, PANE_MIN_SIZE)))
  {
  }

  lemma ResizeEmpty(t: Tree, want: Vec)
    requires t.Node? && t.kids == []
    ensures LayoutTree.ResizeSubtree(t, want) == t
  {
  }

  lemma ResizeNode(t: Tree, want: Vec, ks: seq<Tree>)
    requires t.Node? && t.kids != []
    requires var size := Clamp(t, want);
      ks == ResizeKids(t.kids, t.dir, KidSizes(t.kids, t.dir, On(size, t.dir)), On(size, Cross(t.dir)))
    ensures LayoutTree.ResizeSubtree(t, want) == LayoutTree.FixOffsets(Node(t.dir, ks, t.at, Clamp(t, want)))
  {
  }

  lemma PlaceNode(t: Tree, ks: seq<Tree>)
    requires t.Node? && |ks| == |t.kids|
    requires forall i :: 0 <= i < |ks| ==> ks[i] == Place(t.kids[i], KidAt(t.kids, t.dir, t.at, i))
    ensures LayoutTree.FixOffsets(t) == Node(t.dir, ks, t.at, t.size)
  {
    assert ks == PlaceAll(t.kids, t.dir, t.at);
  }
}
