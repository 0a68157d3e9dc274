/** Splitting, closing and equalizing the mutable cell tree. */
module LayoutHeapEdit {
  import opened Common
  import opened Numbers
  import opened Apportion
  import opened LayoutTree
  import opened LayoutEdit
  import opened LayoutHeap
  import Sizing

  // ----- equalizing -----

  method EqualizeChildren(c: LayoutCell, ghost s: Shape)
    requires Proper(s) && s.cell == c && Linked(s)
    modifies s.all`at, s.all`size
    ensures Linked(s) && Abs(s) == LayoutEdit.EqualizeChildren(old(Abs(s)))
    ensures c.at == old(c.at) && c.size == old(c.size)
  {
    hide Proper;
    hide Linked;
    hide Abs;
    hide AbsOf;
    hide EqualFit;
    hide MinSize;
    hide ResizeKids;
    OpenShape(s);
    AbsHead(s);
    if c.isLeaf {
      return;
    }
    AbsNode(s);
    FamilyAt(s.kids, Below(s));
    if |c.children| == 0 {
      return;
    }
    var minimums := c.ChildMinimums(s.kids, Below(s), c.dir);
    var sizes, ok := Sizing.EqualSubtreeSplitSizes(minimums, On(c.size, c.dir));
    if !ok {
      return;
    }
    c.ResizeChildren(s.kids, Below(s), c.dir, sizes, On(c.size, Cross(c.dir)));
    AbsNode(s);
  }

  method EqualizeAxisRecursive(c: LayoutCell, ghost s: Shape, axis: Dir)
    requires Proper(s) && s.cell == c && Linked(s)
    modifies s.all`at, s.all`size
    ensures Abs(s) == EqualizeAxis(old(Abs(s)), axis)
    decreases s, 2
  {
    hide Proper;
    hide Linked;
    hide Abs;
    hide AbsOf;
    hide LayoutEdit.EqualizeChildren;
    hide EqualizeAxisAll;
    hide EqualizeAxis;
    OpenShape(s);
    AbsHead(s);
    ghost var was := Abs(s);
    EqualizeAxisUnfold(was, axis);
    if !c.isLeaf && c.dir == axis {
      EqualizeChildren(c, s);
    }
    if c.isLeaf {
      return;
    }
    AbsNode(s);
    EqualizeAxisChildren(c, s.kids, Below(s), axis);
    AbsNode(s);
  }

  lemma EqualizeAxisUnfold(t: Tree, axis: Dir)
    ensures t.Leaf? ==> EqualizeAxis(t, axis) == t
    ensures t.Node? ==>
      EqualizeAxis(t, axis) == Node(t.dir, EqualizeAxisAll(EqualizeHere(t, axis).kids, axis), t.at, t.size)
  {
  }

  method EqualizeAxisChildren(c: LayoutCell, ghost ks: seq<Shape>, ghost below: set<LayoutCell>, axis: Dir)
    requires c.children == Roots(ks) && Family(ks, below) && AllLinked(ks, below)
    modifies below`at, below`size
    ensures AbsOf(ks, below) == EqualizeAxisAll(old(AbsOf(ks, below)), axis)
    decreases ks, 1
  {
    hide Proper;
    hide AllLinked;
    hide Abs;
    hide AbsOf;
    hide Family;
    hide EqualizeAxis;
    FamilyAt(ks, below);
    ghost var was := AbsOf(ks, below);
    for i := 0 to |c.children|
      invariant forall j :: 0 <= j < |ks| ==> Abs(ks[j]) == if j < i then EqualizeAxis(was[j], axis) else was[j]
    {
      EqualizeAxisChild(c, ks, below, i, axis);
    }
    FamilyAt(ks, below);
    assert AbsOf(ks, below) == EqualizeAxisAll(was, axis);
  }

  method EqualizeAxisChild(c: LayoutCell, ghost ks: seq<Shape>, ghost below: set<LayoutCell>, i: nat, axis: Dir)
    requires c.children == Roots(ks) && Family(ks, below) && AllLinked(ks, below) && i < |ks|
    modifies below`at, below`size
    ensures Abs(ks[i]) == EqualizeAxis(old(Abs(ks[i])), axis)
    ensures forall j :: 0 <= j < |ks| && j != i ==> Abs(ks[j]) == old(Abs(ks[j]))
    decreases ks, 0
  {
    hide EqualizeAxis;
    EqualizeAxisRecursive(c.children[i], ks[i], axis);
  }

  // ----- addressing a cell inside a tree -----

  ghost predicate HasShape(s: Shape, path: Path)
    decreases |path|
  {
    path == [] || (path[0] < |s.kids| && HasShape(s.kids[path[0]], path[1..]))
  }

  ghost function ShapeAt(s: Shape, path: Path): Shape
    requires HasShape(s, path)
    decreases |path|
  {
    if path == [] then s else ShapeAt(s.kids[path[0]], path[1..])
  }

  /** The shape with the subtree at `path` exchanged. */
  ghost function Graft(s: Shape, path: Path, sub: Shape): Shape
    requires HasShape(s, path)
    decreases |path|
  {
    if path == [] then sub
    else Shape(s.cell, s.kids[path[0] := Graft(s.kids[path[0]], path[1..], sub)], s.all + sub.all)
  }

  /** The tree with the subtree at `path` exchanged. */
  function Replace(t: Tree, path: Path, sub: Tree): Tree
    requires HasPath(t, path)
    decreases |path|
  {
    if path == [] then sub else WithKid(t, path[0], Replace(t.kids[path[0]], path[1..], sub))
  }

  lemma {:induction false} AddressesAgree(s: Shape, path: Path)
    requires Proper(s) && Linked(s) && HasShape(s, path)
    ensures Proper(ShapeAt(s, path)) && Linked(ShapeAt(s, path)) && ShapeAt(s, path).all <= s.all
    ensures HasPath(Abs(s), path) && At(Abs(s), path) == Abs(ShapeAt(s, path))
    decreases |path|
  {
    if path != [] {
      OpenShape(s);
      AbsNode(s);
      FamilyAt(s.kids, Below(s));
      AddressesAgree(s.kids[path[0]], path[1..]);
    }
  }

  lemma {:induction false} KidShape(s: Shape, path: Path)
    requires Proper(s) && HasShape(s, path) && path != []
    ensures Proper(s.kids[path[0]]) && s.kids[path[0]].all <= s.all
    ensures ShapeAt(s, path).cell in ShapeAt(s, path).all && ShapeAt(s, path).all <= s.kids[path[0]].all
    ensures s.kids[path[0]].cell in s.all
    ensures |path| > 1 ==> s.kids[path[0]].cell !in ShapeAt(s, path).all
    decreases |path|
  {
    if |path| > 1 {
      KidShape(s.kids[path[0]], path[1..]);
    }
  }

  /** Outside the subtree at `path`, the tree is linked up and has the value t. */
  ghost predicate Around(s: Shape, path: Path, t: Tree)
    requires Proper(s) && HasShape(s, path)
    reads s.all - ShapeAt(s, path).all, ShapeAt(s, path).cell`parent
    decreases |path|
  {
    path == [] ||
    (KidShape(s, path);
     var i := path[0];
     && t.Node? && |t.kids| == |s.kids|
     && s.cell.children == Roots(s.kids) && !s.cell.isLeaf
     && s.cell.dir == t.dir && s.cell.at == t.at && s.cell.size == t.size
     && (forall j :: 0 <= j < |s.kids| && j != i ==>
           s.kids[j].cell.parent == s.cell && Linked(s.kids[j]) && Abs(s.kids[j]) == t.kids[j])
     && (assert |path| == 1 ==> path[1..] == [] && ShapeAt(s, path) == s.kids[i];
         s.kids[i].cell.parent == s.cell)
     && Around(s.kids[i], path[1..], t.kids[i]))
  }

  lemma {:induction false} LinkedAround(s: Shape, path: Path)
    requires Proper(s) && Linked(s) && HasShape(s, path)
    ensures Around(s, path, Abs(s))
    decreases |path|
  {
    if path != [] {
      OpenShape(s);
      AbsNode(s);
      FamilyAt(s.kids, Below(s));
      LinkedAround(s.kids[path[0]], path[1..]);
    }
  }

  /** A subtree may be rebuilt in place: the whole is linked up again, and only that part of its value changes. */
  lemma {:induction false} GraftKeeps(s: Shape, path: Path, t: Tree, sub: Shape)
    requires Proper(s) && HasShape(s, path) && Around(s, path, t)
    requires Proper(sub) && Linked(sub) && sub.cell == ShapeAt(s, path).cell
    requires sub.all * s.all <= ShapeAt(s, path).all
    ensures Proper(Graft(s, path, sub)) && Linked(Graft(s, path, sub))
    ensures Graft(s, path, sub).cell == s.cell && Graft(s, path, sub).all <= s.all + sub.all
    ensures HasPath(t, path) && Abs(Graft(s, path, sub)) == Replace(t, path, Abs(sub))
    decreases |path|
  {
    if path != [] {
      KidShape(s, path);
      GraftKeeps(s.kids[path[0]], path[1..], t.kids[path[0]], sub);
      assert Roots(s.kids[path[0] := Graft(s.kids[path[0]], path[1..], sub)]) == Roots(s.kids);
      GraftStep(s, path[0], Graft(s.kids[path[0]], path[1..], sub), t, ShapeAt(s, path).all, sub.all);
    }
  }

  /** What is inside the exchanged subtree is found through its path. */
  lemma {:induction false} GraftAt(s: Shape, path: Path, sub: Shape, q: Path)
    requires HasShape(s, path) && HasShape(sub, q)
    ensures HasShape(Graft(s, path, sub), path + q) && ShapeAt(Graft(s, path, sub), path + q) == ShapeAt(sub, q)
    decreases |path|
  {
    if path == [] {
      assert path + q == q;
    } else {
      assert (path + q)[0] == path[0] && (path + q)[1..] == path[1..] + q;
      GraftAt(s.kids[path[0]], path[1..], sub, q);
    }
  }

  lemma RootAt(s: Shape)
    ensures HasShape(s, []) && ShapeAt(s, []) == s
  {
  }

  lemma ChildAt(s: Shape, i: nat)
    requires i < |s.kids|
    ensures HasShape(s, [i]) && ShapeAt(s, [i]) == s.kids[i]
  {
    assert [i][1..] == [];
  }

  lemma {:induction false} GraftStep(s: Shape, i: nat, g: Shape, t: Tree, inner: set<LayoutCell>, more: set<LayoutCell>)
    requires Proper(s) && i < |s.kids| && t.Node? && |t.kids| == |s.kids|
    requires Proper(g) && Linked(g) && g.all <= s.kids[i].all + more
    requires inner <= s.kids[i].all && more * s.all <= inner
    requires s.cell.children == Roots(s.kids[i := g]) && !s.cell.isLeaf
    requires s.cell.dir == t.dir && s.cell.at == t.at && s.cell.size == t.size
    requires forall j :: 0 <= j < |s.kids| && j != i ==>
      Proper(s.kids[j]) && s.kids[j].cell.parent == s.cell && Linked(s.kids[j]) && Abs(s.kids[j]) == t.kids[j]
    requires g.cell.parent == s.cell
    ensures var r := Shape(s.cell, s.kids[i := g], s.all + more);
      Proper(r) && Linked(r) && Abs(r) == WithKid(t, i, Abs(g))
  {
    var r := Shape(s.cell, s.kids[i := g], s.all + more);
    GraftProper(s, i, g, inner, more);
    AbsNode(r);
    assert AbsOf(r.kids, Below(r)) == t.kids[i := Abs(g)];
  }

  lemma {:induction false} GraftProper(s: Shape, i: nat, g: Shape, inner: set<LayoutCell>, more: set<LayoutCell>)
    requires Proper(s) && i < |s.kids|
    requires Proper(g) && g.all <= s.kids[i].all + more
    requires inner <= s.kids[i].all && more * s.all <= inner
    ensures Proper(Shape(s.cell, s.kids[i := g], s.all + more))
  {
    var r := Shape(s.cell, s.kids[i := g], s.all + more);
    forall j | 0 <= j < |s.kids| && j != i ensures g.all !! s.kids[j].all {
      assert s.kids[j].all <= s.all;
      assert s.kids[i].all !! s.kids[j].all;
    }
    assert g.cell in g.all;
  }

  // ----- paths through the parent -----

  /** The path to a cell's parent, and the cell's index there. */
  function Parent(path: Path): Path
    requires path != []
  {
    path[..|path| - 1]
  }

  function Last(path: Path): nat
    requires path != []
  {
    path[|path| - 1]
  }

  lemma {:induction false} ShapeThroughParent(s: Shape, path: Path)
    requires HasShape(s, path) && path != []
    ensures HasShape(s, Parent(path)) && Last(path) < |ShapeAt(s, Parent(path)).kids|
    ensures ShapeAt(s, path) == ShapeAt(s, Parent(path)).kids[Last(path)]
    decreases |path|
  {
    if |path| == 1 {
      assert path[1..] == [];
    } else {
      ShapeThroughParent(s.kids[path[0]], path[1..]);
      assert Parent(path)[1..] == Parent(path[1..]);
    }
  }

  lemma {:induction false} TreeThroughParent(t: Tree, path: Path)
    requires HasPath(t, path) && path != []
    ensures HasPath(t, Parent(path)) && At(t, Parent(path)).Node? && Last(path) < |At(t, Parent(path)).kids|
    ensures At(t, path) == At(t, Parent(path)).kids[Last(path)]
    decreases |path|
  {
    if |path| == 1 {
      assert path[1..] == [];
    } else {
      TreeThroughParent(t.kids[path[0]], path[1..]);
      assert Parent(path)[1..] == Parent(path[1..]);
    }
  }

  lemma {:induction false} ReplaceThroughParent(t: Tree, path: Path, sub: Tree)
    requires HasPath(t, path) && path != []
    ensures HasPath(t, Parent(path)) && At(t, Parent(path)).Node? && Last(path) < |At(t, Parent(path)).kids|
    ensures Replace(t, path, sub) == Replace(t, Parent(path), WithKid(At(t, Parent(path)), Last(path), sub))
    decreases |path|
  {
    TreeThroughParent(t, path);
    if |path| == 1 {
      assert path[1..] == [];
    } else {
      ReplaceThroughParent(t.kids[path[0]], path[1..], sub);
      assert Parent(path)[1..] == Parent(path[1..]);
    }
  }

  /** A split rebuilds either the parent (same direction) or the leaf itself. */
  lemma {:induction false} SplitIsLocal(t: Tree, path: Path, dir: Dir, pane: Option<nat>, first: bool)
    requires HasPath(t, path)
    ensures !CanSplit(At(t, path), dir) ==> Split(t, path, dir, pane, first).None?
    ensures path != [] ==>
      HasPath(t, Parent(path)) && At(t, Parent(path)).Node? && Last(path) < |At(t, Parent(path)).kids|
    ensures CanSplit(At(t, path), dir) && path != [] && At(t, Parent(path)).dir == dir ==>
      Split(t, path, dir, pane, first)
      == Some(Replace(t, Parent(path), InsertSibling(At(t, Parent(path)), Last(path), pane, first)))
    ensures CanSplit(At(t, path), dir) && (path == [] || At(t, Parent(path)).dir != dir) ==>
      Split(t, path, dir, pane, first) == Some(Replace(t, path, SplitLeaf(At(t, path), dir, pane, first)))
    decreases |path|
  {
    hide InsertSibling;
    hide SplitLeaf;
    hide CanSplit;
    if path != [] {
      TreeThroughParent(t, path);
      SplitIsLocal(t.kids[path[0]], path[1..], dir, pane, first);
      if |path| == 1 {
        assert path[1..] == [] && Parent(path) == [];
      } else {
        assert Parent(path)[1..] == Parent(path[1..]);
      }
    }
  }

  /** A close rebuilds the parent. */
  lemma {:induction false} CloseIsLocal(t: Tree, path: Path)
    requires HasPath(t, path) && path != []
    ensures HasPath(t, Parent(path)) && At(t, Parent(path)).Node? && Last(path) < |At(t, Parent(path)).kids|
    ensures LayoutEdit.Close(t, path) == Some(Replace(t, Parent(path), DropKid(At(t, Parent(path)), Last(path))))
    decreases |path|
  {
    hide DropKid;
    TreeThroughParent(t, path);
    if |path| == 1 {
      assert Parent(path) == [];
    } else {
      CloseIsLocal(t.kids[path[0]], path[1..]);
      assert Parent(path)[1..] == Parent(path[1..]);
    }
  }

  // ----- splitting -----

  /** A leaf cell standing alone. */
  ghost function Single(c: LayoutCell): Shape {
    Shape(c, [], {c})
  }

  lemma {:induction false} SingleShape(c: LayoutCell)
    requires c.isLeaf && c.children == []
    ensures Proper(Single(c)) && Linked(Single(c)) && Abs(Single(c)) == Leaf(c.pane, c.at, c.size)
  {
    assert Roots([]) == [];
  }

  /** A node put together from sibling subtrees. */
  lemma {:induction false} JoinShape(s: Shape)
    requires Family(s.kids, s.all - {s.cell}) && s.cell in s.all
    requires AllLinked(s.kids, s.all - {s.cell})
    requires s.cell.children == Roots(s.kids) && !s.cell.isLeaf
    requires forall i :: 0 <= i < |s.kids| ==> s.kids[i].cell.parent == s.cell
    ensures Proper(s) && Linked(s)
    ensures Abs(s) == Node(s.cell.dir, AbsOf(s.kids, s.all - {s.cell}), s.cell.at, s.cell.size)
  {
  }

  lemma {:induction false} PairShape(c: LayoutCell, a: LayoutCell, b: LayoutCell)
    requires c != a && c != b && a != b && !c.isLeaf && c.children == [a, b]
    requires a.isLeaf && a.children == [] && a.parent == c && b.isLeaf && b.children == [] && b.parent == c
    ensures var s := Shape(c, [Single(a), Single(b)], {c, a, b});
      && Proper(s) && Linked(s)
      && Abs(s) == Node(c.dir, [Leaf(a.pane, a.at, a.size), Leaf(b.pane, b.at, b.size)], c.at, c.size)
  {
    hide Proper;
    hide Linked;
    hide Abs;
    hide AbsOf;
    var s := Shape(c, [Single(a), Single(b)], {c, a, b});
    SingleShape(a);
    SingleShape(b);
    assert c.children == Roots(s.kids);
    FamilyAt(s.kids, s.all - {c});
    JoinShape(s);
    assert AbsOf(s.kids, s.all - {c}) == [Abs(Single(a)), Abs(Single(b))];
  }

  /** Turns a leaf into a node of two halves. */
  method SplitHere(c: LayoutCell, ghost s: Shape, dir: Dir, pane: Option<nat>, first: bool)
    returns (leaf: LayoutCell, ghost sub: Shape)
    requires Proper(s) && s.cell == c && Linked(s) && c.isLeaf
    modifies c
    ensures Proper(sub) && Linked(sub) && sub.cell == c && fresh(sub.all - {c}) && c in sub.all
    ensures c.parent == old(c.parent)
    ensures Abs(sub) == SplitLeaf(old(Abs(s)), dir, pane, first)
    ensures leaf.isLeaf && leaf.pane == pane && leaf in sub.all && leaf.parent == c
    ensures |sub.kids| == 2 && sub.kids[if first then 0 else 1].cell == leaf
  {
    hide Proper;
    hide Linked;
    hide Abs;
    AbsLeaf(s);
    OpenShape(s);
    var room, across := On(c.size, dir), On(c.size, Cross(dir));
    var size2 := Quot(room - 1, 2);
    var size1 := room - 1 - size2;
    var second := Along(dir, On(c.at, dir) + size1 + 1, On(c.at, Cross(dir)));
    var a := new LayoutCell.Leaf(if first then pane else c.pane, c.at, Along(dir, size1, across));
    var b := new LayoutCell.Leaf(if first then c.pane else pane, second, Along(dir, size2, across));
    c.isLeaf, c.pane, c.dir := false, None, dir;
    a.parent, b.parent := c, c;
    c.children := [a, b];
    leaf := if first then a else b;
    sub := Shape(c, [Single(a), Single(b)], {c, a, b});
    PairShape(c, a, b);
  }

  /** The shape of a node with a leaf inserted among its children. */
  ghost function Inserted(s: Shape, k: nat, leaf: LayoutCell): Shape
    requires k <= |s.kids|
  {
    Shape(s.cell, s.kids[..k] + [Single(leaf)] + s.kids[k..], s.all + {leaf})
  }

  /** Links a new leaf into a node's children. */
  method LinkChild(p: LayoutCell, ghost s: Shape, k: nat, pane: Option<nat>) returns (leaf: LayoutCell)
    requires Proper(s) && s.cell == p && Linked(s) && !p.isLeaf && k <= |s.kids|
    modifies p`children
    ensures fresh(leaf) && leaf.isLeaf && leaf.pane == pane && leaf.parent == p
    ensures Proper(Inserted(s, k, leaf)) && Linked(Inserted(s, k, leaf))
    ensures old(Abs(s)).Node? && |old(Abs(s)).kids| == |s.kids|
    ensures Abs(Inserted(s, k, leaf))
            == Node(p.dir, InsertKid(old(Abs(s)).kids, k, pane), p.at, p.size)
  {
    hide Proper;
    hide Linked;
    hide Abs;
    hide AbsOf;
    AbsNode(s);
    OpenShape(s);
    FamilyAt(s.kids, Below(s));
    leaf := new LayoutCell.Leaf(pane, Vec(0, 0), Vec(0, 0));
    leaf.parent := p;
    p.children := p.children[..k] + [leaf] + p.children[k..];
    InsertedShape(s, k, leaf);
  }

  lemma {:induction false} InsertedShape(s: Shape, k: nat, leaf: LayoutCell)
    requires Proper(s) && k <= |s.kids| && leaf !in s.all && Family(s.kids, Below(s)) && AllLinked(s.kids, Below(s))
    requires s.cell in s.all && !s.cell.isLeaf && s.cell.children == Roots(s.kids)[..k] + [leaf] + Roots(s.kids)[k..]
    requires leaf.isLeaf && leaf.children == [] && leaf.parent == s.cell
    requires forall i :: 0 <= i < |s.kids| ==> s.kids[i].cell.parent == s.cell
    ensures Proper(Inserted(s, k, leaf)) && Linked(Inserted(s, k, leaf))
    ensures var ks := AbsOf(s.kids, Below(s));
      Abs(Inserted(s, k, leaf))
      == Node(s.cell.dir, ks[..k] + [Leaf(leaf.pane, leaf.at, leaf.size)] + ks[k..], s.cell.at, s.cell.size)
  {
    hide Proper;
    hide Linked;
    hide Abs;
    hide AbsOf;
    var r := Inserted(s, k, leaf);
    FamilyAt(s.kids, Below(s));
    InsertedFamily(s, k, leaf);
    SingleShape(leaf);
    assert s.cell.children == Roots(r.kids);
    JoinShape(r);
    FamilyAt(r.kids, Below(r));
    var ks := AbsOf(s.kids, Below(s));
    assert AbsOf(r.kids, Below(r)) == ks[..k] + [Abs(Single(leaf))] + ks[k..];
  }

  lemma {:induction false} InsertedFamily(s: Shape, k: nat, leaf: LayoutCell)
    requires Proper(s) && k <= |s.kids| && leaf !in s.all && Family(s.kids, Below(s))
    requires AllLinked(s.kids, Below(s)) && leaf.isLeaf && leaf.children == []
    ensures Family(Inserted(s, k, leaf).kids, Below(Inserted(s, k, leaf)))
    ensures AllLinked(Inserted(s, k, leaf).kids, Below(Inserted(s, k, leaf)))
  {
    hide Linked;
    SingleShape(leaf);
    InsertedProper(s, k, leaf);
    var r := Inserted(s, k, leaf);
    forall j | 0 <= j < |r.kids| ensures Linked(r.kids[j]) {
      if j != k {
        assert r.kids[j] == s.kids[if j < k then j else j - 1];
      }
    }
  }

  lemma {:induction false} InsertedProper(s: Shape, k: nat, leaf: LayoutCell)
    requires Proper(s) && k <= |s.kids| && leaf !in s.all
    ensures Proper(Inserted(s, k, leaf))
  {
    var r := Inserted(s, k, leaf);
    assert Proper(Single(leaf));
    forall i, j | 0 <= i < j < |r.kids| ensures r.kids[i].all !! r.kids[j].all {
      if i != k && j != k {
        assert s.kids[if i < k then i else i - 1].all !! s.kids[if j < k then j else j - 1].all;
      }
    }
  }

  lemma {:induction false} DistinctCells(s: Shape)
    requires Proper(s)
    ensures forall i, j :: 0 <= i < j < |s.kids| ==> s.kids[i].cell != s.kids[j].cell
  {
    forall i, j | 0 <= i < j < |s.kids| ensures s.kids[i].cell != s.kids[j].cell {
      assert s.kids[i].all !! s.kids[j].all;
    }
  }

  /** Position of a cell in its parent's children, -1 without a parent. */
  method IndexInParent(c: LayoutCell, ghost s: Shape, ghost i: nat) returns (index: int)
    requires c.parent != null ==> Proper(s) && s.cell.children == Roots(s.kids) && i < |s.kids|
    requires c.parent != null ==> s.kids[i].cell == c && c.parent == s.cell
    ensures index == if c.parent == null then -1 else i
  {
    hide Proper;
    if c.parent == null {
      return -1;
    }
    DistinctCells(s);
    index := 0;
    var p := c.parent;
    while index < |p.children| && p.children[index] != c
      invariant 0 <= index <= i
    {
      index := index + 1;
    }
  }

  /** Adds a leaf beside child i of a node and shares the space equally. */
  method InsertBeside(p: LayoutCell, ghost s: Shape, i: nat, pane: Option<nat>, first: bool)
    returns (leaf: LayoutCell, ghost sub: Shape)
    requires Proper(s) && s.cell == p && Linked(s) && !p.isLeaf && i < |s.kids|
    modifies s.all
    ensures fresh(leaf) && leaf.isLeaf && leaf.pane == pane && leaf.parent == p && leaf in sub.all
    ensures Proper(sub) && Linked(sub) && sub.cell == p && sub.all == s.all + {leaf}
    ensures p.parent == old(p.parent)
    ensures old(Abs(s)).Node? && i < |old(Abs(s)).kids|
    ensures Abs(sub) == InsertSibling(old(Abs(s)), i, pane, first)
    ensures |sub.kids| == |s.kids| + 1 && sub.kids[if first then i else i + 1].cell == leaf
  {
    hide Proper;
    hide Linked;
    hide Abs;
    hide LayoutEdit.EqualizeChildren;
    hide InsertKid;
    OpenShape(s);
    AbsNode(s);
    FamilyAt(s.kids, Below(s));
    var k := if first then i else i + 1;
    leaf := LinkChild(p, s, k, pane);
    sub := Inserted(s, k, leaf);
    EqualizeChildren(p, sub);
  }

  /** The window's layout as the edit methods see it: a parentless root, and a path to the cell at hand. */
  ghost predicate Rooted(root: Shape)
    reads root.all
  {
    Proper(root) && Linked(root) && root.cell in root.all && root.cell.parent == null
  }

  ghost predicate Addresses(root: Shape, path: Path, c: LayoutCell)
    reads root.all
  {
    Rooted(root) && HasShape(root, path) && ShapeAt(root, path).cell == c && HasPath(Abs(root), path)
  }

  lemma {:induction false} AddressesParent(root: Shape, path: Path, c: LayoutCell)
    requires Addresses(root, path, c)
    ensures Proper(ShapeAt(root, path)) && Linked(ShapeAt(root, path)) && ShapeAt(root, path).all <= root.all
    ensures Abs(ShapeAt(root, path)) == At(Abs(root), path) && c in ShapeAt(root, path).all
    ensures path == [] ==> c.parent == null
    ensures path != [] ==>
      && HasShape(root, Parent(path)) && HasPath(Abs(root), Parent(path))
      && var p := ShapeAt(root, Parent(path));
         && Addresses(root, Parent(path), p.cell) && c.parent == p.cell && Last(path) < |p.kids|
         && p.kids[Last(path)].cell == c && !p.cell.isLeaf
  {
    AddressesAgree(root, path);
    OpenShape(ShapeAt(root, path));
    if path != [] {
      ShapeThroughParent(root, path);
      AddressesAgree(root, Parent(path));
      OpenShape(ShapeAt(root, Parent(path)));
      TreeThroughParent(Abs(root), path);
    }
  }

  lemma {:induction false} RootOutside(root: Shape, path: Path)
    requires Proper(root) && HasShape(root, path) && path != []
    ensures root.cell !in ShapeAt(root, path).all
  {
    KidShape(root, path);
  }

  /** The whole tree once a subtree is rebuilt: rooted as before, with child k of the subtree in its place. */
  lemma {:induction false} GraftRooted(root: Shape, path: Path, t: Tree, sub: Shape, k: nat)
    requires Proper(root) && HasShape(root, path) && Around(root, path, t)
    requires Proper(sub) && Linked(sub) && sub.cell == ShapeAt(root, path).cell
    requires sub.all * root.all <= ShapeAt(root, path).all
    requires root.cell.parent == null && k < |sub.kids|
    ensures var root' := Graft(root, path, sub);
      && Rooted(root') && root'.cell == root.cell && root'.all <= root.all + sub.all
      && HasPath(t, path) && Abs(root') == Replace(t, path, Abs(sub))
      && StandsAt(root', path + [k], sub.kids[k].cell)
  {
    hide Proper;
    hide Linked;
    hide Abs;
    hide Around;
    hide Graft;
    hide Replace;
    hide ShapeAt;
    hide HasShape;
    hide HasPath;
    GraftKeeps(root, path, t, sub);
    RootedShape(Graft(root, path, sub));
    ChildAt(sub, k);
    GraftAt(root, path, sub, [k]);
  }

  /** Where the new pane of a split ends up: beside its target in the parent, or below the target itself. */
  function NewPath(path: Path, sibling: bool, first: bool): Path
    requires sibling ==> path != []
  {
    if sibling then Parent(path) + [if first then Last(path) else Last(path) + 1]
    else path + [if first then 0 else 1]
  }

  /** The cell found at a path of the tree. */
  ghost predicate StandsAt(root: Shape, path: Path, c: LayoutCell) {
    HasShape(root, path) && ShapeAt(root, path).cell == c
  }

  method SplitAsSibling(c: LayoutCell, dir: Dir, pane: Option<nat>, first: bool, ghost root: Shape, ghost path: Path)
    returns (leaf: LayoutCell, ghost root': Shape)
    requires Addresses(root, path, c) && CanSplit(At(Abs(root), path), dir)
    requires c.parent != null && c.parent.dir == dir
    modifies root.all
    ensures Rooted(root') && root'.cell == root.cell && fresh(root'.all - root.all)
    ensures Some(Abs(root')) == Split(old(Abs(root)), path, dir, pane, first)
    ensures fresh(leaf) && leaf.isLeaf && leaf.pane == pane
    ensures path != [] && StandsAt(root', NewPath(path, true, first), leaf)
  {
    hide Proper;
    hide Linked;
    hide Abs;
    hide Split;
    hide CanSplit;
    hide InsertSibling;
    hide Around;
    hide Graft;
    hide Replace;
    hide ShapeAt;
    hide HasShape;
    hide HasPath;
    hide At;
    RootAt(root);
    AddressesParent(root, path, c);
    var p := c.parent;
    ghost var t, up := Abs(root), Parent(path);
    ghost var s := ShapeAt(root, up);
    AddressesParent(root, up, p);
    AbsNode(s);
    SplitIsLocal(t, path, dir, pane, first);
    LinkedAround(root, up);
    if up != [] {
      RootOutside(root, up);
    }
    OpenShape(s);
    var index := IndexInParent(c, s, Last(path));
    assert index == Last(path);
    ghost var sub;
    leaf, sub := InsertBeside(p, s, index, pane, first);
    root' := Graft(root, up, sub);
    GraftRooted(root, up, t, sub, if first then index else index + 1);
  }

  lemma RootedShape(root: Shape)
    requires Proper(root) && Linked(root)
    ensures root.cell in root.all
  {
  }

  method SplitInside(c: LayoutCell, dir: Dir, pane: Option<nat>, first: bool, ghost root: Shape, ghost path: Path)
    returns (leaf: LayoutCell, ghost root': Shape)
    requires Addresses(root, path, c) && CanSplit(At(Abs(root), path), dir)
    requires c.parent == null || c.parent.dir != dir
    modifies root.all
    ensures Rooted(root') && root'.cell == root.cell && fresh(root'.all - root.all)
    ensures Some(Abs(root')) == Split(old(Abs(root)), path, dir, pane, first)
    ensures fresh(leaf) && leaf.isLeaf && leaf.pane == pane
    ensures StandsAt(root', NewPath(path, false, first), leaf)
  {
    hide Proper;
    hide Linked;
    hide Abs;
    hide Split;
    hide SplitLeaf;
    hide Around;
    hide Graft;
    hide Replace;
    hide ShapeAt;
    hide HasShape;
    hide HasPath;
    hide At;
    RootAt(root);
    AddressesParent(root, path, c);
    ghost var t := Abs(root);
    ghost var s := ShapeAt(root, path);
    AbsHead(s);
    if path != [] {
      AddressesParent(root, Parent(path), c.parent);
      AbsNode(ShapeAt(root, Parent(path)));
      RootOutside(root, path);
    }
    SplitIsLocal(t, path, dir, pane, first);
    LinkedAround(root, path);
    ghost var sub;
    leaf, sub := SplitHere(c, s, dir, pane, first);
    root' := Graft(root, path, sub);
    GraftRooted(root, path, t, sub, if first then 0 else 1);
  }

  /**
   * Splits a leaf in place. The whole tree ends up linked, with every parent
   * pointer right, and its value is the split of the old value; the cell
   * returned stands beside the target. A refused split changes nothing.
   */
  method SplitWithOrder(c: LayoutCell, dir: Dir, pane: Option<nat>, first: bool, ghost root: Shape, ghost path: Path)
    returns (leaf: LayoutCell?, ghost root': Shape)
    requires Addresses(root, path, c)
    modifies root.all
    ensures leaf == null <==> Split(old(Abs(root)), path, dir, pane, first).None?
    ensures leaf == null ==> root' == root && Rooted(root) && Abs(root) == old(Abs(root))
    ensures leaf != null ==>
      && Rooted(root') && root'.cell == root.cell && fresh(root'.all - root.all)
      && Some(Abs(root')) == Split(old(Abs(root)), path, dir, pane, first)
      && fresh(leaf) && leaf.isLeaf && leaf.pane == pane
      && var sibling := old(c.parent != null && c.parent.dir == dir);
         (sibling ==> path != []) && StandsAt(root', NewPath(path, sibling, first), leaf)
  {
    hide Proper;
    hide Linked;
    hide Abs;
    hide Split;
    hide SplitLeaf;
    hide InsertSibling;
    AddressesParent(root, path, c);
    ghost var t := Abs(root);
    ghost var s := ShapeAt(root, path);
    SplitIsLocal(t, path, dir, pane, first);
    AbsHead(s);
    if !c.isLeaf || On(c.size, dir) < 2 * PANE_MIN_SIZE + 1 {
      return null, root;
    }
    if c.parent != null && c.parent.dir == dir {
      leaf, root' := SplitAsSibling(c, dir, pane, first, root, path);
    } else {
      leaf, root' := SplitInside(c, dir, pane, first, root, path);
    }
  }

  // ----- closing -----

  ghost function Removed(s: Shape, i: nat): Shape
    requires i < |s.kids|
  {
    Shape(s.cell, s.kids[..i] + s.kids[i + 1..], s.all)
  }

  /** Unlinks child i of a node and shares its space among the rest. */
  method DropChild(p: LayoutCell, ghost s: Shape, i: nat) returns (ghost rest: Shape)
    requires Proper(s) && s.cell == p && Linked(s) && !p.isLeaf && i < |s.kids|
    modifies s.all
    ensures rest == Removed(s, i) && Proper(rest) && Linked(rest) && rest.cell == p && rest.all == s.all
    ensures p.parent == old(p.parent) && p.at == old(p.at) && p.size == old(p.size) && p.isLeaf == old(p.isLeaf)
    ensures old(Abs(s)).Node? && i < |old(Abs(s)).kids|
    ensures Abs(rest) == var t := old(Abs(s));
      LayoutEdit.EqualizeChildren(Node(t.dir, RemoveKid(t.kids, i), t.at, t.size))
  {
    hide Proper;
    hide Linked;
    hide Abs;
    hide AbsOf;
    hide LayoutEdit.EqualizeChildren;
    OpenShape(s);
    AbsNode(s);
    FamilyAt(s.kids, Below(s));
    p.children := p.children[..i] + p.children[i + 1..];
    rest := Removed(s, i);
    RemovedShape(s, i);
    EqualizeChildren(p, rest);
  }

  lemma {:induction false} RemovedShape(s: Shape, i: nat)
    requires Proper(s) && s.cell in s.all && i < |s.kids|
    requires Family(s.kids, Below(s)) && AllLinked(s.kids, Below(s))
    requires !s.cell.isLeaf && s.cell.children == Roots(s.kids)[..i] + Roots(s.kids)[i + 1..]
    requires forall j :: 0 <= j < |s.kids| ==> s.kids[j].cell.parent == s.cell
    ensures Proper(Removed(s, i)) && Linked(Removed(s, i))
    ensures Abs(Removed(s, i))
            == Node(s.cell.dir, RemoveKid(AbsOf(s.kids, Below(s)), i), s.cell.at, s.cell.size)
  {
    hide Proper;
    hide Linked;
    hide Abs;
    hide AbsOf;
    var r := Removed(s, i);
    FamilyAt(s.kids, Below(s));
    RemovedFamily(s, i);
    assert s.cell.children == Roots(r.kids);
    JoinShape(r);
    FamilyAt(r.kids, Below(r));
    assert AbsOf(r.kids, Below(r)) == RemoveKid(AbsOf(s.kids, Below(s)), i);
  }

  lemma {:induction false} RemovedFamily(s: Shape, i: nat)
    requires i < |s.kids| && Family(s.kids, Below(s)) && AllLinked(s.kids, Below(s))
    ensures Family(Removed(s, i).kids, Below(s)) && AllLinked(Removed(s, i).kids, Below(s))
  {
    hide Linked;
    hide Proper;
    var r := Removed(s, i);
    assert forall j :: 0 <= j < |r.kids| ==> r.kids[j] == s.kids[if j < i then j else j + 1];
  }

  /** Puts an only child in its parent's place. */
  method TakePlace(only: LayoutCell, ghost k: Shape, up: LayoutCell?, at: Vec, size: Vec)
    requires Proper(k) && Linked(k) && k.cell == only
    modifies only`parent, only`at, only`size
    ensures only.parent == up && Linked(k) && Abs(k) == Moved(old(Abs(k)), at, size)
  {
    hide Proper;
    hide Linked;
    hide Abs;
    hide AbsOf;
    OpenShape(k);
    if only.isLeaf {
      AbsLeaf(k);
    } else {
      AbsNode(k);
    }
    only.parent, only.at, only.size := up, at, size;
    KidsUnchanged(k);
    if only.isLeaf {
      AbsLeaf(k);
    } else {
      AbsNode(k);
    }
  }

  /** What surrounds the hole at child i of a node. */
  ghost predicate Ring(s: Shape, i: nat, t: Tree)
    requires Proper(s) && i < |s.kids|
    reads s.all
  {
    && t.Node? && |t.kids| == |s.kids| && !s.cell.isLeaf && s.cell.children == Roots(s.kids)
    && s.cell.dir == t.dir && s.cell.at == t.at && s.cell.size == t.size
    && (forall j :: 0 <= j < |s.kids| && j != i ==>
          s.kids[j].cell.parent == s.cell && Linked(s.kids[j]) && Abs(s.kids[j]) == t.kids[j])
    && s.kids[i].cell.parent == s.cell
  }

  lemma {:induction false} AroundParent(s: Shape, path: Path, t: Tree)
    requires Proper(s) && HasShape(s, path) && path != [] && Around(s, path, t)
    ensures HasShape(s, Parent(path)) && Around(s, Parent(path), t) && HasPath(t, Parent(path))
    ensures var p := ShapeAt(s, Parent(path));
      && Proper(p) && p.all <= s.all && Last(path) < |p.kids| && p.kids[Last(path)] == ShapeAt(s, path)
      && Ring(p, Last(path), At(t, Parent(path)))
    decreases |path|
  {
    KidShape(s, path);
    if |path| == 1 {
      assert path[1..] == [] && Parent(path) == [];
    } else {
      AroundParent(s.kids[path[0]], path[1..], t.kids[path[0]]);
      assert Parent(path)[1..] == Parent(path[1..]);
    }
  }

  /** Who takes over from child i: the next sibling, else the last one left. */
  function Recipient(siblings: seq<LayoutCell>, i: nat): LayoutCell? {
    if i >= |siblings| then null
    else
      var rest := siblings[..i] + siblings[i + 1..];
      if rest == [] then null else if i < |rest| then rest[i] else rest[|rest| - 1]
  }

  /** Where it ends up: in the parent, or in the parent's place if it is the only one left. */
  function HeirPath(path: Path, siblings: nat): Path
    requires path != [] && siblings >= 2
  {
    if siblings == 2 then Parent(path)
    else Parent(path) + [if Last(path) < siblings - 1 then Last(path) else siblings - 2]
  }

  ghost function HeirIndex(rest: seq<Shape>, i: nat): nat
    requires rest != []
  {
    if i < |rest| then i else |rest| - 1
  }

  ghost function Heir(rest: seq<Shape>, i: nat): LayoutCell? {
    if rest == [] then null else rest[HeirIndex(rest, i)].cell
  }

  /** The heir among the cells left of a node, and its place. */
  lemma {:induction false} HeirIs(s: Shape, path: Path)
    requires path != [] && Last(path) < |s.kids|
    ensures var rest, i := Removed(s, Last(path)).kids, Last(path);
      && |rest| == |s.kids| - 1
      && Recipient(Roots(s.kids), i) == Heir(rest, i)
      && (rest != [] ==>
            HeirPath(path, |s.kids|) == if |rest| == 1 then Parent(path) else Parent(path) + [HeirIndex(rest, i)])
  {
    var i := Last(path);
    assert Roots(s.kids)[..i] + Roots(s.kids)[i + 1..] == Roots(Removed(s, i).kids);
  }

  /**
   * Closes a cell in place: its space goes to its siblings, and a parent left
   * with one child is replaced by that child, up to becoming the new root.
   * The whole tree ends up linked and its value is the close of the old value;
   * the cell returned is the next sibling, else the last one left.
   */
  method Close(c: LayoutCell, ghost root: Shape, ghost path: Path) returns (result: LayoutCell?, ghost root': Shape)
    requires Addresses(root, path, c)
    modifies root.all
    ensures path == [] ==> result == null && root' == root && Rooted(root) && Abs(root) == old(Abs(root))
    ensures path != [] ==> Rooted(root') && root'.all <= root.all
    ensures path != [] ==> Some(Abs(root')) == LayoutEdit.Close(old(Abs(root)), path)
    ensures path != [] ==> old(c.parent) != null
    ensures path != [] ==> result == Recipient(old(if c.parent == null then [] else c.parent.children), Last(path))
    ensures path != [] && result != null ==>
      var siblings := |old(if c.parent == null then [] else c.parent.children)|;
      siblings >= 2 && StandsAt(root', HeirPath(path, siblings), result)
    ensures root'.cell != root.cell ==> result == root'.cell
    ensures result != null && result.parent == null ==> result == root'.cell
  {
    hide Proper;
    hide Linked;
    hide Abs;
    hide LayoutEdit.Close;
    hide LayoutEdit.EqualizeChildren;
    hide Around;
    hide Graft;
    hide Replace;
    hide RemoveKid;
    hide Recipient;
    hide HeirPath;
    hide Removed;
    hide ShapeAt;
    hide HasShape;
    AddressesParent(root, path, c);
    if c.parent == null {
      return null, root;
    }
    var p := c.parent;
    ghost var t, up := Abs(root), Parent(path);
    ghost var s := ShapeAt(root, up);
    AddressesParent(root, up, p);
    AbsNode(s);
    OpenShape(s);
    CloseIsLocal(t, path);
    LinkedAround(root, up);
    if up != [] {
      RootOutside(root, up);
    }
    RootAt(root);
    HeirIs(s, path);
    var index := IndexInParent(c, s, Last(path));
    ghost var rest := DropChild(p, s, index);
    result, root' := SettleClose(p, index, rest, At(t, up), Last(path), root, up, t);
  }

  /** After the unlinking: collapse an only child, or put the rebuilt parent back. */
  method SettleClose(p: LayoutCell, index: nat, ghost rest: Shape, ghost was: Tree, ghost i: nat,
                     ghost root: Shape, ghost up: Path, ghost t: Tree) returns (result: LayoutCell?, ghost root': Shape)
    requires Proper(root) && HasShape(root, up) && Around(root, up, t) && HasPath(t, up)
    requires Proper(rest) && Linked(rest) && rest.cell == p && rest.all == ShapeAt(root, up).all && !p.isLeaf
    requires ShapeAt(root, up).cell == p && p in root.all && ShapeAt(root, up).all <= root.all
    requires was.Node? && i < |was.kids| && p.at == was.at && p.size == was.size
    requires Abs(rest) == LayoutEdit.EqualizeChildren(Node(was.dir, RemoveKid(was.kids, i), was.at, was.size))
    requires root.cell.parent == null && root.cell in root.all
    modifies root.all
    ensures Rooted(root') && root'.all <= root.all
    ensures Abs(root') == Replace(t, up, DropKid(was, i))
    ensures result == Heir(rest.kids, index)
    ensures rest.kids != [] ==>
      StandsAt(root', if |rest.kids| == 1 then up else up + [HeirIndex(rest.kids, index)], result)
    ensures root'.cell != root.cell ==> result == root'.cell
    ensures result != null && result.parent == null ==> result == root'.cell
  {
    hide Proper;
    hide Linked;
    hide Abs;
    hide LayoutEdit.EqualizeChildren;
    hide Around;
    hide Graft;
    hide Replace;
    hide RemoveKid;
    OpenShape(rest);
    AbsNode(rest);
    FamilyAt(rest.kids, Below(rest));
    if |p.children| == 1 {
      root' := Collapse(p, rest, DropKid(was, i), root, up, t);
      result := p.children[0];
    } else {
      result := if index < |p.children| then p.children[index]
                else if |p.children| > 0 then p.children[|p.children| - 1] else null;
      root' := Graft(root, up, rest);
      GraftKeeps(root, up, t, rest);
      RootedShape(root');
      if rest.kids != [] {
        ghost var k := HeirIndex(rest.kids, index);
        ChildAt(rest, k);
        GraftAt(root, up, rest, [k]);
      }
    }
  }

  /** Replaces a parent that has one child left by that child. */
  method Collapse(p: LayoutCell, ghost rest: Shape, ghost goal: Tree, ghost root: Shape, ghost up: Path, ghost t: Tree)
    returns (ghost root': Shape)
    requires Proper(root) && HasShape(root, up) && Around(root, up, t) && HasPath(t, up)
    requires Proper(rest) && Linked(rest) && rest.cell == p && rest.all == ShapeAt(root, up).all && !p.isLeaf
    requires ShapeAt(root, up).cell == p && p in root.all
    requires |rest.kids| == 1 && Abs(rest).Node? && |Abs(rest).kids| == 1
    requires goal == Moved(Abs(rest).kids[0], p.at, p.size)
    requires root.cell.parent == null && root.cell in root.all
    modifies root.all
    ensures Rooted(root') && root'.all <= root.all
    ensures Abs(root') == Replace(t, up, goal)
    ensures p.children == old(p.children) && |p.children| == 1
    ensures StandsAt(root', up, p.children[0])
    ensures up == [] ==> root'.cell == p.children[0]
    ensures up != [] ==> root'.cell == root.cell && p.children[0].parent != null
  {
    hide Proper;
    hide Linked;
    hide Abs;
    hide Around;
    hide Graft;
    hide Replace;
    OpenShape(rest);
    AbsNode(rest);
    FamilyAt(rest.kids, Below(rest));
    var only := p.children[0];
    ghost var k := rest.kids[0];
    var above := p.parent;
    if above == null {
      HoleParent(root, up, t);
      TakePlace(only, k, null, p.at, p.size);
      root' := k;
      ReplaceHere(t, goal);
      RootedShape(k);
    } else {
      root' := Hoist(p, only, k, goal, root, up, t);
    }
  }

  lemma ReplaceHere(t: Tree, sub: Tree)
    ensures Replace(t, [], sub) == sub
  {
  }

  /** Only the root has no parent. */
  lemma {:induction false} HoleParent(root: Shape, path: Path, t: Tree)
    requires Proper(root) && HasShape(root, path) && Around(root, path, t)
    ensures path != [] ==> ShapeAt(root, path).cell.parent != null
  {
    if path != [] {
      AroundParent(root, path, t);
    }
  }

  /** Facts about the siblings of a hole, one by one. */
  lemma {:induction false} RingOthers(s: Shape, i: nat, t: Tree)
    requires Proper(s) && i < |s.kids| && Ring(s, i, t)
    ensures Family(s.kids, Below(s)) && s.cell in s.all
    ensures t.Node? && |t.kids| == |s.kids| && !s.cell.isLeaf && s.cell.children == Roots(s.kids)
    ensures s.cell.dir == t.dir && s.cell.at == t.at && s.cell.size == t.size && s.kids[i].cell.parent == s.cell
    ensures forall j :: 0 <= j < |s.kids| && j != i ==> Proper(s.kids[j]) && s.kids[j].cell.parent == s.cell
    ensures forall j :: 0 <= j < |s.kids| && j != i ==> Linked(s.kids[j])
    ensures forall j :: 0 <= j < |s.kids| && j != i ==> Abs(s.kids[j]) == t.kids[j]
  {
  }

  /** Hangs an only child in its grandparent, where its parent was. */
  method Hoist(p: LayoutCell, only: LayoutCell, ghost k: Shape, ghost goal: Tree,
               ghost root: Shape, ghost up: Path, ghost t: Tree) returns (ghost root': Shape)
    requires Proper(root) && HasShape(root, up) && Around(root, up, t) && HasPath(t, up)
    requires ShapeAt(root, up).cell == p && p.parent != null && p in root.all
    requires Proper(k) && Linked(k) && k.cell == only && only in k.all && p !in k.all
    requires k.all <= ShapeAt(root, up).all
    requires goal == Moved(Abs(k), p.at, p.size)
    requires root.cell.parent == null && root.cell in root.all
    modifies root.all
    ensures Rooted(root') && root'.all <= root.all && root'.cell == root.cell && up != []
    ensures Abs(root') == Replace(t, up, goal)
    ensures p.children == old(p.children) && only.parent == old(p.parent)
    ensures StandsAt(root', up, only)
  {
    hide Proper;
    hide Linked;
    hide Abs;
    hide AbsOf;
    hide Around;
    hide Graft;
    hide Replace;
    hide Ring;
    hide ShapeAt;
    hide HasShape;
    hide HasPath;
    hide At;
    RootAt(root);
    AroundParent(root, up, t);
    ghost var high, i := Parent(up), Last(up);
    ghost var g := ShapeAt(root, high);
    RingHead(g, i, At(t, high));
    if high != [] {
      RootOutside(root, high);
    }
    ghost var sub := HangIn(p, only, k, goal, g, i, At(t, high));
    HungIn(root, up, t, sub, goal);
    root' := Graft(root, high, sub);
  }

  /** The whole tree once the only child hangs where its parent was. */
  lemma {:induction false} HungIn(root: Shape, up: Path, t: Tree, sub: Shape, goal: Tree)
    requires up != [] && Proper(root) && HasShape(root, Parent(up)) && Around(root, Parent(up), t)
    requires HasPath(t, up) && HasPath(t, Parent(up)) && At(t, Parent(up)).Node? && Last(up) < |At(t, Parent(up)).kids|
    requires Proper(sub) && Linked(sub) && sub.cell == ShapeAt(root, Parent(up)).cell && sub.all <= ShapeAt(root, Parent(up)).all
    requires ShapeAt(root, Parent(up)).all <= root.all
    requires Last(up) < |sub.kids| && Abs(sub) == WithKid(At(t, Parent(up)), Last(up), goal)
    requires root.cell in root.all && root.cell.parent == null
    ensures var root' := Graft(root, Parent(up), sub);
      && Rooted(root') && root'.all <= root.all && root'.cell == root.cell
      && Abs(root') == Replace(t, up, goal) && StandsAt(root', up, sub.kids[Last(up)].cell)
  {
    hide Proper;
    hide Linked;
    hide Abs;
    hide Around;
    hide Graft;
    hide Replace;
    hide ShapeAt;
    hide HasShape;
    hide HasPath;
    hide At;
    GraftRooted(root, Parent(up), t, sub, Last(up));
    ReplaceThroughParent(t, up, goal);
    assert Parent(up) + [Last(up)] == up;
  }

  lemma RingHead(s: Shape, i: nat, t: Tree)
    requires Proper(s) && i < |s.kids| && Ring(s, i, t)
    ensures s.kids[i].cell.parent == s.cell && s.cell in s.all
  {
  }

  /** Exchanges child i of a node for that child's only child, which takes its place. */
  method HangIn(p: LayoutCell, only: LayoutCell, ghost k: Shape, ghost goal: Tree, ghost g: Shape, ghost i: nat, ghost tt: Tree)
    returns (ghost sub: Shape)
    requires Proper(g) && i < |g.kids| && Ring(g, i, tt) && g.kids[i].cell == p && p.parent != null
    requires Proper(k) && Linked(k) && k.cell == only && only in k.all && p !in k.all && k.all <= g.kids[i].all
    requires goal == Moved(Abs(k), p.at, p.size)
    modifies g.all
    ensures sub == Shape(g.cell, g.kids[i := k], g.all) && Proper(sub) && Linked(sub)
    ensures tt.Node? && i < |tt.kids| && Abs(sub) == WithKid(tt, i, goal)
    ensures p.children == old(p.children) && only.parent == old(p.parent) && g.cell.parent == old(g.cell.parent)
  {
    hide Proper;
    hide Linked;
    hide Abs;
    hide AbsOf;
    hide Ring;
    RingOthers(g, i, tt);
    var above := p.parent;
    var index := IndexInParent(p, g, i);
    TakePlace(only, k, above, p.at, p.size);
    above.children := above.children[..index] + [only] + above.children[index + 1..];
    assert above.children == Roots(g.kids[i := k]);
    GraftStep(g, i, k, tt, {}, {});
    assert g.all + {} == g.all;
    sub := Shape(g.cell, g.kids[i := k], g.all);
  }
}
