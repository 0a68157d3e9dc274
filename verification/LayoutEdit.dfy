/** Splitting, closing and equalizing, and what every run of them keeps. */
module LayoutEdit {
  import opened Common
  import opened Numbers
  import opened Apportion
  import opened LayoutTree
  import opened LayoutShare

  /** A cell is addressed by the child indexes that lead to it from the root. */
  type Path = seq<nat>

  predicate HasPath(t: Tree, path: Path)
    decreases |path|
  {
    path == [] || (t.Node? && path[0] < |t.kids| && HasPath(t.kids[path[0]], path[1..]))
  }

  function At(t: Tree, path: Path): Tree
    requires HasPath(t, path)
    decreases |path|
  {
    if path == [] then t else At(t.kids[path[0]], path[1..])
  }

  function WithKid(t: Tree, i: nat, kid: Tree): Tree
    requires t.Node? && i < |t.kids|
  {
    Node(t.dir, t.kids[i := kid], t.at, t.size)
  }

  // ----- panes in tree order -----

  function Panes(t: Tree): (p: seq<Option<nat>>)
    decreases t
  {
    match t
    case Leaf(pane, _, _) => [pane]
    case Node(_, ks, _, _) => PanesOf(ks)
  }

  function PanesOf(ks: seq<Tree>): (p: seq<Option<nat>>)
    decreases ks
  {
    if ks == [] then [] else Panes(ks[0]) + PanesOf(ks[1..])
  }

  lemma {:induction false} PanesErase(t: Tree)
    ensures Panes(Erase(t)) == Panes(t)
    decreases t
  {
    if t.Node? {
      PanesOfErase(t.kids);
    }
  }

  lemma {:induction false} PanesOfErase(ks: seq<Tree>)
    ensures PanesOf(EraseAll(ks)) == PanesOf(ks)
    decreases ks
  {
    if ks != [] {
      PanesErase(ks[0]);
      PanesOfErase(ks[1..]);
      assert EraseAll(ks)[1..] == EraseAll(ks[1..]);
    }
  }

  lemma {:induction false} PanesOfConcat(a: seq<Tree>, b: seq<Tree>)
    ensures PanesOf(a + b) == PanesOf(a) + PanesOf(b)
    decreases |a|
  {
    if a == [] {
      assert a + b == b;
    } else {
      assert (a + b)[1..] == a[1..] + b;
      PanesOfConcat(a[1..], b);
    }
  }

  /** Position of the cell's first pane in the tree's pane order. */
  function PaneIndex(t: Tree, path: Path): nat
    requires HasPath(t, path)
    decreases |path|
  {
    if path == [] then 0
    else |PanesOf(t.kids[..path[0]])| + PaneIndex(t.kids[path[0]], path[1..])
  }

  /** Replacing one child replaces its stretch of the pane order. */
  lemma {:induction false} PanesOfReplace(ks: seq<Tree>, i: nat, mid: seq<Tree>)
    requires i < |ks|
    ensures PanesOf(ks) == PanesOf(ks[..i]) + Panes(ks[i]) + PanesOf(ks[i + 1..])
    ensures PanesOf(ks[..i] + mid + ks[i + 1..]) == PanesOf(ks[..i]) + PanesOf(mid) + PanesOf(ks[i + 1..])
  {
    assert ks == ks[..i] + [ks[i]] + ks[i + 1..];
    assert [ks[i]][1..] == [];
    assert PanesOf([ks[i]]) == Panes(ks[i]);
    PanesOfConcat(ks[..i] + [ks[i]], ks[i + 1..]);
    PanesOfConcat(ks[..i], [ks[i]]);
    PanesOfConcat(ks[..i] + mid, ks[i + 1..]);
    PanesOfConcat(ks[..i], mid);
  }

  // ----- equalizing -----

  /** Gives the children of a node equal sizes along its split, or leaves it alone when they cannot fit. */
  function EqualizeChildren(t: Tree): (r: Tree)
    ensures r.at == t.at && r.size == t.size && (r.Node? <==> t.Node?) && (t.Node? ==> r.dir == t.dir)
  {
    if t.Leaf? || t.kids == [] then t
    else
      var (sizes, ok) := EqualFit(MinSizes(t.kids, t.dir), Size(t, t.dir));
      if !ok then t
      else Node(t.dir, ResizeKids(t.kids, t.dir, sizes, Size(t, Cross(t.dir))), t.at, t.size)
  }

  /** The node's extent covers its children's minimums (the children themselves may be stale). */
  ghost predicate Roomy(t: Tree) {
    Grown(t) && Size(t, Vertical) >= MinSize(t, Vertical) && Size(t, Horizontal) >= MinSize(t, Horizontal)
  }

  /** The children of r are those of t, each divided in proportion within. */
  ghost predicate KidsRescaled(t: Tree, r: Tree)
    requires t.Node?
  {
    && r.Node? && |r.kids| == |t.kids|
    && forall i :: 0 <= i < |t.kids| ==>
         Rescaled(t.kids[i], r.kids[i], Vertical) && Rescaled(t.kids[i], r.kids[i], Horizontal)
  }

  /**
   * Equalizing a roomy node always succeeds and tiles it, whatever its
   * children looked like: evenly, but for what their subtrees need.
   */
  lemma {:induction false} EqualizeChildrenTiles(t: Tree)
    requires t.Node? && Roomy(t)
    ensures Sized(EqualizeChildren(t))
    ensures Erase(EqualizeChildren(t)) == Erase(t)
    ensures EqualFit(MinSizes(t.kids, t.dir), Size(t, t.dir)).1
    ensures Leveled(MinSizes(t.kids, t.dir), Sizes(EqualizeChildren(t).kids, t.dir))
    ensures KidsRescaled(t, EqualizeChildren(t))
  {
    hide EqualFit;
    hide Sized;
    hide MinSize;
    hide Leveled;
    hide Erase;
    var ms, along, across := MinSizes(t.kids, t.dir), Size(t, t.dir), Size(t, Cross(t.dir));
    var (sizes, ok) := EqualFit(ms, along);
    RoomyFits(t);
    EqualFitFills(ms, along);
    assert forall i :: 0 <= i < |ms| ==> ms[i] == MinSize(t.kids[i], t.dir);
    MinAcross(t, across);
    ResizeKidsTile(t.kids, t.dir, sizes, across);
    ResizeKidsErase(t.kids, t.dir, sizes, across);
    SizedFromKids(EqualizeChildren(t), sizes);
    SameKidsErased(t, EqualizeChildren(t));
    SameSizesAs(EqualizeChildren(t).kids, sizes, t.dir);
    forall i | 0 <= i < |t.kids|
      ensures Rescaled(t.kids[i], EqualizeChildren(t).kids[i], Vertical)
      ensures Rescaled(t.kids[i], EqualizeChildren(t).kids[i], Horizontal)
    {
      ResizeSubtreeRescales(t.kids[i], Along(t.dir, sizes[i], across), Vertical);
      ResizeSubtreeRescales(t.kids[i], Along(t.dir, sizes[i], across), Horizontal);
    }
  }

  lemma {:induction false} RoomyFits(t: Tree)
    requires t.Node? && Roomy(t)
    ensures t.kids != [] && forall i :: 0 <= i < |t.kids| ==> Grown(t.kids[i])
    ensures Sum(MinSizes(t.kids, t.dir)) + |t.kids| - 1 <= Size(t, t.dir)
    ensures Sum(MinSizes(t.kids, t.dir)) >= 0
    ensures MinSize(t, Cross(t.dir)) <= Size(t, Cross(t.dir))
  {
    MinSizesFloor(t.kids, t.dir);
    SumFloor(MinSizes(t.kids, t.dir));
  }

  lemma SameKidsErased(t: Tree, r: Tree)
    requires t.Node? && r.Node? && r.dir == t.dir && EraseAll(r.kids) == EraseAll(t.kids)
    ensures Erase(r) == Erase(t)
  {
  }

  function EqualizeHere(t: Tree, axis: Dir): (r: Tree)
    ensures r.at == t.at && r.size == t.size && (r.Node? <==> t.Node?) && (t.Node? ==> r.dir == t.dir)
  {
    if t.Node? && t.dir == axis then EqualizeChildren(t) else t
  }

  function EqualizeAxis(t: Tree, axis: Dir): (r: Tree)
    ensures r.at == t.at && r.size == t.size
    decreases Erase(t)
  {
    match t
    case Leaf(_, _, _) => t
    case Node(d, ks, at, size) =>
      EqualizeHereErase(t, axis);
      Node(d, EqualizeAxisAll(EqualizeHere(t, axis).kids, axis), at, size)
  }

  function EqualizeAxisAll(ks: seq<Tree>, axis: Dir): (r: seq<Tree>)
    ensures |r| == |ks|
    ensures forall i :: 0 <= i < |ks| ==> r[i] == EqualizeAxis(ks[i], axis)
    decreases EraseAll(ks)
  {
    seq(|ks|, i requires 0 <= i < |ks| =>
      assert EraseAll(ks)[i] == Erase(ks[i]);
      EqualizeAxis(ks[i], axis))
  }

  lemma {:induction false} EqualizeHereErase(t: Tree, axis: Dir)
    ensures Erase(EqualizeHere(t, axis)) == Erase(t)
  {
    hide EqualFit;
    if t.Node? && t.kids != [] {
      var (sizes, ok) := EqualFit(MinSizes(t.kids, t.dir), Size(t, t.dir));
      if ok {
        ResizeKidsErase(t.kids, t.dir, sizes, Size(t, Cross(t.dir)));
      }
    }
  }

  lemma {:induction false} EqualizeHereTiles(t: Tree, axis: Dir)
    requires Sized(t)
    ensures Sized(EqualizeHere(t, axis))
  {
    hide EqualizeChildren;
    if t.Node? && t.dir == axis {
      SizedRoomy(t);
      EqualizeChildrenTiles(t);
    }
  }

  lemma {:induction false} EqualizeHereShares(t: Tree, axis: Dir)
    requires Sized(t)
    ensures var e := EqualizeHere(t, axis);
      && (t.Node? && t.dir == axis ==> Leveled(MinSizes(e.kids, axis), Sizes(e.kids, axis)))
      && SameOn(t, e, Cross(axis))
  {
    hide EqualizeChildren;
    hide Sized;
    hide Leveled;
    hide MinSize;
    hide Erase;
    var e := EqualizeHere(t, axis);
    if t.Node? && t.dir == axis {
      SizedRoomy(t);
      SizedGrown(t);
      SizedKids(t);
      EqualizeChildrenTiles(t);
      SizedKids(e);
      SameMinSizes(t, e, axis);
      forall i | 0 <= i < |t.kids| ensures SameOn(t.kids[i], e.kids[i], Cross(axis)) {
        RescaledStays(t.kids[i], e.kids[i], Cross(axis));
      }
    } else {
      SameOnSelf(t, Cross(axis));
    }
  }

  /** Equalizing one axis divides every node along it evenly, and leaves the other axis alone. */
  lemma {:induction false} EqualizeAxisLevels(t: Tree, axis: Dir)
    requires Sized(t)
    ensures LevelOn(EqualizeAxis(t, axis), axis)
    ensures SameOn(t, EqualizeAxis(t, axis), Cross(axis))
    decreases Erase(t)
  {
    hide EqualizeHere;
    hide Sized;
    hide Leveled;
    hide MinSize;
    if t.Node? {
      var e, r := EqualizeHere(t, axis), EqualizeAxis(t, axis);
      EqualizeHereErase(t, axis);
      EqualizeHereTiles(t, axis);
      EqualizeHereShares(t, axis);
      SizedKids(e);
      SizedGrown(e);
      assert EraseAll(e.kids) == EraseAll(t.kids);
      EqualizeAxisAllTiles(e.kids, axis);
      SameKidsErased(e, r);
      SameMinSizes(e, r, axis);
      SameSizes(e.kids, r.kids, axis);
      forall i | 0 <= i < |t.kids|
        ensures LevelOn(r.kids[i], axis) && SameOn(t.kids[i], r.kids[i], Cross(axis))
      {
        assert EraseAll(e.kids)[i] == Erase(e.kids[i]);
        EqualizeAxisLevels(e.kids[i], axis);
        SameOnTransitive(t.kids[i], e.kids[i], r.kids[i], Cross(axis));
      }
    }
  }

  /** Equalizing one axis everywhere keeps a tiling and its shape. */
  lemma {:induction false} EqualizeAxisTiles(t: Tree, axis: Dir)
    requires Sized(t)
    ensures Sized(EqualizeAxis(t, axis))
    ensures Erase(EqualizeAxis(t, axis)) == Erase(t)
    decreases Erase(t)
  {
    hide EqualizeHere;
    if t.Node? {
      var e := EqualizeHere(t, axis);
      EqualizeHereErase(t, axis);
      EqualizeHereTiles(t, axis);
      assert EraseAll(e.kids) == EraseAll(t.kids) && e.dir == t.dir;
      SizedKids(e);
      EqualizeAxisAllTiles(e.kids, axis);
      hide Sized;
      SizedFromKids(EqualizeAxis(t, axis), Sizes(e.kids, t.dir));
    }
  }

  lemma {:induction false} EqualizeAxisAllTiles(ks: seq<Tree>, axis: Dir)
    requires forall i :: 0 <= i < |ks| ==> Sized(ks[i])
    ensures forall i :: 0 <= i < |ks| ==>
      Sized(EqualizeAxisAll(ks, axis)[i]) && EqualizeAxisAll(ks, axis)[i].size == ks[i].size
    ensures EraseAll(EqualizeAxisAll(ks, axis)) == EraseAll(ks)
    decreases EraseAll(ks)
  {
    hide Sized;
    var r := EqualizeAxisAll(ks, axis);
    forall i | 0 <= i < |ks| ensures Sized(r[i]) && r[i].size == ks[i].size && Erase(r[i]) == Erase(ks[i]) {
      assert EraseAll(ks)[i] == Erase(ks[i]);
      EqualizeAxisTiles(ks[i], axis);
    }
  }

  lemma {:induction false} SizedRoomy(t: Tree)
    requires Sized(t)
    ensures Roomy(t)
  {
    SizedGrown(t);
    SizedAboveMin(t, Vertical);
    SizedAboveMin(t, Horizontal);
  }

  // ----- splitting -----

  /** Room for both panes and a separator. */
  predicate CanSplit(t: Tree, dir: Dir) {
    t.Leaf? && Size(t, dir) >= 2 * PANE_MIN_SIZE + 1
  }

  /** A leaf turned into a node of two halves; the first half gets the odd cell. */
  function SplitLeaf(t: Tree, dir: Dir, pane: Option<nat>, first: bool): Tree
    requires t.Leaf?
  {
    var room, across := Size(t, dir), Size(t, Cross(dir));
    var size2 := Quot(room - 1, 2);
    var size1 := room - 1 - size2;
    var a := if first then pane else t.pane;
    var b := if first then t.pane else pane;
    var second := Along(dir, Pos(t, dir) + size1 + 1, Pos(t, Cross(dir)));
    Node(dir,
         [Leaf(a, t.at, Along(dir, size1, across)), Leaf(b, second, Along(dir, size2, across))],
         t.at, t.size)
  }

  /** A new leaf beside child i of a node split the same way; siblings share the space equally. */
  function InsertSibling(t: Tree, i: nat, pane: Option<nat>, first: bool): Tree
    requires t.Node? && i < |t.kids|
  {
    var k := if first then i else i + 1;
    EqualizeChildren(Node(t.dir, InsertKid(t.kids, k, pane), t.at, t.size))
  }

  function InsertKid(ks: seq<Tree>, k: nat, pane: Option<nat>): seq<Tree>
    requires k <= |ks|
  {
    ks[..k] + [Leaf(pane, Vec(0, 0), Vec(0, 0))] + ks[k..]
  }

  /** Splits the leaf at `path`; None when it is not a leaf or has no room. */
  function Split(t: Tree, path: Path, dir: Dir, pane: Option<nat>, first: bool): Option<Tree>
    requires HasPath(t, path)
    decreases |path|
  {
    if path == [] then
      if CanSplit(t, dir) then Some(SplitLeaf(t, dir, pane, first)) else None
    else if |path| == 1 && t.dir == dir then
      if CanSplit(t.kids[path[0]], dir) then Some(InsertSibling(t, path[0], pane, first)) else None
    else
      match Split(t.kids[path[0]], path[1..], dir, pane, first)
      case None => None
      case Some(kid) => Some(WithKid(t, path[0], kid))
  }

  // ----- closing -----

  function RemoveKid(ks: seq<Tree>, i: nat): seq<Tree>
    requires i < |ks|
  {
    ks[..i] + ks[i + 1..]
  }

  /** A node without child i: the rest share the space, and an only child takes the node's place. */
  function DropKid(t: Tree, i: nat): Tree
    requires t.Node? && i < |t.kids|
  {
    var rest := EqualizeChildren(Node(t.dir, RemoveKid(t.kids, i), t.at, t.size));
    if |rest.kids| == 1 then Moved(rest.kids[0], t.at, t.size) else rest
  }

  function Moved(t: Tree, at: Vec, size: Vec): Tree {
    match t
    case Leaf(p, _, _) => Leaf(p, at, size)
    case Node(d, ks, _, _) => Node(d, ks, at, size)
  }

  /** Closes the cell at `path`; the root cannot be closed. */
  function Close(t: Tree, path: Path): Option<Tree>
    requires HasPath(t, path)
    decreases |path|
  {
    if path == [] then None
    else if |path| == 1 then Some(DropKid(t, path[0]))
    else
      match Close(t.kids[path[0]], path[1..])
      case None => None
      case Some(kid) => Some(WithKid(t, path[0], kid))
  }

  // ----- what a split keeps -----

  /** A split tree in good order: exact sizes, and every node really splits. */
  ghost predicate Good(t: Tree) {
    Sized(t) && Branching(t)
  }

  predicate InsertedAt(p: seq<Option<nat>>, q: seq<Option<nat>>, n: nat, pane: Option<nat>) {
    n <= |p| && q == p[..n] + [pane] + p[n..]
  }

  predicate RemovedAt(p: seq<Option<nat>>, q: seq<Option<nat>>, n: nat) {
    n < |p| && q == p[..n] + p[n + 1..]
  }

  lemma {:induction false} SumPair(a: int, b: int)
    ensures Sum([a, b]) == a + b
  {
    assert [a, b][..1] == [a] && [a][..0] == [];
    assert Sum([a]) == Sum([a][..0]) + a;
  }

  lemma {:induction false} PanesPair(a: Tree, b: Tree)
    ensures PanesOf([a, b]) == Panes(a) + Panes(b)
  {
    assert [a, b][1..] == [b] && [b][1..] == [];
    assert PanesOf([b]) == Panes(b) + PanesOf([]);
  }

  lemma {:induction false} SplitLeafGood(t: Tree, dir: Dir, pane: Option<nat>, first: bool)
    requires Sized(t) && CanSplit(t, dir)
    ensures var r := SplitLeaf(t, dir, pane, first);
      && Good(r) && r.at == t.at && r.size == t.size
      && InsertedAt(Panes(t), Panes(r), if first then 0 else 1, pane)
  {
    var r := SplitLeaf(t, dir, pane, first);
    var sizes := [Size(r.kids[0], dir), Size(r.kids[1], dir)];
    SumPair(sizes[0], sizes[1]);
    assert Sized(r.kids[0]) && Sized(r.kids[1]);
    SizedFromKids(r, sizes);
    PanesPair(r.kids[0], r.kids[1]);
  }

  /** A node with a small new leaf inserted beside a leaf that could be split still has room. */
  lemma {:induction false} InsertRoomy(t: Tree, i: nat, k: nat, pane: Option<nat>)
    requires t.Node? && Sized(t) && i < |t.kids| && k <= |t.kids| && CanSplit(t.kids[i], t.dir)
    ensures Roomy(Node(t.dir, InsertKid(t.kids, k, pane), t.at, t.size))
  {
    hide MinSize;
    var ks, d := t.kids, t.dir;
    var blank := Leaf(pane, Vec(0, 0), Vec(0, 0));
    var ks' := InsertKid(ks, k, pane);
    var u := Node(d, ks', t.at, t.size);
    SizedKids(t);
    hide Sized;
    assert forall j :: 0 <= j < |ks'| ==> ks'[j] == blank || (exists m :: 0 <= m < |ks| && ks[m] == ks'[j]);
    forall j | 0 <= j < |ks'| ensures Grown(ks'[j]) && MinSize(ks'[j], Cross(d)) <= Size(t, Cross(d)) {
      if ks'[j] == blank {
        BlankMin(pane, Cross(d));
        SizedAboveMin(ks[0], Cross(d));
        SizedGrown(ks[0]);
        MinSizeFloor(ks[0], Cross(d));
      } else {
        var m :| 0 <= m < |ks| && ks[m] == ks'[j];
        SizedGrown(ks[m]);
        SizedAboveMin(ks[m], Cross(d));
      }
    }
    MinMaxBound(ks', Cross(d), Size(t, Cross(d)));
    InsertMinSum(t, i, k, pane);
    NodeRoomy(u);
  }

  lemma BlankMin(pane: Option<nat>, axis: Dir)
    ensures var blank := Leaf(pane, Vec(0, 0), Vec(0, 0)); Grown(blank) && MinSize(blank, axis) == PANE_MIN_SIZE
  {
  }

  lemma {:induction false} NodeRoomy(t: Tree)
    requires t.Node? && t.kids != [] && forall j :: 0 <= j < |t.kids| ==> Grown(t.kids[j])
    requires MaxOf(MinSizes(t.kids, Cross(t.dir))) <= Size(t, Cross(t.dir))
    requires |t.kids| - 1 + Sum(MinSizes(t.kids, t.dir)) <= Size(t, t.dir)
    ensures Roomy(t)
  {
  }

  lemma {:induction false} MinMaxBound(ks: seq<Tree>, axis: Dir, bound: int)
    requires ks != [] && forall j :: 0 <= j < |ks| ==> Grown(ks[j]) && MinSize(ks[j], axis) <= bound
    ensures MaxOf(MinSizes(ks, axis)) <= bound
  {
    MinSizeFloor(ks[0], axis);
    hide MinSize;
    MaxOfLeast(MinSizes(ks, axis), bound);
  }

  lemma {:induction false} InsertMinSum(t: Tree, i: nat, k: nat, pane: Option<nat>)
    requires t.Node? && Sized(t) && i < |t.kids| && k <= |t.kids| && CanSplit(t.kids[i], t.dir)
    ensures var ks' := InsertKid(t.kids, k, pane);
      |ks'| - 1 + Sum(MinSizes(ks', t.dir)) <= Size(t, t.dir)
  {
    hide Sized;
    hide Sum;
    var ks, d := t.kids, t.dir;
    var ms, ss := MinSizes(ks, d), Sizes(ks, d);
    SizedKids(t);
    assert ms[i] == PANE_MIN_SIZE && ss[i] >= 2 * PANE_MIN_SIZE + 1;
    assert MinSizes(InsertKid(ks, k, pane), d) == ms[..k] + [PANE_MIN_SIZE] + ms[k..];
    SumInsert(ms, k, PANE_MIN_SIZE);
    var raised := ms[i := ms[i] + PANE_MIN_SIZE + 1];
    SumUpdate(ms, i, ms[i] + PANE_MIN_SIZE + 1);
    forall j | 0 <= j < |ks| ensures raised[j] <= ss[j] {
      SizedAboveMin(ks[j], d);
    }
    SumMonotone(raised, ss);
  }

  lemma {:induction false} InsertSiblingGood(t: Tree, i: nat, pane: Option<nat>, first: bool)
    requires t.Node? && Good(t) && i < |t.kids| && CanSplit(t.kids[i], t.dir)
    ensures var r := InsertSibling(t, i, pane, first);
      && Good(r) && r.at == t.at && r.size == t.size
      && InsertedAt(Panes(t), Panes(r), PaneIndex(t, [i]) + (if first then 0 else 1), pane)
  {
    hide EqualizeChildren;
    hide Sized;
    var k := if first then i else i + 1;
    var u := Node(t.dir, InsertKid(t.kids, k, pane), t.at, t.size);
    InsertRoomy(t, i, k, pane);
    InsertBranching(t, k, pane);
    EqualizedGood(u);
    InsertSiblingPanes(t, i, pane, first);
  }

  lemma {:induction false} InsertBranching(t: Tree, k: nat, pane: Option<nat>)
    requires t.Node? && Branching(t) && k <= |t.kids|
    ensures Branching(Node(t.dir, InsertKid(t.kids, k, pane), t.at, t.size))
  {
  }

  lemma {:induction false} EqualizedGood(t: Tree)
    requires t.Node? && Roomy(t) && Branching(t)
    ensures Good(EqualizeChildren(t)) && Panes(EqualizeChildren(t)) == Panes(t)
  {
    hide EqualizeChildren;
    EqualizeChildrenTiles(t);
    SameErase(t, EqualizeChildren(t));
  }

  lemma {:induction false} InsertSiblingPanes(t: Tree, i: nat, pane: Option<nat>, first: bool)
    requires t.Node? && i < |t.kids| && t.kids[i].Leaf?
    ensures var k := if first then i else i + 1;
      InsertedAt(Panes(t), PanesOf(InsertKid(t.kids, k, pane)), PaneIndex(t, [i]) + (if first then 0 else 1), pane)
  {
    InsertKidPanes(t.kids, if first then i else i + 1, pane);
    PanesBeforeNext(t.kids, i);
    assert [i][1..] == [];
  }

  lemma {:induction false} InsertKidPanes(ks: seq<Tree>, k: nat, pane: Option<nat>)
    requires k <= |ks|
    ensures var p, n := PanesOf(ks), |PanesOf(ks[..k])|;
      n <= |p| && PanesOf(InsertKid(ks, k, pane)) == p[..n] + [pane] + p[n..]
  {
    var mid := [Leaf(pane, Vec(0, 0), Vec(0, 0))];
    assert ks == ks[..k] + ks[k..];
    PanesOfConcat(ks[..k], ks[k..]);
    PanesOfConcat(ks[..k] + mid, ks[k..]);
    PanesOfConcat(ks[..k], mid);
    assert mid[1..] == [];
    assert PanesOf(mid) == [pane];
  }

  lemma {:induction false} PanesBeforeNext(ks: seq<Tree>, i: nat)
    requires i < |ks| && ks[i].Leaf?
    ensures |PanesOf(ks[..i + 1])| == |PanesOf(ks[..i])| + 1
  {
    assert ks[..i + 1] == ks[..i] + [ks[i]];
    PanesOfConcat(ks[..i], [ks[i]]);
    assert [ks[i]][1..] == [];
    assert PanesOf([ks[i]]) == Panes(ks[i]);
  }

  lemma SameErase(t: Tree, u: Tree)
    requires Erase(t) == Erase(u)
    ensures Branching(t) <==> Branching(u)
    ensures Panes(t) == Panes(u)
  {
    GrownErase(t);
    GrownErase(u);
    PanesErase(t);
    PanesErase(u);
  }

  // ----- replacing one child in place -----

  /** A child may be replaced by any tree of the same extent that is itself in good order. */
  lemma {:induction false} WithKidGood(t: Tree, i: nat, kid: Tree)
    requires t.Node? && Good(t) && i < |t.kids| && Good(kid) && kid.size == t.kids[i].size
    ensures Good(WithKid(t, i, kid))
  {
    SizedKids(t);
    var r := WithKid(t, i, kid);
    assert Sizes(r.kids, t.dir) == Sizes(t.kids, t.dir);
    hide Sized;
    SizedFromKids(r, Sizes(t.kids, t.dir));
  }

  lemma {:induction false} WithKidPanes(t: Tree, i: nat, kid: Tree)
    requires t.Node? && i < |t.kids|
    ensures Panes(t) == PanesOf(t.kids[..i]) + Panes(t.kids[i]) + PanesOf(t.kids[i + 1..])
    ensures Panes(WithKid(t, i, kid)) == PanesOf(t.kids[..i]) + Panes(kid) + PanesOf(t.kids[i + 1..])
  {
    PanesOfReplace(t.kids, i, [kid]);
    assert t.kids[i := kid] == t.kids[..i] + [kid] + t.kids[i + 1..];
    assert [kid][1..] == [];
    assert PanesOf([kid]) == Panes(kid) + PanesOf([]);
  }

  lemma {:induction false} InsertedInside(a: seq<Option<nat>>, p: seq<Option<nat>>, q: seq<Option<nat>>,
                                          b: seq<Option<nat>>, n: nat, pane: Option<nat>)
    requires InsertedAt(p, q, n, pane)
    ensures InsertedAt(a + p + b, a + q + b, |a| + n, pane)
  {
  }

  lemma {:induction false} RemovedInside(a: seq<Option<nat>>, p: seq<Option<nat>>, q: seq<Option<nat>>,
                                         b: seq<Option<nat>>, n: nat)
    requires RemovedAt(p, q, n)
    ensures RemovedAt(a + p + b, a + q + b, |a| + n)
  {
  }

  /**
   * Splitting succeeds exactly when the target is a leaf with room; it keeps
   * the tree in good order and the root's box, and adds the new pane right
   * before or after the target's.
   */
  lemma {:induction false} SplitKeeps(t: Tree, path: Path, dir: Dir, pane: Option<nat>, first: bool)
    requires Good(t) && HasPath(t, path)
    ensures var r := Split(t, path, dir, pane, first);
      && (r.Some? <==> CanSplit(At(t, path), dir))
      && (r.Some? <==> At(t, path).Leaf? && Size(At(t, path), dir) >= 2 * PANE_MIN_SIZE + 1)
      && (r.Some? ==>
            && Good(r.value) && r.value.at == t.at && r.value.size == t.size
            && InsertedAt(Panes(t), Panes(r.value), PaneIndex(t, path) + (if first then 0 else 1), pane))
    decreases |path|
  {
    hide Sized;
    hide InsertSibling;
    hide SplitLeaf;
    hide Panes;
    hide InsertedAt;
    hide CanSplit;
    SplitRoom(At(t, path), dir);
    if path == [] {
      if CanSplit(t, dir) {
        SplitLeafGood(t, dir, pane, first);
      }
    } else if |path| == 1 && t.dir == dir {
      assert path == [path[0]];
      if CanSplit(t.kids[path[0]], dir) {
        InsertSiblingGood(t, path[0], pane, first);
      }
    } else {
      SizedKids(t);
      SplitKeeps(t.kids[path[0]], path[1..], dir, pane, first);
      if CanSplit(At(t, path), dir) {
        SplitDeeper(t, path, dir, pane, first, Split(t.kids[path[0]], path[1..], dir, pane, first).value);
      }
    }
  }

  lemma SplitRoom(t: Tree, dir: Dir)
    ensures CanSplit(t, dir) <==> t.Leaf? && Size(t, dir) >= 2 * PANE_MIN_SIZE + 1
  {
  }

  lemma {:induction false} SplitDeeper(t: Tree, path: Path, dir: Dir, pane: Option<nat>, first: bool, kid: Tree)
    requires Good(t) && HasPath(t, path) && path != []
    requires Good(kid) && kid.size == t.kids[path[0]].size
    requires InsertedAt(Panes(t.kids[path[0]]), Panes(kid),
                        PaneIndex(t.kids[path[0]], path[1..]) + (if first then 0 else 1), pane)
    ensures var r := WithKid(t, path[0], kid);
      && Good(r) && r.at == t.at && r.size == t.size
      && InsertedAt(Panes(t), Panes(r), PaneIndex(t, path) + (if first then 0 else 1), pane)
  {
    hide Sized;
    var i := path[0];
    WithKidGood(t, i, kid);
    WithKidPanes(t, i, kid);
    InsertedInside(PanesOf(t.kids[..i]), Panes(t.kids[i]), Panes(kid), PanesOf(t.kids[i + 1..]),
                   PaneIndex(t.kids[i], path[1..]) + (if first then 0 else 1), pane);
  }

  // ----- what a close keeps -----

  lemma {:induction false} RemoveRoomy(t: Tree, i: nat)
    requires t.Node? && Good(t) && i < |t.kids|
    ensures Roomy(Node(t.dir, RemoveKid(t.kids, i), t.at, t.size))
  {
    var ks, d := t.kids, t.dir;
    var ks' := RemoveKid(ks, i);
    SizedKids(t);
    SizedAboveMin(t, d);
    hide Sized;
    forall j | 0 <= j < |ks'| ensures Grown(ks'[j]) && MinSize(ks'[j], Cross(d)) <= Size(t, Cross(d)) {
      var m := if j < i then j else j + 1;
      assert ks[m] == ks'[j];
      SizedGrown(ks[m]);
      SizedAboveMin(ks[m], Cross(d));
    }
    MinMaxBound(ks', Cross(d), Size(t, Cross(d)));
    RemoveMinSum(ks, i, d);
    SizedGrown(ks[i]);
    MinSizeFloor(ks[i], d);
  }

  lemma {:induction false} RemoveMinSum(ks: seq<Tree>, i: nat, d: Dir)
    requires i < |ks|
    ensures Sum(MinSizes(RemoveKid(ks, i), d)) == Sum(MinSizes(ks, d)) - MinSize(ks[i], d)
  {
    hide MinSize;
    var ms := MinSizes(ks, d);
    assert MinSizes(RemoveKid(ks, i), d) == ms[..i] + ms[i + 1..];
    SumInsert(ms[..i] + ms[i + 1..], i, ms[i]);
    assert ms == (ms[..i] + ms[i + 1..])[..i] + [ms[i]] + (ms[..i] + ms[i + 1..])[i..];
  }

  lemma {:induction false} MovedGood(t: Tree, at: Vec, size: Vec)
    requires Good(t) && t.size == size
    ensures Good(Moved(t, at, size)) && Panes(Moved(t, at, size)) == Panes(t)
  {
    if t.Node? {
      SizedKids(t);
      SizedFromKids(Moved(t, at, size), Sizes(t.kids, t.dir));
    }
  }

  lemma {:induction false} DropKidGood(t: Tree, i: nat)
    requires t.Node? && Good(t) && i < |t.kids| && t.kids[i].Leaf?
    ensures var r := DropKid(t, i);
      && Good(r) && r.at == t.at && r.size == t.size
      && RemovedAt(Panes(t), Panes(r), PaneIndex(t, [i]))
  {
    var u := Node(t.dir, RemoveKid(t.kids, i), t.at, t.size);
    RemoveRoomy(t, i);
    EqualizeChildrenTiles(u);
    RemoveKidPanes(t, i);
    hide EqualizeChildren;
    var rest := EqualizeChildren(u);
    DropKidCollapse(t, i, u, rest);
  }

  lemma {:induction false} DropKidCollapse(t: Tree, i: nat, u: Tree, rest: Tree)
    requires t.Node? && Good(t) && i < |t.kids|
    requires u == Node(t.dir, RemoveKid(t.kids, i), t.at, t.size)
    requires rest == EqualizeChildren(u) && Sized(rest) && Erase(rest) == Erase(u)
    ensures var r := DropKid(t, i);
      Good(r) && r.at == t.at && r.size == t.size && Panes(r) == PanesOf(RemoveKid(t.kids, i))
  {
    hide EqualizeChildren;
    hide Sized;
    hide Panes;
    SizedKids(rest);
    PanesOfNode(rest);
    PanesOfNode(u);
    assert |EraseAll(rest.kids)| == |EraseAll(u.kids)|;
    PanesErase(rest);
    PanesErase(u);
    if |rest.kids| == 1 {
      var only := rest.kids[0];
      assert Erase(only) == EraseAll(rest.kids)[0] == EraseAll(u.kids)[0] == Erase(u.kids[0]);
      GrownErase(only);
      GrownErase(u.kids[0]);
      OnlyKid(rest);
      MovedGood(only, t.at, t.size);
    } else {
      assert Branching(u);
      GrownErase(rest);
      GrownErase(u);
    }
  }

  lemma PanesOfNode(t: Tree)
    requires t.Node?
    ensures Panes(t) == PanesOf(t.kids)
  {
  }

  lemma {:induction false} OnlyKid(t: Tree)
    requires t.Node? && Sized(t) && |t.kids| == 1
    ensures t.kids[0].size == t.size && Panes(t) == Panes(t.kids[0])
  {
    var s := Sizes(t.kids, t.dir);
    assert s[..0] == [];
    assert Sum(s) == Sum(s[..0]) + s[0];
    assert t.kids[1..] == [];
    assert PanesOf(t.kids) == Panes(t.kids[0]) + PanesOf(t.kids[1..]);
  }

  lemma {:induction false} RemoveKidPanes(t: Tree, i: nat)
    requires t.Node? && i < |t.kids| && t.kids[i].Leaf?
    ensures RemovedAt(Panes(t), PanesOf(RemoveKid(t.kids, i)), PaneIndex(t, [i]))
  {
    PanesOfReplace(t.kids, i, []);
    assert t.kids[..i] + [] + t.kids[i + 1..] == RemoveKid(t.kids, i);
    assert [i][1..] == [];
  }

  /** Closing any leaf but the root keeps the tree in good order and the root's box, and loses exactly its pane. */
  lemma {:induction false} CloseKeeps(t: Tree, path: Path)
    requires Good(t) && HasPath(t, path) && At(t, path).Leaf?
    ensures var r := Close(t, path);
      && (r.Some? <==> path != [])
      && (r.Some? ==>
            && Good(r.value) && r.value.at == t.at && r.value.size == t.size
            && RemovedAt(Panes(t), Panes(r.value), PaneIndex(t, path)))
    decreases |path|
  {
    hide Sized;
    hide DropKid;
    if path == [] {
    } else if |path| == 1 {
      assert path == [path[0]];
      DropKidGood(t, path[0]);
    } else {
      var i := path[0];
      SizedKids(t);
      CloseKeeps(t.kids[i], path[1..]);
      var kid := Close(t.kids[i], path[1..]);
      WithKidGood(t, i, kid.value);
      WithKidPanes(t, i, kid.value);
      RemovedInside(PanesOf(t.kids[..i]), Panes(t.kids[i]), Panes(kid.value), PanesOf(t.kids[i + 1..]),
                    PaneIndex(t.kids[i], path[1..]));
    }
  }

  // ----- fixing positions afterwards -----

  lemma TiledGood(t: Tree)
    requires Tiled(t) && Branching(t)
    ensures Good(t) && Sized(t)
  {
  }

  lemma EqualizeAxisGood(t: Tree, axis: Dir)
    requires Good(t)
    ensures Good(EqualizeAxis(t, axis)) && Panes(EqualizeAxis(t, axis)) == Panes(t)
  {
    EqualizeAxisTiles(t, axis);
    SameErase(t, EqualizeAxis(t, axis));
  }

  lemma FixKeeps(t: Tree)
    requires Good(t)
    ensures var r := FixOffsets(t);
      Tiled(r) && Branching(r) && r.at == t.at && r.size == t.size && Panes(r) == Panes(t)
  {
    FixOffsetsTiles(t);
    SameErase(t, FixOffsets(t));
  }
}
