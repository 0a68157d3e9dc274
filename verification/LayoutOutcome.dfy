/** What a split or a close makes of the extents around it, told from the trees before and after. */
module LayoutOutcome {
  import opened Common
  import opened Numbers
  import opened Apportion
  import opened LayoutTree
  import opened LayoutShare
  import opened LayoutEdit

  /** Nothing changed but positions. */
  ghost predicate Untouched(t: Tree, u: Tree) {
    SameOn(t, u, Vertical) && SameOn(t, u, Horizontal) && Erase(t) == Erase(u)
  }

  /** Divided in proportion on both axes. */
  ghost predicate RescaledBoth(t: Tree, u: Tree) {
    Rescaled(t, u, Vertical) && Rescaled(t, u, Horizontal)
  }

  /** A leaf's two halves differ by a cell at most, the first being the larger. */
  ghost predicate Halved(t: Tree, r: Tree, dir: Dir) {
    && r.Node? && r.dir == dir && r.size == t.size && |r.kids| == 2
    && Size(r.kids[1], dir) <= Size(r.kids[0], dir) <= Size(r.kids[1], dir) + 1
  }

  /** The children of t with a new leaf at k, all sharing the node evenly. */
  ghost predicate Joined(t: Tree, r: Tree, k: nat)
    requires t.Node?
  {
    && r.Node? && r.dir == t.dir && r.size == t.size && |r.kids| == |t.kids| + 1
    && k < |r.kids| && r.kids[k].Leaf?
    && Leveled(MinSizes(r.kids, r.dir), Sizes(r.kids, r.dir))
    && forall i :: 0 <= i < |t.kids| ==> RescaledBoth(t.kids[i], r.kids[if i < k then i else i + 1])
  }

  /** The children of t but child k share the node evenly; a single one takes it over. */
  ghost predicate Parted(t: Tree, r: Tree, k: nat)
    requires t.Node? && k < |t.kids|
  {
    && r.size == t.size
    && (|t.kids| == 2 ==> RescaledBoth(t.kids[1 - k], r))
    && (|t.kids| > 2 ==>
          && r.Node? && r.dir == t.dir && |r.kids| == |t.kids| - 1
          && Leveled(MinSizes(r.kids, r.dir), Sizes(r.kids, r.dir))
          && forall i :: 0 <= i < |r.kids| ==> RescaledBoth(t.kids[if i < k then i else i + 1], r.kids[i]))
  }

  /** All children but child i are untouched, and the node is as it was. */
  ghost predicate OnlyKidChanged(t: Tree, r: Tree, i: nat)
    requires t.Node? && i < |t.kids|
  {
    && r.Node? && r.dir == t.dir && r.size == t.size && |r.kids| == |t.kids|
    && forall j :: 0 <= j < |t.kids| && j != i ==> Untouched(t.kids[j], r.kids[j])
  }

  /** A split halves the leaf, or adds a sibling if its parent is split the same way; nothing else changes. */
  ghost predicate SplitShared(t: Tree, r: Tree, path: Path, dir: Dir, first: bool)
    requires HasPath(t, path)
    decreases |path|
  {
    if path == [] then Halved(t, r, dir)
    else if |path| == 1 && t.dir == dir then Joined(t, r, if first then path[0] else path[0] + 1)
    else
      && OnlyKidChanged(t, r, path[0])
      && SplitShared(t.kids[path[0]], r.kids[path[0]], path[1..], dir, first)
  }

  /** A close gives the leaf's cells to its siblings; nothing else changes. */
  ghost predicate CloseShared(t: Tree, r: Tree, path: Path)
    requires HasPath(t, path) && path != []
    decreases |path|
  {
    if |path| == 1 then Parted(t, r, path[0])
    else OnlyKidChanged(t, r, path[0]) && CloseShared(t.kids[path[0]], r.kids[path[0]], path[1..])
  }

  // ----- positions do not matter -----

  lemma UntouchedSelf(t: Tree)
    ensures Untouched(t, t)
  {
    SameOnSelf(t, Vertical);
    SameOnSelf(t, Horizontal);
  }

  lemma UntouchedFixed(t: Tree)
    ensures Untouched(t, FixOffsets(t))
  {
    PlaceSame(t, t.at, Vertical);
    PlaceSame(t, t.at, Horizontal);
    PlaceErase(t, t.at);
  }

  lemma UntouchedTransitive(t: Tree, u: Tree, v: Tree)
    requires Untouched(t, u) && Untouched(u, v)
    ensures Untouched(t, v)
  {
    SameOnTransitive(t, u, v, Vertical);
    SameOnTransitive(t, u, v, Horizontal);
  }

  lemma {:induction false} UntouchedKids(t: Tree, u: Tree)
    requires Untouched(t, u) && t.Node?
    ensures u.Node? && u.dir == t.dir && u.size == t.size && |u.kids| == |t.kids|
    ensures forall i :: 0 <= i < |t.kids| ==> Untouched(t.kids[i], u.kids[i])
  {
    assert EraseAll(t.kids) == EraseAll(u.kids);
    assert u.size == t.size;
    forall i | 0 <= i < |t.kids| ensures Untouched(t.kids[i], u.kids[i]) {
      assert EraseAll(t.kids)[i] == EraseAll(u.kids)[i];
    }
  }

  lemma RescaledUntouched(t: Tree, u: Tree, v: Tree)
    requires RescaledBoth(t, u) && Untouched(u, v)
    ensures RescaledBoth(t, v)
  {
    RescaledThen(t, u, v, Vertical);
    RescaledThen(t, u, v, Horizontal);
  }

  lemma {:induction false} LeveledUntouched(u: Tree, v: Tree)
    requires u.Node? && Grown(u) && Untouched(u, v) && Leveled(MinSizes(u.kids, u.dir), Sizes(u.kids, u.dir))
    ensures v.Node? && v.dir == u.dir && Leveled(MinSizes(v.kids, v.dir), Sizes(v.kids, v.dir))
  {
    hide Leveled;
    hide MinSize;
    UntouchedKids(u, v);
    SameMinSizes(u, v, u.dir);
    forall i | 0 <= i < |u.kids| ensures Size(u.kids[i], u.dir) == Size(v.kids[i], u.dir) {
      UntouchedLeaf(u.kids[i], v.kids[i]);
    }
    SameSizes(u.kids, v.kids, u.dir);
  }

  lemma {:induction false} JoinedThen(t: Tree, r: Tree, u: Tree, k: nat)
    requires t.Node? && Joined(t, r, k) && Untouched(r, u) && Grown(r)
    ensures Joined(t, u, k)
  {
    hide Leveled;
    hide RescaledBoth;
    hide Untouched;
    hide MinSize;
    LeveledUntouched(r, u);
    UntouchedKids(r, u);
    UntouchedLeaf(r.kids[k], u.kids[k]);
    forall i | 0 <= i < |t.kids| ensures RescaledBoth(t.kids[i], u.kids[if i < k then i else i + 1]) {
      var j := if i < k then i else i + 1;
      RescaledUntouched(t.kids[i], r.kids[j], u.kids[j]);
    }
  }

  lemma UntouchedLeaf(t: Tree, u: Tree)
    requires Untouched(t, u)
    ensures (t.Leaf? <==> u.Leaf?) && t.size == u.size
  {
  }

  lemma {:induction false} PartedThen(t: Tree, r: Tree, u: Tree, k: nat)
    requires t.Node? && k < |t.kids| && Parted(t, r, k) && Untouched(r, u) && Grown(r)
    ensures Parted(t, u, k)
  {
    hide Leveled;
    hide RescaledBoth;
    hide Untouched;
    hide MinSize;
    UntouchedLeaf(r, u);
    if |t.kids| == 2 {
      RescaledUntouched(t.kids[1 - k], r, u);
    } else if |t.kids| > 2 {
      LeveledUntouched(r, u);
      UntouchedKids(r, u);
      forall i | 0 <= i < |r.kids| ensures RescaledBoth(t.kids[if i < k then i else i + 1], u.kids[i]) {
        RescaledUntouched(t.kids[if i < k then i else i + 1], r.kids[i], u.kids[i]);
      }
    }
  }

  lemma {:induction false} OnlyKidThen(t: Tree, r: Tree, u: Tree, i: nat)
    requires t.Node? && i < |t.kids| && OnlyKidChanged(t, r, i) && Untouched(r, u)
    ensures OnlyKidChanged(t, u, i) && Untouched(r.kids[i], u.kids[i])
  {
    hide Untouched;
    UntouchedKids(r, u);
    forall j | 0 <= j < |t.kids| && j != i ensures Untouched(t.kids[j], u.kids[j]) {
      UntouchedTransitive(t.kids[j], r.kids[j], u.kids[j]);
    }
  }

  lemma {:induction false} SplitSharedThen(t: Tree, r: Tree, u: Tree, path: Path, dir: Dir, first: bool)
    requires HasPath(t, path) && SplitShared(t, r, path, dir, first) && Untouched(r, u) && Grown(r)
    ensures SplitShared(t, u, path, dir, first)
    decreases |path|
  {
    hide Untouched;
    hide Joined;
    hide OnlyKidChanged;
    if path == [] {
      UntouchedKids(r, u);
      UntouchedLeaf(r.kids[0], u.kids[0]);
      UntouchedLeaf(r.kids[1], u.kids[1]);
    } else if |path| == 1 && t.dir == dir {
      JoinedThen(t, r, u, if first then path[0] else path[0] + 1);
    } else {
      OnlyKidThen(t, r, u, path[0]);
      OnlyKidNode(t, r, path[0]);
      OnlyKidNode(t, u, path[0]);
      SplitSharedThen(t.kids[path[0]], r.kids[path[0]], u.kids[path[0]], path[1..], dir, first);
    }
  }

  lemma OnlyKidNode(t: Tree, r: Tree, i: nat)
    requires t.Node? && i < |t.kids| && OnlyKidChanged(t, r, i)
    ensures r.Node? && |r.kids| == |t.kids|
  {
  }

  lemma {:induction false} CloseSharedThen(t: Tree, r: Tree, u: Tree, path: Path)
    requires HasPath(t, path) && path != [] && CloseShared(t, r, path) && Untouched(r, u) && Grown(r)
    ensures CloseShared(t, u, path)
    decreases |path|
  {
    hide Untouched;
    hide Parted;
    hide OnlyKidChanged;
    if |path| == 1 {
      PartedThen(t, r, u, path[0]);
    } else {
      OnlyKidThen(t, r, u, path[0]);
      OnlyKidNode(t, r, path[0]);
      OnlyKidNode(t, u, path[0]);
      CloseSharedThen(t.kids[path[0]], r.kids[path[0]], u.kids[path[0]], path[1..]);
    }
  }

  // ----- splitting -----

  lemma {:induction false} SplitLeafHalves(t: Tree, dir: Dir, pane: Option<nat>, first: bool)
    requires CanSplit(t, dir)
    ensures Halved(t, SplitLeaf(t, dir, pane, first), dir)
  {
  }

  lemma KidsBoth(t: Tree, r: Tree)
    requires t.Node? && KidsRescaled(t, r)
    ensures r.Node? && |r.kids| == |t.kids| && forall i :: 0 <= i < |t.kids| ==> RescaledBoth(t.kids[i], r.kids[i])
  {
  }

  /** Equalized children: even shares, and each divided in proportion within. */
  lemma {:induction false} EqualizedShares(t: Tree)
    requires t.Node? && Roomy(t)
    ensures var r := EqualizeChildren(t);
      && r.Node? && r.dir == t.dir && r.size == t.size && |r.kids| == |t.kids| && Sized(r)
      && Leveled(MinSizes(r.kids, r.dir), Sizes(r.kids, r.dir))
      && forall i :: 0 <= i < |t.kids| ==> RescaledBoth(t.kids[i], r.kids[i])
  {
    hide EqualizeChildren;
    hide Sized;
    hide Leveled;
    hide MinSize;
    hide RescaledBoth;
    hide KidsRescaled;
    hide Erase;
    EqualizeChildrenTiles(t);
    KidsBoth(t, EqualizeChildren(t));
    SameMinSizes(t, EqualizeChildren(t), t.dir);
  }

  lemma BothKind(t: Tree, u: Tree)
    requires RescaledBoth(t, u)
    ensures t.Leaf? <==> u.Leaf?
  {
  }

  lemma {:induction false} InsertSiblingJoins(t: Tree, i: nat, pane: Option<nat>, first: bool)
    requires t.Node? && Good(t) && i < |t.kids| && CanSplit(t.kids[i], t.dir)
    ensures Joined(t, InsertSibling(t, i, pane, first), if first then i else i + 1)
  {
    hide EqualizeChildren;
    hide Good;
    hide Sized;
    hide Roomy;
    hide CanSplit;
    hide Leveled;
    hide MinSize;
    hide RescaledBoth;
    var k := if first then i else i + 1;
    var u := Node(t.dir, InsertKid(t.kids, k, pane), t.at, t.size);
    var r := InsertSibling(t, i, pane, first);
    GoodSized(t);
    InsertRoomy(t, i, k, pane);
    EqualizedShares(u);
    BothKind(u.kids[k], r.kids[k]);
    forall j | 0 <= j < |t.kids| ensures RescaledBoth(t.kids[j], r.kids[if j < k then j else j + 1]) {
      assert u.kids[if j < k then j else j + 1] == t.kids[j];
    }
  }

  lemma GoodSized(t: Tree)
    requires Good(t)
    ensures Sized(t)
  {
  }

  lemma {:induction false} WithKidChanges(t: Tree, i: nat, kid: Tree)
    requires t.Node? && i < |t.kids|
    ensures OnlyKidChanged(t, WithKid(t, i, kid), i) && WithKid(t, i, kid).kids[i] == kid
  {
    hide Untouched;
    forall j | 0 <= j < |t.kids| && j != i ensures Untouched(t.kids[j], WithKid(t, i, kid).kids[j]) {
      UntouchedSelf(t.kids[j]);
    }
  }

  /**
   * A split leaf makes two halves; beside siblings split the same way all of
   * them share the space evenly; nothing else in the window changes.
   */
  lemma {:induction false} SplitShares(t: Tree, path: Path, dir: Dir, pane: Option<nat>, first: bool)
    requires Good(t) && HasPath(t, path) && CanSplit(At(t, path), dir)
    ensures var r := Split(t, path, dir, pane, first);
      r.Some? && SplitShared(t, FixOffsets(r.value), path, dir, first)
  {
    hide Sized;
    hide SplitShared;
    hide Split;
    hide Untouched;
    hide FixOffsets;
    SplitKeeps(t, path, dir, pane, first);
    SplitSharesAt(t, path, dir, pane, first);
    var r := Split(t, path, dir, pane, first).value;
    SizedGrown(r);
    UntouchedFixed(r);
    SplitSharedThen(t, r, FixOffsets(r), path, dir, first);
  }

  lemma {:induction false} SplitSharesAt(t: Tree, path: Path, dir: Dir, pane: Option<nat>, first: bool)
    requires Good(t) && HasPath(t, path) && CanSplit(At(t, path), dir)
    ensures var r := Split(t, path, dir, pane, first); r.Some? && SplitShared(t, r.value, path, dir, first)
    decreases |path|
  {
    hide Sized;
    hide Joined;
    hide Halved;
    hide OnlyKidChanged;
    hide InsertSibling;
    hide SplitLeaf;
    hide CanSplit;
    if path == [] {
      SplitLeafHalves(t, dir, pane, first);
    } else if |path| == 1 && t.dir == dir {
      assert path[1..] == [];
      InsertSiblingJoins(t, path[0], pane, first);
    } else {
      SizedKids(t);
      SplitSharesAt(t.kids[path[0]], path[1..], dir, pane, first);
      WithKidChanges(t, path[0], Split(t.kids[path[0]], path[1..], dir, pane, first).value);
    }
  }

  // ----- closing -----

  lemma {:induction false} MovedSame(t: Tree, at: Vec, size: Vec)
    requires t.size == size
    ensures SameOn(t, Moved(t, at, size), Vertical) && SameOn(t, Moved(t, at, size), Horizontal)
  {
    if t.Node? {
      forall i | 0 <= i < |t.kids|
        ensures SameOn(t.kids[i], t.kids[i], Vertical) && SameOn(t.kids[i], t.kids[i], Horizontal)
      {
        SameOnSelf(t.kids[i], Vertical);
        SameOnSelf(t.kids[i], Horizontal);
      }
    }
  }

  lemma {:induction false} DropKidParts(t: Tree, i: nat)
    requires t.Node? && Good(t) && i < |t.kids|
    ensures Parted(t, DropKid(t, i), i)
  {
    hide EqualizeChildren;
    hide Good;
    hide Sized;
    hide Roomy;
    hide Leveled;
    hide MinSize;
    hide RescaledBoth;
    hide Moved;
    var u := Node(t.dir, RemoveKid(t.kids, i), t.at, t.size);
    var rest := EqualizeChildren(u);
    RemoveRoomy(t, i);
    EqualizedShares(u);
    forall j | 0 <= j < |rest.kids| ensures RescaledBoth(t.kids[if j < i then j else j + 1], rest.kids[j]) {
      assert u.kids[j] == t.kids[if j < i then j else j + 1];
    }
    if |rest.kids| == 1 {
      OnlyKid(rest);
      MovedRescaled(t.kids[1 - i], rest.kids[0], t.at, t.size);
    }
  }

  lemma MovedRescaled(t: Tree, u: Tree, at: Vec, size: Vec)
    requires RescaledBoth(t, u) && u.size == size
    ensures RescaledBoth(t, Moved(u, at, size)) && Moved(u, at, size).size == size
  {
    MovedSame(u, at, size);
    RescaledThen(t, u, Moved(u, at, size), Vertical);
    RescaledThen(t, u, Moved(u, at, size), Horizontal);
  }

  /** A closed leaf's siblings share its node evenly, a single one takes it over; nothing else in the window changes. */
  lemma {:induction false} CloseShares(t: Tree, path: Path)
    requires Good(t) && HasPath(t, path) && At(t, path).Leaf? && path != []
    ensures var r := Close(t, path);
      r.Some? && CloseShared(t, FixOffsets(r.value), path)
  {
    hide Sized;
    hide CloseShared;
    hide Close;
    hide Untouched;
    hide FixOffsets;
    CloseKeeps(t, path);
    CloseSharesAt(t, path);
    var r := Close(t, path).value;
    SizedGrown(r);
    UntouchedFixed(r);
    CloseSharedThen(t, r, FixOffsets(r), path);
  }

  lemma {:induction false} CloseSharesAt(t: Tree, path: Path)
    requires Good(t) && HasPath(t, path) && At(t, path).Leaf? && path != []
    ensures var r := Close(t, path); r.Some? && CloseShared(t, r.value, path)
    decreases |path|
  {
    hide Sized;
    hide Parted;
    hide OnlyKidChanged;
    hide DropKid;
    if |path| == 1 {
      DropKidParts(t, path[0]);
    } else {
      SizedKids(t);
      CloseSharesAt(t.kids[path[0]], path[1..]);
      WithKidChanges(t, path[0], Close(t.kids[path[0]], path[1..]).value);
    }
  }
}
