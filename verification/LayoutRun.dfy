/** Whole runs of layout operations on one window, each followed by FixOffsets at the root. */
module LayoutRun {
  import opened Common
  import opened Numbers
  import opened Apportion
  import opened LayoutTree
  import opened LayoutResize
  import opened LayoutEdit
  import opened LayoutShare
  import opened LayoutOutcome

  // ----- moving cells between siblings -----

  /** How many cells a sibling gives up when another one needs some. */
  function Available(donor: Tree, axis: Dir, needed: nat): int {
    Min(Slack(donor, axis), needed)
  }

  /**
   * Child g of a node grows by what child d can give: each is resized from
   * the edge that faces the other.
   */
  function Transfer(t: Tree, g: nat, d: nat, needed: nat): Tree
    requires t.Node? && g < |t.kids| && d < |t.kids|
  {
    var n := Available(t.kids[d], t.dir, needed);
    var (growing, giving) := if d < g then (Start, End) else (End, Start);
    if n == 0 || g == d then t
    else
      var grown := ResizeToAxisFromEdge(t.kids[g], t.dir, Size(t.kids[g], t.dir) + n, growing);
      var less := ResizeToAxisFromEdge(t.kids[d], t.dir, Size(t.kids[d], t.dir) - n, giving);
      Node(t.dir, t.kids[g := grown][d := less], t.at, t.size)
  }

  function TransferAt(t: Tree, path: Path, g: nat, d: nat, needed: nat): Tree
    requires HasPath(t, path) && At(t, path).Node? && g < |At(t, path).kids| && d < |At(t, path).kids|
    decreases |path|
  {
    if path == [] then Transfer(t, g, d, needed)
    else WithKid(t, path[0], TransferAt(t.kids[path[0]], path[1..], g, d, needed))
  }

  /** Child i moved the edge that faces child j, and kept the other axis. */
  ghost predicate MovedFacing(t: Tree, r: Tree, i: nat, j: nat)
    requires t.Node? && r.Node? && i < |t.kids| && i < |r.kids|
  {
    && EdgeMoved(t.kids[i], r.kids[i], t.dir, if j < i then Start else End)
    && SameOn(t.kids[i], r.kids[i], Cross(t.dir))
  }

  /** The node keeps its extent and its shape; one child gains exactly what the other gives, down to its minimum. */
  lemma {:induction false} TransferKeeps(t: Tree, g: nat, d: nat, needed: nat)
    requires Sized(t) && t.Node? && g < |t.kids| && d < |t.kids| && g != d
    ensures var r := Transfer(t, g, d, needed);
      var n := Min(Size(t.kids[d], t.dir) - MinSize(t.kids[d], t.dir), needed);
      && Sized(r) && Erase(r) == Erase(t) && r.at == t.at && r.size == t.size
      && r.Node? && |r.kids| == |t.kids|
      && Size(r.kids[g], t.dir) == Size(t.kids[g], t.dir) + n
      && Size(r.kids[d], t.dir) == Size(t.kids[d], t.dir) - n
      && MovedFacing(t, r, g, d) && MovedFacing(t, r, d, g)
      && forall i :: 0 <= i < |t.kids| && i != g && i != d ==> r.kids[i] == t.kids[i]
  {
    hide EdgeMoved;
    hide SameOn;
    hide Sized;
    hide ResizeToAxisFromEdge;
    hide Slack;
    hide MinSize;
    hide Erase;
    SizedKids(t);
    SlackIsSizeMinusMin(t.kids[d], t.dir);
    SizedAboveMin(t.kids[d], t.dir);
    SizedAboveMin(t.kids[g], t.dir);
    var n := Available(t.kids[d], t.dir, needed);
    if n > 0 {
      var (growing, giving) := if d < g then (Start, End) else (End, Start);
      var r := Transfer(t, g, d, needed);
      EdgeDragTiles(t.kids[g], t.dir, Size(t.kids[g], t.dir) + n, growing);
      EdgeDragTiles(t.kids[d], t.dir, Size(t.kids[d], t.dir) - n, giving);
      TransferGood(t, r, g, d, n);
    } else {
      StillFacing(t, g, d);
      StillFacing(t, d, g);
    }
  }

  lemma StillFacing(t: Tree, i: nat, j: nat)
    requires t.Node? && i < |t.kids|
    ensures MovedFacing(t, t, i, j)
  {
    EdgeMovedSelf(t.kids[i], t.dir, if j < i then Start else End);
    SameOnSelf(t.kids[i], Cross(t.dir));
  }

  lemma FacingThen(t: Tree, r: Tree, u: Tree, i: nat, j: nat)
    requires t.Node? && r.Node? && i < |t.kids| && i < |r.kids| && MovedFacing(t, r, i, j) && Untouched(r, u)
    ensures u.Node? && |u.kids| == |r.kids| && MovedFacing(t, u, i, j)
  {
    hide EdgeMoved;
    hide SameOn;
    UntouchedKids(r, u);
    BothAxes(r.kids[i], u.kids[i], t.dir);
    EdgeMovedThen(t.kids[i], r.kids[i], u.kids[i], t.dir, if j < i then Start else End);
    SameOnTransitive(t.kids[i], r.kids[i], u.kids[i], Cross(t.dir));
  }

  lemma BothAxes(t: Tree, u: Tree, axis: Dir)
    requires Untouched(t, u)
    ensures SameOn(t, u, axis) && SameOn(t, u, Cross(axis))
  {
  }

  lemma {:induction false} TransferGood(t: Tree, r: Tree, g: nat, d: nat, n: int)
    requires Sized(t) && t.Node? && g < |t.kids| && d < |t.kids| && g != d
    requires r.Node? && r.dir == t.dir && r.size == t.size && |r.kids| == |t.kids|
    requires Size(r.kids[g], t.dir) == Size(t.kids[g], t.dir) + n && Size(r.kids[d], t.dir) == Size(t.kids[d], t.dir) - n
    requires forall i :: 0 <= i < |t.kids| && i != g && i != d ==> r.kids[i] == t.kids[i]
    requires forall i :: i in {g, d} ==>
      && Sized(r.kids[i]) && Erase(r.kids[i]) == Erase(t.kids[i])
      && Size(r.kids[i], Cross(t.dir)) == Size(t.kids[i], Cross(t.dir))
    ensures Sized(r) && Erase(r) == Erase(t)
  {
    hide Sized;
    hide Erase;
    hide Sum;
    SizedKids(t);
    TransferSizes(t, r, g, d, n);
    forall i | 0 <= i < |t.kids|
      ensures Sized(r.kids[i]) && Erase(r.kids[i]) == Erase(t.kids[i])
      ensures Size(r.kids[i], Cross(t.dir)) == Size(t.kids[i], Cross(t.dir))
    {
      assert i == g || i == d ==> i in {g, d};
    }
    SameKidsErase(t, r);
    SizedFromKids(r, Sizes(r.kids, t.dir));
  }

  lemma {:induction false} TransferSizes(t: Tree, r: Tree, g: nat, d: nat, n: int)
    requires t.Node? && r.Node? && g < |t.kids| && d < |t.kids| && g != d && |r.kids| == |t.kids|
    requires Size(r.kids[g], t.dir) == Size(t.kids[g], t.dir) + n && Size(r.kids[d], t.dir) == Size(t.kids[d], t.dir) - n
    requires forall i :: 0 <= i < |t.kids| && i != g && i != d ==> r.kids[i] == t.kids[i]
    ensures Sum(Sizes(r.kids, t.dir)) == Sum(Sizes(t.kids, t.dir))
  {
    hide Sum;
    var s := Sizes(t.kids, t.dir);
    SumUpdate(s, g, s[g] + n);
    SumUpdate(s[g := s[g] + n], d, s[d] - n);
    assert Sizes(r.kids, t.dir) == s[g := s[g] + n][d := s[d] - n];
  }

  lemma SameKidsErase(t: Tree, r: Tree)
    requires t.Node? && r.Node? && t.dir == r.dir && |r.kids| == |t.kids|
    requires forall i :: 0 <= i < |t.kids| ==> Erase(r.kids[i]) == Erase(t.kids[i])
    ensures Erase(r) == Erase(t)
  {
    assert EraseAll(r.kids) == EraseAll(t.kids);
  }

  lemma {:induction false} TransferAtKeeps(t: Tree, path: Path, g: nat, d: nat, needed: nat)
    requires Good(t) && HasPath(t, path) && At(t, path).Node? && g < |At(t, path).kids| && d < |At(t, path).kids|
    ensures var r := TransferAt(t, path, g, d, needed);
      Good(r) && r.at == t.at && r.size == t.size && Panes(r) == Panes(t)
    decreases |path|
  {
    hide Sized;
    hide Transfer;
    hide Panes;
    hide Branching;
    var r := TransferAt(t, path, g, d, needed);
    if path == [] {
      if g != d {
        TransferKeeps(t, g, d, needed);
        SameErase(t, r);
      } else {
        TransferSelf(t, g, needed);
      }
    } else {
      var i := path[0];
      GoodKids(t);
      TransferAtKeeps(t.kids[i], path[1..], g, d, needed);
      var kid := TransferAt(t.kids[i], path[1..], g, d, needed);
      WithKidGood(t, i, kid);
      WithKidPanes(t, i, kid);
    }
  }

  lemma TransferSelf(t: Tree, g: nat, needed: nat)
    requires t.Node? && g < |t.kids|
    ensures Transfer(t, g, g, needed) == t
  {
  }

  lemma GoodKids(t: Tree)
    requires Good(t) && t.Node?
    ensures forall i :: 0 <= i < |t.kids| ==> Good(t.kids[i])
  {
    SizedKids(t);
  }

  // ----- runs -----

  datatype Op =
    | DoSplit(path: Path, dir: Dir, pane: Option<nat>, first: bool)
    | DoClose(path: Path)
    | DoEqualize(axis: Dir)
    | DoResize(want: Vec)
    | DoTransfer(path: Path, g: nat, d: nat, needed: nat)

  predicate CanTransfer(t: Tree, path: Path, g: nat, d: nat) {
    HasPath(t, path) && At(t, path).Node? && g < |At(t, path).kids| && d < |At(t, path).kids|
  }

  function Apply(t: Tree, op: Op): Tree {
    match op
    case DoSplit(path, dir, pane, first) =>
      if !HasPath(t, path) then t
      else
        var r := Split(t, path, dir, pane, first);
        if r.Some? then FixOffsets(r.value) else t
    case DoClose(path) =>
      if !HasPath(t, path) || At(t, path).Node? then t
      else
        var r := Close(t, path);
        if r.Some? then FixOffsets(r.value) else t
    case DoEqualize(axis) => FixOffsets(EqualizeAxis(t, axis))
    case DoResize(want) => ResizeAll(t, want)
    case DoTransfer(path, g, d, needed) =>
      if CanTransfer(t, path, g, d) then FixOffsets(TransferAt(t, path, g, d, needed)) else t
  }

  function Run(t: Tree, ops: seq<Op>): Tree
    decreases |ops|
  {
    if ops == [] then t else Apply(Run(t, ops[..|ops| - 1]), ops[|ops| - 1])
  }

  /** What each operation does to the order of panes. */
  ghost predicate PaneStep(t: Tree, op: Op, r: Tree) {
    match op
    case DoSplit(path, dir, pane, first) =>
      if HasPath(t, path) && CanSplit(At(t, path), dir)
      then InsertedAt(Panes(t), Panes(r), PaneIndex(t, path) + (if first then 0 else 1), pane)
      else r == t
    case DoClose(path) =>
      if HasPath(t, path) && At(t, path).Leaf? && path != []
      then RemovedAt(Panes(t), Panes(r), PaneIndex(t, path))
      else r == t
    case _ => Panes(r) == Panes(t)
  }

  /** How each operation shares out cells; the transfer's own contract says what it moves. */
  ghost predicate ShareStep(t: Tree, op: Op, r: Tree) {
    match op
    case DoSplit(path, dir, _, first) =>
      HasPath(t, path) && CanSplit(At(t, path), dir) ==> SplitShared(t, r, path, dir, first)
    case DoClose(path) =>
      HasPath(t, path) && At(t, path).Leaf? && path != [] ==> CloseShared(t, r, path)
    case DoEqualize(axis) => LevelOn(r, axis) && SameOn(t, r, Cross(axis))
    case DoResize(_) => Rescaled(t, r, Vertical) && Rescaled(t, r, Horizontal)
    case DoTransfer(path, g, d, needed) => CanTransfer(t, path, g, d) ==> TransferShared(t, r, path, g, d, needed)
  }

  /** Cells go from one child to another of the node at `path`; nothing else changes. */
  ghost predicate TransferShared(t: Tree, r: Tree, path: Path, g: nat, d: nat, needed: nat)
    requires CanTransfer(t, path, g, d)
    decreases |path|
  {
    if path != [] then
      && OnlyKidChanged(t, r, path[0])
      && TransferShared(t.kids[path[0]], r.kids[path[0]], path[1..], g, d, needed)
    else if g == d then Untouched(t, r)
    else
      var n := Min(Size(t.kids[d], t.dir) - MinSize(t.kids[d], t.dir), needed);
      && r.Node? && r.dir == t.dir && r.size == t.size && |r.kids| == |t.kids|
      && Size(r.kids[g], t.dir) == Size(t.kids[g], t.dir) + n
      && Size(r.kids[d], t.dir) == Size(t.kids[d], t.dir) - n
      && MovedFacing(t, r, g, d) && MovedFacing(t, r, d, g)
      && forall i :: 0 <= i < |t.kids| && i != g && i != d ==> Untouched(t.kids[i], r.kids[i])
  }

  lemma {:induction false} TransferShares(t: Tree, path: Path, g: nat, d: nat, needed: nat)
    requires Good(t) && CanTransfer(t, path, g, d)
    ensures TransferShared(t, TransferAt(t, path, g, d, needed), path, g, d, needed)
    decreases |path|
  {
    hide Sized;
    hide Transfer;
    hide MinSize;
    hide Branching;
    hide MovedFacing;
    hide Untouched;
    if path != [] {
      GoodKids(t);
      TransferShares(t.kids[path[0]], path[1..], g, d, needed);
      WithKidChanges(t, path[0], TransferAt(t.kids[path[0]], path[1..], g, d, needed));
    } else if g == d {
      TransferSelf(t, g, needed);
      UntouchedSelf(t);
    } else {
      TransferKeeps(t, g, d, needed);
      TransferDir(t, g, d, needed);
      forall i | 0 <= i < |t.kids| && i != g && i != d
        ensures Untouched(t.kids[i], Transfer(t, g, d, needed).kids[i])
      {
        UntouchedSelf(t.kids[i]);
      }
    }
  }

  lemma TransferDir(t: Tree, g: nat, d: nat, needed: nat)
    requires t.Node? && g < |t.kids| && d < |t.kids|
    ensures var r := Transfer(t, g, d, needed); r.Node? && r.dir == t.dir
  {
  }

  lemma {:induction false} TransferSharedThen(t: Tree, r: Tree, u: Tree, path: Path, g: nat, d: nat, needed: nat)
    requires CanTransfer(t, path, g, d) && TransferShared(t, r, path, g, d, needed) && Untouched(r, u)
    ensures TransferShared(t, u, path, g, d, needed)
    decreases |path|
  {
    hide MovedFacing;
    hide Untouched;
    hide OnlyKidChanged;
    hide MinSize;
    if path != [] {
      OnlyKidThen(t, r, u, path[0]);
      OnlyKidNode(t, r, path[0]);
      OnlyKidNode(t, u, path[0]);
      TransferSharedThen(t.kids[path[0]], r.kids[path[0]], u.kids[path[0]], path[1..], g, d, needed);
    } else if g == d {
      UntouchedTransitive(t, r, u);
    } else {
      UntouchedKids(r, u);
      UntouchedLeaf(r.kids[g], u.kids[g]);
      UntouchedLeaf(r.kids[d], u.kids[d]);
      FacingThen(t, r, u, g, d);
      FacingThen(t, r, u, d, g);
      forall i | 0 <= i < |t.kids| && i != g && i != d ensures Untouched(t.kids[i], u.kids[i]) {
        UntouchedTransitive(t.kids[i], r.kids[i], u.kids[i]);
      }
    }
  }

  lemma {:induction false} EqualizeShares(t: Tree, axis: Dir)
    requires Good(t)
    ensures var r := FixOffsets(EqualizeAxis(t, axis)); LevelOn(r, axis) && SameOn(t, r, Cross(axis))
  {
    hide Sized;
    hide LevelOn;
    hide SameOn;
    hide EqualizeAxis;
    hide Erase;
    var e := EqualizeAxis(t, axis);
    EqualizeAxisLevels(t, axis);
    EqualizeAxisTiles(t, axis);
    SizedGrown(e);
    PlaceSame(e, e.at, axis);
    PlaceSame(e, e.at, Cross(axis));
    PlaceErase(e, e.at);
    LevelSame(e, FixOffsets(e), axis);
    SameOnTransitive(t, e, FixOffsets(e), Cross(axis));
  }

  /** Every operation shares out cells as stated. */
  lemma {:induction false} ApplyShares(t: Tree, op: Op)
    requires Tiled(t) && Branching(t)
    ensures ShareStep(t, op, Apply(t, op))
  {
    hide Tiled;
    hide Good;
    hide Branching;
    hide FixOffsets;
    hide CanSplit;
    hide Split;
    hide Close;
    hide HasPath;
    hide At;
    hide SplitShared;
    hide CloseShared;
    hide TransferShared;
    hide TransferAt;
    hide EqualizeAxis;
    hide ResizeAll;
    hide LevelOn;
    hide SameOn;
    hide Rescaled;
    TiledGood(t);
    match op
    case DoSplit(path, dir, pane, first) =>
      if HasPath(t, path) && CanSplit(At(t, path), dir) {
        SplitShares(t, path, dir, pane, first);
      }
    case DoClose(path) =>
      if HasPath(t, path) && At(t, path).Leaf? && path != [] {
        CloseShares(t, path);
      }
    case DoEqualize(axis) => EqualizeShares(t, axis);
    case DoResize(want) => ResizeAllTiles(t, want);
    case DoTransfer(path, g, d, needed) =>
      if CanTransfer(t, path, g, d) {
        TransferShares(t, path, g, d, needed);
        UntouchedFixed(TransferAt(t, path, g, d, needed));
        TransferSharedThen(t, TransferAt(t, path, g, d, needed), FixOffsets(TransferAt(t, path, g, d, needed)), path, g, d, needed);
      }
  }

  /** The window's box after an operation: only a resize changes it, to the wanted extent or the minimum. */
  function BoxAfter(t: Tree, op: Op): Vec {
    if op.DoResize? then Clamp(t, op.want) else t.size
  }

  /** Exactly tiled, every split node with two children or more, and the box as the operation says. */
  ghost predicate Kept(t: Tree, op: Op, r: Tree) {
    Tiled(r) && Branching(r) && r.at == t.at && r.size == BoxAfter(t, op)
  }

  lemma {:induction false} ApplySplit(t: Tree, path: Path, dir: Dir, pane: Option<nat>, first: bool)
    requires Tiled(t) && Branching(t) && HasPath(t, path)
    ensures var op := DoSplit(path, dir, pane, first); Kept(t, op, Apply(t, op)) && PaneStep(t, op, Apply(t, op))
  {
    hide Tiled;
    hide Good;
    hide Branching;
    hide FixOffsets;
    hide Panes;
    hide InsertedAt;
    hide CanSplit;
    hide Split;
    hide PaneIndex;
    hide HasPath;
    hide At;
    TiledGood(t);
    SplitKeeps(t, path, dir, pane, first);
    var r := Split(t, path, dir, pane, first);
    if r.Some? {
      FixKeeps(r.value);
    }
  }

  lemma {:induction false} ApplyClose(t: Tree, path: Path)
    requires Tiled(t) && Branching(t) && HasPath(t, path) && At(t, path).Leaf?
    ensures var op := DoClose(path); Kept(t, op, Apply(t, op)) && PaneStep(t, op, Apply(t, op))
  {
    hide Tiled;
    hide Good;
    hide Branching;
    hide FixOffsets;
    hide Panes;
    hide RemovedAt;
    hide Close;
    hide PaneIndex;
    hide HasPath;
    hide At;
    TiledGood(t);
    CloseKeeps(t, path);
    var r := Close(t, path);
    if r.Some? {
      FixKeeps(r.value);
    }
  }

  lemma {:induction false} ApplyEqualize(t: Tree, axis: Dir)
    requires Tiled(t) && Branching(t)
    ensures var op := DoEqualize(axis); Kept(t, op, Apply(t, op)) && PaneStep(t, op, Apply(t, op))
  {
    hide Tiled;
    hide Good;
    hide Branching;
    hide FixOffsets;
    hide Panes;
    hide EqualizeAxis;
    TiledGood(t);
    EqualizeAxisGood(t, axis);
    FixKeeps(EqualizeAxis(t, axis));
  }

  lemma {:induction false} ApplyResize(t: Tree, want: Vec)
    requires Tiled(t) && Branching(t)
    ensures var op := DoResize(want); Kept(t, op, Apply(t, op)) && PaneStep(t, op, Apply(t, op))
  {
    hide Tiled;
    hide Good;
    hide Branching;
    hide Panes;
    hide ResizeAll;
    TiledGood(t);
    ResizeAllTiles(t, want);
    ResizeAllAt(t, want);
    SameErase(t, ResizeAll(t, want));
  }

  lemma ResizeAllAt(t: Tree, want: Vec)
    ensures ResizeAll(t, want).at == t.at
  {
  }

  lemma {:induction false} ApplyTransfer(t: Tree, path: Path, g: nat, d: nat, needed: nat)
    requires Tiled(t) && Branching(t) && CanTransfer(t, path, g, d)
    ensures var op := DoTransfer(path, g, d, needed); Kept(t, op, Apply(t, op)) && PaneStep(t, op, Apply(t, op))
  {
    hide Tiled;
    hide Good;
    hide Branching;
    hide FixOffsets;
    hide Panes;
    hide HasPath;
    hide At;
    hide TransferAt;
    TiledGood(t);
    TransferAtKeeps(t, path, g, d, needed);
    FixKeeps(TransferAt(t, path, g, d, needed));
  }

  /**
   * One operation keeps the tiling, changes the window's box as stated, moves
   * exactly one pane in or out of the order, and shares out cells as stated.
   */
  lemma {:induction false} ApplyKeeps(t: Tree, op: Op)
    requires Tiled(t) && Branching(t)
    ensures Kept(t, op, Apply(t, op)) && PaneStep(t, op, Apply(t, op)) && ShareStep(t, op, Apply(t, op))
  {
    hide Tiled;
    hide Branching;
    hide Panes;
    hide ShareStep;
    ApplyShares(t, op);
    match op
    case DoSplit(path, dir, pane, first) =>
      if HasPath(t, path) {
        ApplySplit(t, path, dir, pane, first);
      }
    case DoClose(path) =>
      if HasPath(t, path) && At(t, path).Leaf? {
        ApplyClose(t, path);
      }
    case DoEqualize(axis) =>
      ApplyEqualize(t, axis);
    case DoResize(want) =>
      ApplyResize(t, want);
    case DoTransfer(path, g, d, needed) =>
      if CanTransfer(t, path, g, d) {
        ApplyTransfer(t, path, g, d, needed);
      }
  }

  /**
   * Whatever is split, closed, equalized, resized and moved, the window stays
   * exactly tiled in its place, its box changes only by resizes, the order
   * of panes only by the one pane split off or closed, and each operation
   * shares out cells as it should.
   */
  lemma {:induction false} RunTiles(t: Tree, ops: seq<Op>)
    requires t.Leaf? && t.size.x >= PANE_MIN_SIZE && t.size.y >= PANE_MIN_SIZE
    ensures var r := Run(t, ops); Tiled(r) && Branching(r) && r.at == t.at
    ensures ops != [] ==>
      var before, op := Run(t, ops[..|ops| - 1]), ops[|ops| - 1];
      Kept(before, op, Run(t, ops)) && PaneStep(before, op, Run(t, ops)) && ShareStep(before, op, Run(t, ops))
    decreases |ops|
  {
    if ops != [] {
      RunTiles(t, ops[..|ops| - 1]);
      hide Apply;
      ApplyKeeps(Run(t, ops[..|ops| - 1]), ops[|ops| - 1]);
    }
  }
}
