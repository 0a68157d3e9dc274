/** The root of a window's layout across a run of edits, each followed by FixOffsets. */
module LayoutRoot {
  import opened Common
  import opened Apportion
  import opened LayoutTree
  import opened LayoutResize
  import opened LayoutEdit
  import opened LayoutRun
  import opened LayoutHeap
  import LayoutHeapEdit
  import LayoutHeapResize

  class Layout {
    var root: LayoutCell
    ghost var shape: Shape

    /** The cells are linked up as a tree, exactly tiled, with no split node of fewer than two children. */
    ghost predicate Valid()
      reads this, shape.all
    {
      && LayoutHeapEdit.Rooted(shape) && shape.cell == root
      && Tiled(Abs(shape)) && Branching(Abs(shape))
    }

    ghost function Value(): Tree
      requires Valid()
      reads this, shape.all
    {
      Abs(shape)
    }

    constructor (pane: Option<nat>, at: Vec, size: Vec)
      requires size.x >= PANE_MIN_SIZE && size.y >= PANE_MIN_SIZE
      ensures Valid() && fresh(shape.all) && Value() == Leaf(pane, at, size)
    {
      var leaf := new LayoutCell.Leaf(pane, at, size);
      root := leaf;
      shape := LayoutHeapEdit.Single(leaf);
      new;
      LayoutHeapEdit.SingleShape(leaf);
    }

    /** Splits the leaf at `path`, before or after which the new pane goes. */
    method Split(c: LayoutCell, ghost path: Path, dir: Dir, pane: Option<nat>, first: bool)
      requires Valid() && LayoutHeapEdit.Addresses(shape, path, c)
      modifies this`shape, shape.all
      ensures Valid() && root == old(root) && fresh(shape.all - old(shape.all))
      ensures Value() == Apply(old(Value()), DoSplit(path, dir, pane, first))
      ensures ShareStep(old(Value()), DoSplit(path, dir, pane, first), Value())
    {
      hide ShareStep;
      hide Tiled;
      hide Branching;
      hide Abs;
      hide LayoutEdit.Split;
      hide LayoutHeapEdit.NewPath;
      hide LayoutHeapEdit.StandsAt;
      hide LayoutHeapEdit.HasShape;
      hide LayoutHeapEdit.ShapeAt;
      hide HasPath;
      hide At;
      hide LayoutTree.FixOffsets;
      ApplyKeeps(Value(), DoSplit(path, dir, pane, first));
      var leaf;
      leaf, shape := LayoutHeapEdit.SplitWithOrder(c, dir, pane, first, shape, path);
      if leaf != null {
        root.FixOffsets(shape);
      }
    }

    /** Closes the leaf at `path`; a collapse at the top changes the root. */
    method Close(c: LayoutCell, ghost path: Path)
      requires Valid() && LayoutHeapEdit.Addresses(shape, path, c) && c.isLeaf
      modifies this, shape.all
      ensures Valid() && shape.all <= old(shape.all)
      ensures Value() == Apply(old(Value()), DoClose(path))
      ensures ShareStep(old(Value()), DoClose(path), Value())
    {
      hide ShareStep;
      hide Tiled;
      hide Branching;
      hide Abs;
      hide LayoutEdit.Close;
      hide LayoutHeapEdit.Addresses;
      hide HasPath;
      hide At;
      hide LayoutTree.FixOffsets;
      RootLeaf(Value());
      ApplyKeeps(Value(), DoClose(path));
      root, shape := CloseIn(root, c, shape, path);
      root.FixOffsets(shape);
    }

    /** Divides every node along the axis evenly, but for what subtrees need; the other axis stays. */
    method Equalize(axis: Dir)
      requires Valid()
      modifies shape.all`at, shape.all`size
      ensures Valid() && Value() == Apply(old(Value()), DoEqualize(axis))
      ensures ShareStep(old(Value()), DoEqualize(axis), Value())
    {
      hide ShareStep;
      hide Tiled;
      hide Branching;
      hide Abs;
      hide EqualizeAxis;
      ApplyKeeps(Value(), DoEqualize(axis));
      LayoutHeapEdit.EqualizeAxisRecursive(root, shape, axis);
      root.FixOffsets(shape);
    }

    /** Fits the window to new terminal dimensions, every node divided in proportion to what it was. */
    method Resize(want: Vec)
      requires Valid()
      modifies shape.all`at, shape.all`size
      ensures Valid() && Value() == Apply(old(Value()), DoResize(want))
      ensures ShareStep(old(Value()), DoResize(want), Value())
    {
      hide ShareStep;
      hide Tiled;
      hide Branching;
      hide Abs;
      hide ResizeAll;
      ApplyKeeps(Value(), DoResize(want));
      LayoutHeapResize.ResizeAll(root, shape, want);
    }

    /** Moves cells between two children of the node at `path`; says how many. */
    method Transfer(p: LayoutCell, ghost path: Path, g: nat, d: nat, needed: nat) returns (moved: int)
      requires Valid() && LayoutHeapEdit.Addresses(shape, path, p) && !p.isLeaf
      requires g < |p.children| && d < |p.children| && g != d
      modifies this`shape, shape.all
      ensures Valid() && root == old(root) && shape.all <= old(shape.all)
      ensures Value() == Apply(old(Value()), DoTransfer(path, g, d, needed))
      ensures ShareStep(old(Value()), DoTransfer(path, g, d, needed), Value())
    {
      hide ShareStep;
      hide Tiled;
      hide Branching;
      hide Abs;
      hide TransferAt;
      hide CanTransfer;
      ApplyKeeps(Value(), DoTransfer(path, g, d, needed));
      moved, shape := TransferIn(p, shape, path, g, d, needed);
      root.FixOffsets(shape);
    }
  }

  lemma RootLeaf(t: Tree)
    ensures HasPath(t, []) && At(t, []) == t
    ensures t.Leaf? ==> LayoutTree.FixOffsets(t) == t
  {
  }

  /** Closes a leaf; the root is the one before, unless a collapse at the top left a new one. */
  method CloseIn(was: LayoutCell, c: LayoutCell, ghost s: Shape, ghost path: Path) returns (root: LayoutCell, ghost s': Shape)
    requires LayoutHeapEdit.Addresses(s, path, c) && c.isLeaf && s.cell == was
    modifies s.all
    ensures LayoutHeapEdit.Rooted(s') && s'.cell == root && s'.all <= s.all
    ensures HasPath(old(Abs(s)), path) && At(old(Abs(s)), path).Leaf?
    ensures path == [] ==> Abs(s') == old(Abs(s))
    ensures path != [] ==> Some(Abs(s')) == LayoutEdit.Close(old(Abs(s)), path)
  {
    hide Abs;
    hide LayoutEdit.Close;
    hide LayoutHeapEdit.Recipient;
    hide LayoutHeapEdit.HeirPath;
    hide LayoutHeapEdit.StandsAt;
    hide LayoutHeapEdit.HasShape;
    hide LayoutHeapEdit.ShapeAt;
    hide HasPath;
    hide At;
    LayoutHeapEdit.AddressesParent(s, path, c);
    AbsHead(LayoutHeapEdit.ShapeAt(s, path));
    root := was;
    var result;
    result, s' := LayoutHeapEdit.Close(c, s, path);
    if result != null && result.parent == null {
      root := result;
    }
  }

  method TransferIn(p: LayoutCell, ghost s: Shape, ghost path: Path, g: nat, d: nat, needed: nat)
    returns (moved: int, ghost s': Shape)
    requires LayoutHeapEdit.Addresses(s, path, p) && !p.isLeaf && g < |p.children| && d < |p.children| && g != d
    modifies s.all
    ensures LayoutHeapEdit.Rooted(s') && s'.cell == s.cell && s'.all <= s.all
    ensures CanTransfer(old(Abs(s)), path, g, d) && Abs(s') == TransferAt(old(Abs(s)), path, g, d, needed)
  {
    hide Proper;
    hide Linked;
    hide Abs;
    hide LayoutHeapEdit.Around;
    hide LayoutHeapEdit.Graft;
    hide LayoutHeapEdit.Replace;
    hide LayoutRun.Transfer;
    hide LayoutHeapEdit.HasShape;
    hide LayoutHeapEdit.ShapeAt;
    hide HasPath;
    hide At;
    hide TransferAt;
    LayoutHeapEdit.RootAt(s);
    LayoutHeapEdit.AddressesParent(s, path, p);
    ghost var t := Abs(s);
    ghost var sub := LayoutHeapEdit.ShapeAt(s, path);
    AbsNode(sub);
    OpenShape(sub);
    FamilyAt(sub.kids, Below(sub));
    LayoutHeapEdit.LinkedAround(s, path);
    if path != [] {
      LayoutHeapEdit.RootOutside(s, path);
    }
    moved := LayoutHeapResize.TransferAxisSize(p, sub, g, d, needed);
    s' := LayoutHeapEdit.Graft(s, path, sub);
    LayoutHeapEdit.GraftRooted(s, path, t, sub, g);
    TransferIsLocal(t, path, g, d, needed);
  }

  /** A transfer rebuilds the node it happens in. */
  lemma {:induction false} TransferIsLocal(t: Tree, path: Path, g: nat, d: nat, needed: nat)
    requires CanTransfer(t, path, g, d)
    ensures TransferAt(t, path, g, d, needed)
         == LayoutHeapEdit.Replace(t, path, LayoutRun.Transfer(At(t, path), g, d, needed))
    decreases |path|
  {
    hide LayoutRun.Transfer;
    if path != [] {
      TransferIsLocal(t.kids[path[0]], path[1..], g, d, needed);
    }
  }
}
