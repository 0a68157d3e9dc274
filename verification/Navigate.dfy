/** Directional focus over a tiled layout. */
module Navigate {
  import opened Common
  import opened Numbers
  import opened Apportion
  import opened LayoutTree
  import opened HitTest

  datatype Direction = Up | Down | Left | Right

  /** The axis the focus moves along: rows for up and down, columns for left and right. */
  function MoveAxis(dir: Direction): Dir {
    if dir.Up? || dir.Down? then Horizontal else Vertical
  }

  /** Down and right compare a candidate's near edge, up and left its far edge. */
  predicate Forward(dir: Direction) {
    dir.Down? || dir.Right?
  }

  /** Half-open intersection of two cells' extents on one axis. */
  predicate Overlaps(a: Tree, b: Tree, axis: Dir) {
    Pos(a, axis) < End(b, axis) && Pos(b, axis) < End(a, axis)
  }

  /** The coordinate a candidate's edge must have. */
  function SearchEdge(window: Vec, active: Tree, dir: Direction, wrap: bool): int {
    var axis := MoveAxis(dir);
    if Forward(dir) then (if wrap then 0 else End(active, axis) + 1)
    else (if wrap then On(window, axis) + 1 else Pos(active, axis))
  }

  function CandidateEdge(cell: Tree, dir: Direction): int {
    if Forward(dir) then Pos(cell, MoveAxis(dir)) else End(cell, MoveAxis(dir)) + 1
  }

  /** The two cells share a row. */
  predicate SharesRow(a: Tree, b: Tree) {
    a.at.y < b.at.y + b.size.y && b.at.y < a.at.y + a.size.y
  }

  predicate SharesColumn(a: Tree, b: Tree) {
    a.at.x < b.at.x + b.size.x && b.at.x < a.at.x + a.size.x
  }

  /** The cell lies right across the border in the given direction, or at the far side of the window when wrapping. */
  predicate Reaches(window: Vec, active: Tree, dir: Direction, wrap: bool, cell: Tree) {
    match dir
    case Left =>
      SharesRow(cell, active) && cell.at.x + cell.size.x == if wrap then window.x else active.at.x - 1
    case Right =>
      SharesRow(cell, active) && cell.at.x == if wrap then 0 else active.at.x + active.size.x + 1
    case Up =>
      SharesColumn(cell, active) && cell.at.y + cell.size.y == if wrap then window.y else active.at.y - 1
    case Down =>
      SharesColumn(cell, active) && cell.at.y == if wrap then 0 else active.at.y + active.size.y + 1
  }

  predicate Candidate(window: Vec, activePane: nat, active: Tree, dir: Direction, wrap: bool, cell: Tree): (r: bool)
    ensures r <==> cell.Leaf? && cell.pane.Some? && cell.pane.value != activePane && Reaches(window, active, dir, wrap, cell)
  {
    && cell.Leaf? && cell.pane.Some? && cell.pane.value != activePane
    && CandidateEdge(cell, dir) == SearchEdge(window, active, dir, wrap)
    && Overlaps(cell, active, Cross(MoveAxis(dir)))
  }

  function Recency(points: map<nat, nat>, cell: Tree): nat
    requires cell.Leaf? && cell.pane.Some?
  {
    if cell.pane.value in points then points[cell.pane.value] else 0
  }

  /** Pane p was focused after pane q; a pane without a stamp never was. */
  predicate FocusedAfter(points: map<nat, nat>, p: nat, q: nat) {
    p in points && points[p] > 0 && (q in points ==> points[p] > points[q])
  }

  /** A window in good order: its layout is tiled and every leaf holds a pane of its own. */
  ghost predicate Settled(root: Tree) {
    && Tiled(root)
    && (forall i :: 0 <= i < |Leaves(root)| ==> Leaves(root)[i].Leaf? && Leaves(root)[i].pane.Some?)
    && (forall i, j :: 0 <= i < j < |Leaves(root)| ==> Leaves(root)[i].pane != Leaves(root)[j].pane)
  }

  ghost predicate NoCandidate(root: Tree, window: Vec, activePane: nat, active: Tree, dir: Direction, wrap: bool) {
    forall cell :: cell in Leaves(root) ==> !Candidate(window, activePane, active, dir, wrap, cell)
  }

  /** Leaf k is a candidate, focused after every earlier candidate and not before any later one. */
  ghost predicate Top(leaves: seq<Tree>, window: Vec, points: map<nat, nat>, activePane: nat,
                      active: Tree, dir: Direction, wrap: bool, k: nat) {
    && k < |leaves| && Candidate(window, activePane, active, dir, wrap, leaves[k])
    && forall j :: 0 <= j < |leaves| && Candidate(window, activePane, active, dir, wrap, leaves[j]) ==>
         && !FocusedAfter(points, leaves[j].pane.value, leaves[k].pane.value)
         && (j < k ==> FocusedAfter(points, leaves[k].pane.value, leaves[j].pane.value))
  }

  /** The first in tree order of the candidates that no other was focused after. */
  ghost predicate Best(root: Tree, window: Vec, points: map<nat, nat>, activePane: nat,
                       active: Tree, dir: Direction, wrap: bool, best: Tree) {
    exists k: nat :: Top(Leaves(root), window, points, activePane, active, dir, wrap, k) && Leaves(root)[k] == best
  }

  /** A pane was chosen directly if possible, else by wrapping, else not at all. */
  ghost predicate Outcome(root: Tree, window: Vec, points: map<nat, nat>, activePane: nat,
                          active: Tree, dir: Direction, moved: bool, pane: nat) {
    if moved then
      exists wrap, cell ::
        && Best(root, window, points, activePane, active, dir, wrap, cell)
        && cell.pane.value == pane
        && (wrap ==> NoCandidate(root, window, activePane, active, dir, false))
    else
      forall wrap :: NoCandidate(root, window, activePane, active, dir, wrap)
  }

  // ----- the state focus works on -----

  class Window {
    var root: Tree
    var size: Vec
    var activePane: nat
    /** When each pane was last focused, and the counter those stamps come from. */
    var points: map<nat, nat>
    var counter: nat

    constructor (root: Tree, size: Vec, activePane: nat, points: map<nat, nat>, counter: nat)
      ensures this.root == root && this.size == size && this.activePane == activePane
      ensures this.points == points && this.counter == counter
    {
      this.root, this.size, this.activePane := root, size, activePane;
      this.points, this.counter := points, counter;
    }

    /** The most recently focused candidate, the first one in tree order among equals. */
    method FindDirectional(active: Tree, dir: Direction, wrap: bool) returns (best: Option<Tree>)
      ensures best.None? ==> NoCandidate(root, size, activePane, active, dir, wrap)
      ensures best.Some? ==> Best(root, size, points, activePane, active, dir, wrap, best.value)
    {
      best := None;
      var leaves := Leaves(root);
      ghost var at: nat := 0;
      for k := 0 to |leaves|
        invariant best.None? ==> forall j :: 0 <= j < k ==> !Candidate(size, activePane, active, dir, wrap, leaves[j])
        invariant best.Some? ==>
          at < k && best.value == leaves[at] && Top(leaves[..k], size, points, activePane, active, dir, wrap, at)
      {
        var cell := leaves[k];
        assert leaves[..k + 1] == leaves[..k] + [cell];
        if Candidate(size, activePane, active, dir, wrap, cell) {
          if best.None? || Recency(points, cell) > Recency(points, best.value) {
            best := Some(cell);
            at := k;
          }
        }
      }
      assert leaves[..|leaves|] == leaves;
    }

    /** Makes a pane active and the most recent one. */
    method SetActive(pane: nat)
      modifies this`activePane, this`points, this`counter
      ensures activePane == pane && counter == old(counter) + 1
      ensures points == old(points)[pane := old(counter) + 1]
    {
      activePane := pane;
      counter := counter + 1;
      points := points[pane := counter];
    }

    /** Moves the focus: an adjacent pane if there is one, else one at the opposite window edge. */
    method Focus(dir: Direction) returns (moved: bool)
      modifies this`activePane, this`points, this`counter
      ensures !moved ==> activePane == old(activePane) && points == old(points) && counter == old(counter)
      ensures moved ==> counter == old(counter) + 1 && points == old(points)[activePane := counter]
      ensures var active := FindPane(root, old(activePane));
        if active.None? then !moved
        else Outcome(root, size, old(points), old(activePane), active.value, dir, moved, activePane)
    {
      moved := false;
      var cell := FindPane(root, activePane);
      if |Leaves(root)| <= 1 || cell.None? {
        return;
      }
      var best := FindDirectional(cell.value, dir, false);
      var wrap := best.None?;
      if wrap {
        best := FindDirectional(cell.value, dir, true);
      }
      if best.Some? {
        moved := true;
        SetActive(best.value.pane.value);
        assert Best(root, size, old(points), old(activePane), cell.value, dir, wrap, best.value);
      }
    }
  }

  /** The last leaf in tree order that holds the pane. */
  function FindPane(root: Tree, pane: nat): Option<Tree> {
    LastHolding(Leaves(root), pane)
  }

  function LastHolding(leaves: seq<Tree>, pane: nat): (r: Option<Tree>)
    ensures r.Some? ==> r.value in leaves && r.value.Leaf? && r.value.pane == Some(pane)
    ensures r.None? ==> forall leaf :: leaf in leaves && leaf.Leaf? ==> leaf.pane != Some(pane)
    decreases |leaves|
  {
    if leaves == [] then None
    else
      var last := leaves[|leaves| - 1];
      if last.Leaf? && last.pane == Some(pane) then Some(last) else LastHolding(leaves[..|leaves| - 1], pane)
  }

  // ----- neighbours exist -----

  /** The cell touches the window's edge on that side. */
  predicate AtEdge(root: Tree, cell: Tree, dir: Direction) {
    match dir
    case Left => cell.at.x == root.at.x
    case Right => cell.at.x + cell.size.x == root.at.x + root.size.x
    case Up => cell.at.y == root.at.y
    case Down => cell.at.y + cell.size.y == root.at.y + root.size.y
  }

  function Opposite(dir: Direction): Direction {
    match dir
    case Left => Right
    case Right => Left
    case Up => Down
    case Down => Up
  }

  lemma AtEdgeTouches(root: Tree, cell: Tree, dir: Direction)
    ensures AtEdge(root, cell, dir) <==> Touches(root, cell, MoveAxis(dir), Forward(dir))
    ensures AtEdge(root, cell, Opposite(dir)) <==> Touches(root, cell, MoveAxis(dir), !Forward(dir))
  {
  }

  /** The low (left or top) or high (right or bottom) edge of a cell. */
  predicate Touches(t: Tree, m: Tree, axis: Dir, high: bool) {
    if high then End(m, axis) == End(t, axis) else Pos(m, axis) == Pos(t, axis)
  }

  /** Some leaf touches the edge of t and covers coordinate c on the other axis. */
  ghost predicate EdgeLeaf(t: Tree, axis: Dir, high: bool, c: int) {
    exists m :: m in Leaves(t) && Touches(t, m, axis, high) && Spans(m, Cross(axis), c)
  }

  lemma {:induction false} EdgeLeafUp(t: Tree, i: nat, axis: Dir, high: bool, c: int)
    requires t.Node? && i < |t.kids| && EdgeLeaf(t.kids[i], axis, high, c)
    requires Touches(t, t.kids[i], axis, high)
    ensures EdgeLeaf(t, axis, high, c)
  {
    var m :| m in Leaves(t.kids[i]) && Touches(t.kids[i], m, axis, high) && Spans(m, Cross(axis), c);
    LeavesOfHas(t.kids, i, m);
  }

  /**
   * Along any edge of a tiled cell, each coordinate is covered by a leaf that
   * touches the edge, except for separators, whose two neighbours are covered.
   */
  lemma {:induction false} EdgeCovered(t: Tree, axis: Dir, high: bool, c: int)
    requires Tiled(t) && Spans(t, Cross(axis), c)
    ensures EdgeLeaf(t, axis, high, c) ||
      (&& Spans(t, Cross(axis), c - 1) && EdgeLeaf(t, axis, high, c - 1)
       && Spans(t, Cross(axis), c + 1) && EdgeLeaf(t, axis, high, c + 1))
    decreases t
  {
    if t.Leaf? {
      assert t in Leaves(t);
    } else if t.dir == axis {
      EdgeCoveredAlong(t, high, c);
    } else {
      EdgeCoveredAcross(t, high, c);
    }
  }

  lemma {:induction false} EdgeCoveredAlong(t: Tree, high: bool, c: int)
    requires t.Node? && Tiled(t) && Spans(t, Cross(t.dir), c)
    ensures EdgeLeaf(t, t.dir, high, c) ||
      (&& Spans(t, Cross(t.dir), c - 1) && EdgeLeaf(t, t.dir, high, c - 1)
       && Spans(t, Cross(t.dir), c + 1) && EdgeLeaf(t, t.dir, high, c + 1))
    decreases t, 0
  {
    TiledAbuts(t);
    hide Tiled;
    var i := if high then |t.kids| - 1 else 0;
    EdgeCovered(t.kids[i], t.dir, high, c);
    if EdgeLeaf(t.kids[i], t.dir, high, c) {
      EdgeLeafUp(t, i, t.dir, high, c);
    } else {
      EdgeLeafUp(t, i, t.dir, high, c - 1);
      EdgeLeafUp(t, i, t.dir, high, c + 1);
    }
  }

  lemma {:induction false} EdgeCoveredAcross(t: Tree, high: bool, c: int)
    requires t.Node? && Tiled(t) && Spans(t, t.dir, c)
    ensures EdgeLeaf(t, Cross(t.dir), high, c) ||
      (&& Spans(t, t.dir, c - 1) && EdgeLeaf(t, Cross(t.dir), high, c - 1)
       && Spans(t, t.dir, c + 1) && EdgeLeaf(t, Cross(t.dir), high, c + 1))
    decreases t, 0
  {
    hide Tiled;
    hide EdgeLeaf;
    var ks, d, axis := t.kids, t.dir, Cross(t.dir);
    TiledAbuts(t);
    var i := Locate(ks, d, Pos(t, d), End(t, d), c);
    AbutOrder(ks, d, Pos(t, d), End(t, d), i, i);
    if Spans(ks[i], d, c) {
      EdgeCovered(ks[i], axis, high, c);
      if EdgeLeaf(ks[i], axis, high, c) {
        EdgeLeafUp(t, i, axis, high, c);
      } else {
        EdgeLeafUp(t, i, axis, high, c - 1);
        EdgeLeafUp(t, i, axis, high, c + 1);
      }
    } else {
      AbutOrder(ks, d, Pos(t, d), End(t, d), i, i + 1);
      AbutOrder(ks, d, Pos(t, d), End(t, d), i + 1, i + 1);
      EdgeCovered(ks[i], axis, high, c - 1);
      EdgeLeafUp(t, i, axis, high, c - 1);
      EdgeCovered(ks[i + 1], axis, high, c + 1);
      EdgeLeafUp(t, i + 1, axis, high, c + 1);
    }
  }

  /** A stretch of at least two cells along an edge meets a leaf that touches the edge. */
  lemma {:induction false} EdgeMeets(t: Tree, axis: Dir, high: bool, l: Tree) returns (m: Tree)
    requires Tiled(t) && Size(l, Cross(axis)) >= 2
    requires Pos(t, Cross(axis)) <= Pos(l, Cross(axis)) && End(l, Cross(axis)) <= End(t, Cross(axis))
    ensures m in Leaves(t) && Touches(t, m, axis, high) && Overlaps(m, l, Cross(axis))
  {
    var c := Pos(l, Cross(axis));
    EdgeCovered(t, axis, high, c);
    var at := if EdgeLeaf(t, axis, high, c) then c else c + 1;
    m :| m in Leaves(t) && Touches(t, m, axis, high) && Spans(m, Cross(axis), at);
  }

  /** The cell on the other side of l's border, in the given direction. */
  predicate Adjacent(l: Tree, m: Tree, axis: Dir, high: bool) {
    if high then Pos(m, axis) == End(l, axis) + 1 else End(m, axis) + 1 == Pos(l, axis)
  }

  /** A leaf that does not touch an edge of the tree has an adjacent, overlapping leaf on that side. */
  lemma {:induction false} NeighbourExists(t: Tree, l: Tree, axis: Dir, high: bool) returns (m: Tree)
    requires Tiled(t) && l in Leaves(t) && !Touches(t, l, axis, high)
    ensures m in Leaves(t) && Adjacent(l, m, axis, high) && Overlaps(m, l, Cross(axis))
    decreases t
  {
    TiledAbuts(t);
    hide Tiled;
    var i := LeavesOfMember(t.kids, l);
    if !Touches(t.kids[i], l, axis, high) {
      m := NeighbourExists(t.kids[i], l, axis, high);
      LeavesOfHas(t.kids, i, m);
    } else {
      m := NeighbourAcross(t, i, l, axis, high);
    }
  }

  /** A leaf at its child's edge but not at the node's: the next child begins across the separator. */
  lemma {:induction false} NeighbourAcross(t: Tree, i: nat, l: Tree, axis: Dir, high: bool) returns (m: Tree)
    requires t.Node? && Tiled(t) && i < |t.kids| && l in Leaves(t.kids[i])
    requires Touches(t.kids[i], l, axis, high) && !Touches(t, l, axis, high)
    ensures m in Leaves(t) && Adjacent(l, m, axis, high) && Overlaps(m, l, Cross(axis))
  {
    TiledAbuts(t);
    var j := NextKid(t, i, l, axis, high);
    hide Tiled;
    hide Leaves;
    LeafWithin(t.kids[i], l, Cross(axis));
    LeafExtent(l, Cross(axis));
    m := EdgeMeets(t.kids[j], axis, !high, l);
    LeavesOfHas(t.kids, j, m);
    NodeLeaves(t);
  }

  lemma NodeLeaves(t: Tree)
    requires t.Node?
    ensures Leaves(t) == LeavesOf(t.kids)
  {
  }

  lemma {:induction false} NextKid(t: Tree, i: nat, l: Tree, axis: Dir, high: bool) returns (j: nat)
    requires t.Node? && Tiled(t) && i < |t.kids|
    requires Touches(t.kids[i], l, axis, high) && !Touches(t, l, axis, high)
    ensures j < |t.kids| && t.dir == axis && Adjacent(t.kids[i], t.kids[j], axis, high)
  {
    hide Tiled;
    TiledAbuts(t);
    assert t.dir != axis ==> Pos(t.kids[i], axis) == Pos(t, axis) && End(t.kids[i], axis) == End(t, axis);
    if high {
      j := i + 1;
      assert Pos(t.kids[i + 1], axis) == End(t.kids[i], axis) + 1;
    } else {
      j := i - 1;
      assert Pos(t.kids[j + 1], axis) == End(t.kids[j], axis) + 1;
    }
  }

  lemma LeafExtent(l: Tree, axis: Dir)
    requires l.Leaf? && Tiled(l)
    ensures Size(l, axis) >= PANE_MIN_SIZE
  {
  }

  lemma {:induction false} SettledOther(root: Tree, l: Tree, m: Tree)
    requires Settled(root) && l in Leaves(root) && m in Leaves(root) && l != m
    ensures l.Leaf? && m.Leaf? && m.pane.Some? && l.pane.Some? && m.pane != l.pane
  {
    var i :| 0 <= i < |Leaves(root)| && Leaves(root)[i] == l;
    var j :| 0 <= j < |Leaves(root)| && Leaves(root)[j] == m;
  }

  /**
   * The search without wrapping finds a neighbour exactly when the active
   * pane does not touch that edge of the window.
   */
  lemma {:induction false} DirectFindsUnlessAtEdge(root: Tree, window: Vec, active: Tree, dir: Direction)
    requires Settled(root) && active in Leaves(root)
    ensures active.Leaf? && active.pane.Some?
    ensures NoCandidate(root, window, active.pane.value, active, dir, false)
            <==> AtEdge(root, active, dir)
  {
    AtEdgeTouches(root, active, dir);
    var axis, high := MoveAxis(dir), Forward(dir);
    if !Touches(root, active, axis, high) {
      var m := NeighbourExists(root, active, axis, high);
      LeafWithin(root, active, axis);
      LeafExtent(active, axis);
      LeafWithin(root, m, axis);
      LeafExtent(m, axis);
      SettledOther(root, active, m);
      assert Candidate(window, active.pane.value, active, dir, false, m);
    } else {
      forall cell | cell in Leaves(root) ensures !Candidate(window, active.pane.value, active, dir, false, cell) {
        LeafWithin(root, cell, axis);
        LeafExtent(cell, axis);
      }
    }
  }

  /** Wrapping finds a pane exactly when the active pane does not reach the opposite window edge. */
  lemma {:induction false} WrapFindsUnlessSpanning(root: Tree, active: Tree, dir: Direction)
    requires Settled(root) && active in Leaves(root) && root.at == Vec(0, 0)
    requires AtEdge(root, active, dir)
    ensures active.Leaf? && active.pane.Some?
    ensures NoCandidate(root, root.size, active.pane.value, active, dir, true)
            <==> AtEdge(root, active, Opposite(dir))
  {
    AtEdgeTouches(root, active, dir);
    var axis, high := MoveAxis(dir), Forward(dir);
    LeafWithin(root, active, axis);
    LeafWithin(root, active, Cross(axis));
    LeafExtent(active, Cross(axis));
    if !Touches(root, active, axis, !high) {
      var m := EdgeMeets(root, axis, !high, active);
      SettledOther(root, active, m);
      LeafWithin(root, m, axis);
      assert Candidate(root.size, active.pane.value, active, dir, true, m);
    } else {
      forall cell | cell in Leaves(root) ensures !Candidate(root.size, active.pane.value, active, dir, true, cell) {
        if cell != active {
          SpanningExcludes(root, active, cell, axis);
        }
      }
    }
  }

  /** A leaf that spans the whole tree on one axis shares no row (or column) with any other leaf. */
  lemma {:induction false} SpanningExcludes(t: Tree, l: Tree, m: Tree, axis: Dir)
    requires Tiled(t) && l in Leaves(t) && m in Leaves(t) && l != m
    requires Touches(t, l, axis, false) && Touches(t, l, axis, true)
    ensures !Overlaps(m, l, Cross(axis))
  {
    LeafWithin(t, m, axis);
    LeafExtent(m, axis);
    if Overlaps(m, l, Cross(axis)) {
      var p := Along(axis, Pos(m, axis), Max(Pos(m, Cross(axis)), Pos(l, Cross(axis))));
      LeafWithin(t, l, Cross(axis));
      LeafExtent(l, Cross(axis));
      LeafWithin(t, m, Cross(axis));
      LeafExtent(m, Cross(axis));
      InsideAxes(m, p, axis);
      InsideAxes(l, p, axis);
      LeafFoundUnique(t, p, m);
      LeafFoundUnique(t, p, l);
    }
  }

  /**
   * Focus moves, directly or by wrapping, exactly when the active pane does
   * not span the window along the direction of movement; and then to another pane.
   */
  lemma {:induction false} FocusMovesUnlessSpanning(root: Tree, active: Tree, dir: Direction,
                                                    points: map<nat, nat>, moved: bool, pane: nat)
    requires Settled(root) && active in Leaves(root) && active.Leaf? && active.pane.Some? && root.at == Vec(0, 0)
    requires Outcome(root, root.size, points, active.pane.value, active, dir, moved, pane)
    ensures moved <==> !(AtEdge(root, active, dir) && AtEdge(root, active, Opposite(dir)))
    ensures moved ==> pane != active.pane.value
  {
    hide Settled;
    hide Candidate;
    DirectFindsUnlessAtEdge(root, root.size, active, dir);
    if AtEdge(root, active, dir) {
      WrapFindsUnlessSpanning(root, active, dir);
    }
    if moved {
      MovedElsewhere(root, active, dir, points, pane);
    } else {
      assert NoCandidate(root, root.size, active.pane.value, active, dir, false);
      assert NoCandidate(root, root.size, active.pane.value, active, dir, true);
    }
  }

  lemma MovedElsewhere(root: Tree, active: Tree, dir: Direction, points: map<nat, nat>, pane: nat)
    requires active.Leaf? && active.pane.Some?
    requires Outcome(root, root.size, points, active.pane.value, active, dir, true, pane)
    ensures pane != active.pane.value
    ensures !NoCandidate(root, root.size, active.pane.value, active, dir, false)
      || !NoCandidate(root, root.size, active.pane.value, active, dir, true)
  {
  }
}
