/** Finding the pane or the border under a point. */
module HitTest {
  import opened Common
  import opened Numbers
  import opened Apportion
  import opened LayoutTree

  function End(t: Tree, axis: Dir): int {
    Pos(t, axis) + Size(t, axis)
  }

  predicate Spans(t: Tree, axis: Dir, c: int) {
    Pos(t, axis) <= c < End(t, axis)
  }

  predicate Inside(t: Tree, p: Vec) {
    Spans(t, Vertical, p.x) && Spans(t, Horizontal, p.y)
  }

  function Leaves(t: Tree): (r: seq<Tree>)
    decreases t
  {
    match t
    case Leaf(_, _, _) => [t]
    case Node(_, ks, _, _) => LeavesOf(ks)
  }

  function LeavesOf(ks: seq<Tree>): (r: seq<Tree>)
    decreases ks
  {
    if ks == [] then [] else Leaves(ks[0]) + LeavesOf(ks[1..])
  }

  function FindLeafAt(t: Tree, p: Vec): Option<Tree>
    decreases t
  {
    match t
    case Leaf(_, _, _) => if Inside(t, p) then Some(t) else None
    case Node(_, ks, _, _) => FindLeafIn(ks, p)
  }

  function FindLeafIn(ks: seq<Tree>, p: Vec): Option<Tree>
    decreases ks
  {
    if ks == [] then None
    else
      var hit := FindLeafAt(ks[0], p);
      if hit.Some? then hit else FindLeafIn(ks[1..], p)
  }

  /** The two children on either side of a border, and their parent's split direction. */
  datatype Border = Border(left: Tree, right: Tree, dir: Dir)

  function FindBorderAt(t: Tree, p: Vec): Option<Border>
    decreases t
  {
    match t
    case Leaf(_, _, _) => None
    case Node(d, ks, _, _) =>
      var here := if Spans(t, Cross(d), On(p, Cross(d))) then BorderAmong(ks, d, On(p, d)) else None;
      if here.Some? then here else FindBorderIn(ks, p)
  }

  /** The first pair of neighbours whose separator is at coordinate c. */
  function BorderAmong(ks: seq<Tree>, d: Dir, c: int): Option<Border>
    decreases |ks|
  {
    if |ks| < 2 then None
    else if c == End(ks[0], d) then Some(Border(ks[0], ks[1], d))
    else BorderAmong(ks[1..], d, c)
  }

  function FindBorderIn(ks: seq<Tree>, p: Vec): Option<Border>
    decreases ks
  {
    if ks == [] then None
    else
      var hit := FindBorderAt(ks[0], p);
      if hit.Some? then hit else FindBorderIn(ks[1..], p)
  }

  // ----- geometry of a tiled node -----

  /** Children abut with one cell between them and cover their node end to end. */
  ghost predicate Abutting(ks: seq<Tree>, d: Dir, low: int, high: int) {
    && ks != []
    && Pos(ks[0], d) == low
    && End(ks[|ks| - 1], d) == high
    && (forall i :: 0 <= i < |ks| ==> Size(ks[i], d) >= 1)
    && (forall i :: 0 <= i < |ks| - 1 ==> Pos(ks[i + 1], d) == End(ks[i], d) + 1)
  }

  lemma {:induction false} TiledAbuts(t: Tree)
    requires t.Node? && Tiled(t)
    ensures Abutting(t.kids, t.dir, Pos(t, t.dir), End(t, t.dir))
    ensures forall i :: 0 <= i < |t.kids| ==> Tiled(t.kids[i])
    ensures forall i :: 0 <= i < |t.kids| ==>
      Pos(t.kids[i], Cross(t.dir)) == Pos(t, Cross(t.dir)) && End(t.kids[i], Cross(t.dir)) == End(t, Cross(t.dir))
  {
    SizedKids(t);
    PlacedKids(t);
    forall i | 0 <= i < |t.kids| ensures Size(t.kids[i], t.dir) >= 1 {
      SizedAboveMin(t.kids[i], t.dir);
      SizedGrown(t.kids[i]);
      MinSizeFloor(t.kids[i], t.dir);
    }
    hide Sized;
    hide Placed;
    OffsetsAbut(t.kids, t.dir, Pos(t, t.dir), End(t, t.dir));
  }

  lemma {:induction false} PlacedKids(t: Tree)
    requires t.Node? && Placed(t)
    ensures forall i :: 0 <= i < |t.kids| ==> Placed(t.kids[i])
    ensures forall i :: 0 <= i < |t.kids| ==> Pos(t.kids[i], t.dir) == Offset(t.kids, t.dir, Pos(t, t.dir), i)
    ensures forall i :: 0 <= i < |t.kids| ==> Pos(t.kids[i], Cross(t.dir)) == Pos(t, Cross(t.dir))
  {
  }

  lemma {:induction false} OffsetsAbut(ks: seq<Tree>, d: Dir, low: int, high: int)
    requires ks != [] && forall i :: 0 <= i < |ks| ==> Size(ks[i], d) >= 1
    requires forall i :: 0 <= i < |ks| ==> Pos(ks[i], d) == Offset(ks, d, low, i)
    requires low + Sum(Sizes(ks, d)) + |ks| - 1 == high
    ensures Abutting(ks, d, low, high)
  {
    var s := Sizes(ks, d);
    forall i | 0 <= i < |ks| - 1 ensures Pos(ks[i + 1], d) == End(ks[i], d) + 1 {
      SumPrefix(s, i);
    }
    SumPrefix(s, |ks| - 1);
    assert s[..|ks|] == s && s[..0] == [];
  }

  lemma {:induction false} AbutOrder(ks: seq<Tree>, d: Dir, low: int, high: int, i: nat, j: nat)
    requires Abutting(ks, d, low, high) && i <= j < |ks|
    ensures low <= Pos(ks[i], d) && End(ks[j], d) <= high
    ensures i < j ==> End(ks[i], d) < Pos(ks[j], d)
    decreases i + (|ks| - j), j - i
  {
    if i > 0 {
      AbutOrder(ks, d, low, high, i - 1, j);
      assert Pos(ks[i - 1 + 1], d) == End(ks[i - 1], d) + 1;
    } else if j < |ks| - 1 {
      AbutOrder(ks, d, low, high, i, j + 1);
      assert Pos(ks[j + 1], d) == End(ks[j], d) + 1;
    }
    if i < j {
      AbutStep(ks, d, low, high, i, j);
    }
  }

  lemma {:induction false} AbutStep(ks: seq<Tree>, d: Dir, low: int, high: int, i: nat, j: nat)
    requires Abutting(ks, d, low, high) && i < j < |ks|
    ensures End(ks[i], d) < Pos(ks[j], d)
    decreases j
  {
    assert Pos(ks[j - 1 + 1], d) == End(ks[j - 1], d) + 1;
    if i < j - 1 {
      AbutStep(ks, d, low, high, i, j - 1);
    }
  }

  /** Every coordinate in the node's span belongs to one child or to the separator after one. */
  lemma {:induction false} Locate(ks: seq<Tree>, d: Dir, low: int, high: int, c: int) returns (i: nat)
    requires Abutting(ks, d, low, high) && low <= c < high
    ensures i < |ks|
    ensures Spans(ks[i], d, c) || (c == End(ks[i], d) && i < |ks| - 1)
  {
    i := 0;
    while i < |ks| - 1 && c > End(ks[i], d)
      invariant 0 <= i < |ks| && Pos(ks[i], d) <= c
    {
      assert Pos(ks[i + 1], d) == End(ks[i], d) + 1;
      i := i + 1;
    }
  }

  // ----- misses -----

  lemma {:induction false} FindLeafInNone(ks: seq<Tree>, p: Vec)
    requires forall i :: 0 <= i < |ks| ==> FindLeafAt(ks[i], p).None?
    ensures FindLeafIn(ks, p).None?
    decreases |ks|
  {
    if ks != [] {
      FindLeafInNone(ks[1..], p);
    }
  }

  lemma {:induction false} FindBorderInNone(ks: seq<Tree>, p: Vec)
    requires forall i :: 0 <= i < |ks| ==> FindBorderAt(ks[i], p).None?
    ensures FindBorderIn(ks, p).None?
    decreases |ks|
  {
    if ks != [] {
      FindBorderInNone(ks[1..], p);
    }
  }

  lemma {:induction false} FindLeafInOnly(ks: seq<Tree>, p: Vec, i: nat)
    requires i < |ks| && forall j :: 0 <= j < |ks| && j != i ==> FindLeafAt(ks[j], p).None?
    ensures FindLeafIn(ks, p) == FindLeafAt(ks[i], p)
    decreases |ks|
  {
    if i > 0 {
      FindLeafInOnly(ks[1..], p, i - 1);
    } else {
      FindLeafInNone(ks[1..], p);
    }
  }

  lemma {:induction false} FindBorderInOnly(ks: seq<Tree>, p: Vec, i: nat)
    requires i < |ks| && forall j :: 0 <= j < |ks| && j != i ==> FindBorderAt(ks[j], p).None?
    ensures FindBorderIn(ks, p) == FindBorderAt(ks[i], p)
    decreases |ks|
  {
    if i > 0 {
      FindBorderInOnly(ks[1..], p, i - 1);
    } else {
      FindBorderInNone(ks[1..], p);
    }
  }

  lemma {:induction false} BorderAmongNone(ks: seq<Tree>, d: Dir, c: int)
    requires forall i :: 0 <= i < |ks| - 1 ==> c != End(ks[i], d)
    ensures BorderAmong(ks, d, c).None?
    decreases |ks|
  {
    if |ks| >= 2 {
      forall i | 0 <= i < |ks[1..]| - 1 ensures c != End(ks[1..][i], d) {
        assert ks[1..][i] == ks[i + 1];
      }
      BorderAmongNone(ks[1..], d, c);
    }
  }

  lemma {:induction false} BorderAmongAt(ks: seq<Tree>, d: Dir, c: int, i: nat)
    requires i < |ks| - 1 && c == End(ks[i], d)
    requires forall j :: 0 <= j < i ==> c != End(ks[j], d)
    ensures BorderAmong(ks, d, c) == Some(Border(ks[i], ks[i + 1], d))
    decreases |ks|
  {
    if i > 0 {
      assert ks[1..][i - 1] == ks[i];
      BorderAmongAt(ks[1..], d, c, i - 1);
    }
  }

  lemma {:induction false} InsideAxes(t: Tree, p: Vec, d: Dir)
    ensures Inside(t, p) <==> Spans(t, d, On(p, d)) && Spans(t, Cross(d), On(p, Cross(d)))
  {
  }

  /** Outside the root rectangle nothing answers. */
  lemma {:induction false} OutsideMisses(t: Tree, p: Vec)
    requires Tiled(t) && !Inside(t, p)
    ensures FindLeafAt(t, p).None? && FindBorderAt(t, p).None?
    decreases t
  {
    if t.Node? {
      var ks, d := t.kids, t.dir;
      TiledAbuts(t);
      hide Tiled;
      InsideAxes(t, p, d);
      forall i | 0 <= i < |ks|
        ensures FindLeafAt(ks[i], p).None? && FindBorderAt(ks[i], p).None?
        ensures On(p, d) == End(ks[i], d) && i < |ks| - 1 ==> Spans(t, d, On(p, d))
      {
        AbutOrder(ks, d, Pos(t, d), End(t, d), i, i);
        InsideAxes(ks[i], p, d);
        OutsideMisses(ks[i], p);
        if i < |ks| - 1 {
          AbutOrder(ks, d, Pos(t, d), End(t, d), i, i + 1);
        }
      }
      FindLeafInNone(ks, p);
      FindBorderInNone(ks, p);
      if Spans(t, Cross(d), On(p, Cross(d))) {
        BorderAmongNone(ks, d, On(p, d));
      }
    }
  }

  /** In a node, a point within one child's span is that child's business alone. */
  lemma {:induction false} ChildDecides(t: Tree, p: Vec, i: nat)
    requires t.Node? && Tiled(t) && Inside(t, p) && i < |t.kids| && Spans(t.kids[i], t.dir, On(p, t.dir))
    ensures Inside(t.kids[i], p)
    ensures FindLeafAt(t, p) == FindLeafAt(t.kids[i], p)
    ensures FindBorderAt(t, p) == FindBorderAt(t.kids[i], p)
  {
    var ks, d := t.kids, t.dir;
    TiledAbuts(t);
    hide Tiled;
    InsideAxes(t, p, d);
    InsideAxes(ks[i], p, d);
    forall j | 0 <= j < |ks| && j != i
      ensures FindLeafAt(ks[j], p).None? && FindBorderAt(ks[j], p).None? && On(p, d) != End(ks[j], d)
    {
      if j < i {
        AbutOrder(ks, d, Pos(t, d), End(t, d), j, i);
      } else {
        AbutOrder(ks, d, Pos(t, d), End(t, d), i, j);
      }
      OutsideMisses(ks[j], p);
    }
    FindLeafInOnly(ks, p, i);
    FindBorderInOnly(ks, p, i);
    BorderAmongNone(ks, d, On(p, d));
  }

  /** On a separator no pane answers and the border found is that separator. */
  lemma {:induction false} SeparatorDecides(t: Tree, p: Vec, i: nat)
    requires t.Node? && Tiled(t) && Inside(t, p) && i < |t.kids| - 1 && On(p, t.dir) == End(t.kids[i], t.dir)
    ensures FindLeafAt(t, p).None?
    ensures FindBorderAt(t, p) == Some(Border(t.kids[i], t.kids[i + 1], t.dir))
  {
    var ks, d := t.kids, t.dir;
    TiledAbuts(t);
    hide Tiled;
    InsideAxes(t, p, d);
    forall j | 0 <= j < |ks|
      ensures FindLeafAt(ks[j], p).None? && (j < i ==> On(p, d) != End(ks[j], d))
    {
      if j < i {
        AbutOrder(ks, d, Pos(t, d), End(t, d), j, i);
      } else if i < j {
        AbutOrder(ks, d, Pos(t, d), End(t, d), i, j);
      }
      OutsideMisses(ks[j], p);
    }
    FindLeafInNone(ks, p);
    BorderAmongAt(ks, d, On(p, d), i);
  }

  /**
   * A point is inside the root rectangle exactly when exactly one of the two
   * searches answers; outside, neither does.
   */
  lemma {:induction false} HitExactlyOne(t: Tree, p: Vec)
    requires Tiled(t)
    ensures Inside(t, p) <==> (FindLeafAt(t, p).Some? || FindBorderAt(t, p).Some?)
    ensures !(FindLeafAt(t, p).Some? && FindBorderAt(t, p).Some?)
    decreases t
  {
    if !Inside(t, p) {
      OutsideMisses(t, p);
    } else if t.Node? {
      TiledAbuts(t);
      InsideAxes(t, p, t.dir);
      hide Tiled;
      var i := Locate(t.kids, t.dir, Pos(t, t.dir), End(t, t.dir), On(p, t.dir));
      if Spans(t.kids[i], t.dir, On(p, t.dir)) {
        ChildDecides(t, p, i);
        HitExactlyOne(t.kids[i], p);
      } else {
        SeparatorDecides(t, p, i);
      }
    }
  }

  /** The border's cells are child i and the next one of this node. */
  predicate Divides(t: Tree, b: Border, i: nat) {
    t.Node? && i + 1 < |t.kids| && b == Border(t.kids[i], t.kids[i + 1], t.dir)
  }

  /** The border's cells are adjacent children of this node or of one below it. */
  ghost predicate DividesWithin(t: Tree, b: Border)
    decreases t
  {
    t.Node? && ((exists i :: Divides(t, b, i)) || (exists i :: 0 <= i < |t.kids| && DividesWithin(t.kids[i], b)))
  }

  /** The border found lies between two adjacent children of one node, and the point is in the gap. */
  lemma {:induction false} BorderFoundSeparates(t: Tree, p: Vec)
    requires Tiled(t) && FindBorderAt(t, p).Some?
    ensures DividesWithin(t, FindBorderAt(t, p).value)
    ensures var b := FindBorderAt(t, p).value;
      && End(b.left, b.dir) == On(p, b.dir) == Pos(b.right, b.dir) - 1
      && Spans(b.left, Cross(b.dir), On(p, Cross(b.dir))) && Spans(b.right, Cross(b.dir), On(p, Cross(b.dir)))
    decreases t
  {
    HitExactlyOne(t, p);
    if t.Node? {
      TiledAbuts(t);
      InsideAxes(t, p, t.dir);
      hide Tiled;
      var i := Locate(t.kids, t.dir, Pos(t, t.dir), End(t, t.dir), On(p, t.dir));
      if Spans(t.kids[i], t.dir, On(p, t.dir)) {
        ChildDecides(t, p, i);
        BorderFoundSeparates(t.kids[i], p);
      } else {
        SeparatorDecides(t, p, i);
        assert Divides(t, FindBorderAt(t, p).value, i);
      }
    }
  }

  // ----- leaves -----

  lemma {:induction false} LeavesOfMember(ks: seq<Tree>, m: Tree) returns (i: nat)
    requires m in LeavesOf(ks)
    ensures i < |ks| && m in Leaves(ks[i])
    decreases |ks|
  {
    if m in Leaves(ks[0]) {
      i := 0;
    } else {
      i := LeavesOfMember(ks[1..], m);
      i := i + 1;
    }
  }

  lemma {:induction false} LeavesOfHas(ks: seq<Tree>, i: nat, m: Tree)
    requires i < |ks| && m in Leaves(ks[i])
    ensures m in LeavesOf(ks)
    decreases |ks|
  {
    if i > 0 {
      LeavesOfHas(ks[1..], i - 1, m);
    }
  }

  /** Every leaf lies within the root rectangle. */
  lemma {:induction false} LeafWithin(t: Tree, m: Tree, axis: Dir)
    requires Tiled(t) && m in Leaves(t)
    ensures m.Leaf? && Tiled(m)
    ensures Pos(t, axis) <= Pos(m, axis) && End(m, axis) <= End(t, axis)
    decreases t
  {
    if t.Node? {
      TiledAbuts(t);
      hide Tiled;
      var i := LeavesOfMember(t.kids, m);
      AbutOrder(t.kids, t.dir, Pos(t, t.dir), End(t, t.dir), i, i);
      LeafWithin(t.kids[i], m, axis);
    }
  }

  /** The leaf found contains the point, belongs to the tree, and is the only leaf that contains it. */
  lemma {:induction false} LeafFoundUnique(t: Tree, p: Vec, m: Tree)
    requires Tiled(t)
    ensures FindLeafAt(t, p).Some? ==> FindLeafAt(t, p).value in Leaves(t) && Inside(FindLeafAt(t, p).value, p)
    ensures m in Leaves(t) && Inside(m, p) ==> FindLeafAt(t, p) == Some(m)
    decreases t
  {
    if m in Leaves(t) && Inside(m, p) {
      LeafWithin(t, m, Vertical);
      LeafWithin(t, m, Horizontal);
    }
    if !Inside(t, p) {
      OutsideMisses(t, p);
    } else if t.Node? {
      NodeLeafFoundUnique(t, p, m);
    }
  }

  lemma {:induction false} NodeLeafFoundUnique(t: Tree, p: Vec, m: Tree)
    requires Tiled(t) && Inside(t, p) && t.Node?
    ensures FindLeafAt(t, p).Some? ==> FindLeafAt(t, p).value in Leaves(t) && Inside(FindLeafAt(t, p).value, p)
    ensures m in Leaves(t) && Inside(m, p) ==> FindLeafAt(t, p) == Some(m)
    decreases t, 0
  {
    var ks, d := t.kids, t.dir;
    TiledAbuts(t);
    InsideAxes(t, p, d);
    hide Tiled;
    var i := Locate(ks, d, Pos(t, d), End(t, d), On(p, d));
    if m in Leaves(t) && Inside(m, p) {
      var k := LeavesOfMember(ks, m);
      LeafWithin(ks[k], m, d);
      InsideAxes(m, p, d);
      assert Spans(ks[k], d, On(p, d));
      ChildDecides(t, p, k);
      LeafFoundUnique(ks[k], p, m);
    }
    if Spans(ks[i], d, On(p, d)) {
      ChildDecides(t, p, i);
      LeafFoundUnique(ks[i], p, m);
      if FindLeafAt(t, p).Some? {
        LeavesOfHas(ks, i, FindLeafAt(t, p).value);
      }
    } else {
      SeparatorDecides(t, p, i);
    }
  }

  lemma {:induction false} LeavesOfIndex(ks: seq<Tree>, a: nat) returns (i: nat, b: nat)
    requires a < |LeavesOf(ks)|
    ensures i < |ks| && b < |Leaves(ks[i])| && Leaves(ks[i])[b] == LeavesOf(ks)[a]
    ensures a == |LeavesOf(ks[..i])| + b
    decreases |ks|
  {
    if a < |Leaves(ks[0])| {
      i, b := 0, a;
      assert ks[..0] == [];
    } else {
      i, b := LeavesOfIndex(ks[1..], a - |Leaves(ks[0])|);
      i := i + 1;
      assert ks[..i][1..] == ks[1..][..i - 1];
    }
  }

  /** Different leaves never share a point, so a hit names one position in the tree. */
  lemma {:induction false} LeavesDisjoint(t: Tree, a: nat, b: nat, p: Vec)
    requires Tiled(t) && a < |Leaves(t)| && b < |Leaves(t)| && a != b
    ensures !(Inside(Leaves(t)[a], p) && Inside(Leaves(t)[b], p))
    decreases t
  {
    if t.Node? {
      var ks, d := t.kids, t.dir;
      TiledAbuts(t);
      hide Tiled;
      var i, k := LeavesOfIndex(ks, a);
      var j, l := LeavesOfIndex(ks, b);
      if i == j {
        LeavesDisjoint(ks[i], k, l, p);
      } else {
        LeafWithin(ks[i], Leaves(t)[a], d);
        LeafWithin(ks[j], Leaves(t)[b], d);
        AbutOrder(ks, d, Pos(t, d), End(t, d), if i < j then i else j, if i < j then j else i);
        InsideAxes(Leaves(t)[a], p, d);
        InsideAxes(Leaves(t)[b], p, d);
      }
    }
  }
}
