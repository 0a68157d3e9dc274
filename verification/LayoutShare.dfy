/**
 * How an operation shares out cells among siblings, told from the extents
 * before and after alone.
 */
module LayoutShare {
  import opened Common
  import opened Numbers
  import opened Apportion
  import opened LayoutTree

  /** The same splits, and the same extent along `axis` at every cell. */
  ghost predicate SameOn(t: Tree, u: Tree, axis: Dir)
    decreases t
  {
    && Size(u, axis) == Size(t, axis) && (u.Node? <==> t.Node?)
    && (t.Node? ==>
          && u.dir == t.dir && |u.kids| == |t.kids|
          && forall i :: 0 <= i < |t.kids| ==> SameOn(t.kids[i], u.kids[i], axis))
  }

  /** The same splits, every node along `axis` divided in proportion to what its children were. */
  ghost predicate Rescaled(t: Tree, u: Tree, axis: Dir)
    decreases t
  {
    && (u.Node? <==> t.Node?)
    && (t.Node? ==>
          && u.dir == t.dir && |u.kids| == |t.kids|
          && (t.dir == axis ==> Fitted(Sizes(t.kids, axis), MinSizes(t.kids, axis), Sizes(u.kids, axis)))
          && forall i :: 0 <= i < |t.kids| ==> Rescaled(t.kids[i], u.kids[i], axis))
  }

  /** Every node along `axis` is divided evenly, but for what subtrees need. */
  ghost predicate LevelOn(t: Tree, axis: Dir)
    decreases t
  {
    t.Node? ==>
      && (t.dir == axis ==> Leveled(MinSizes(t.kids, axis), Sizes(t.kids, axis)))
      && forall i :: 0 <= i < |t.kids| ==> LevelOn(t.kids[i], axis)
  }

  // ----- what does not matter -----

  lemma {:induction false} SameOnSelf(t: Tree, axis: Dir)
    ensures SameOn(t, t, axis)
    decreases t
  {
    if t.Node? {
      forall i | 0 <= i < |t.kids| ensures SameOn(t.kids[i], t.kids[i], axis) {
        SameOnSelf(t.kids[i], axis);
      }
    }
  }

  lemma {:induction false} SameOnTransitive(t: Tree, u: Tree, v: Tree, axis: Dir)
    requires SameOn(t, u, axis) && SameOn(u, v, axis)
    ensures SameOn(t, v, axis)
    decreases t
  {
    if t.Node? {
      forall i | 0 <= i < |t.kids| ensures SameOn(t.kids[i], v.kids[i], axis) {
        SameOnTransitive(t.kids[i], u.kids[i], v.kids[i], axis);
      }
    }
  }

  lemma {:induction false} PlaceSame(t: Tree, at: Vec, axis: Dir)
    ensures SameOn(t, Place(t, at), axis)
    decreases t
  {
    if t.Node? {
      forall i | 0 <= i < |t.kids| ensures SameOn(t.kids[i], Place(t, at).kids[i], axis) {
        PlaceSame(t.kids[i], KidAt(t.kids, t.dir, at, i), axis);
      }
    }
  }

  lemma SameSizes(ks: seq<Tree>, ls: seq<Tree>, axis: Dir)
    requires |ks| == |ls| && forall i :: 0 <= i < |ks| ==> Size(ks[i], axis) == Size(ls[i], axis)
    ensures Sizes(ks, axis) == Sizes(ls, axis)
  {
  }

  lemma {:induction false} RescaledThen(t: Tree, u: Tree, v: Tree, axis: Dir)
    requires Rescaled(t, u, axis) && SameOn(u, v, axis)
    ensures Rescaled(t, v, axis)
    decreases t
  {
    hide Fitted;
    hide MinSize;
    if t.Node? {
      SameSizes(u.kids, v.kids, axis);
      forall i | 0 <= i < |t.kids| ensures Rescaled(t.kids[i], v.kids[i], axis) {
        RescaledThen(t.kids[i], u.kids[i], v.kids[i], axis);
      }
    }
  }

  lemma {:induction false} RescaledAfter(t: Tree, u: Tree, v: Tree, axis: Dir)
    requires SameOn(t, u, axis) && Rescaled(u, v, axis) && Erase(t) == Erase(u) && Grown(t)
    ensures Rescaled(t, v, axis)
    decreases t
  {
    hide Fitted;
    hide MinSize;
    if t.Node? {
      SameSizes(t.kids, u.kids, axis);
      SameMinSizes(t, u, axis);
      forall i | 0 <= i < |t.kids| ensures Rescaled(t.kids[i], v.kids[i], axis) {
        assert EraseAll(t.kids)[i] == EraseAll(u.kids)[i];
        RescaledAfter(t.kids[i], u.kids[i], v.kids[i], axis);
      }
    }
  }

  /** Minimums of children depend on the shape alone. */
  lemma {:induction false} SameMinSizes(t: Tree, u: Tree, axis: Dir)
    requires t.Node? && Grown(t) && Erase(t) == Erase(u)
    ensures u.Node? && MinSizes(t.kids, axis) == MinSizes(u.kids, axis)
  {
    hide MinSize;
    assert EraseAll(t.kids) == EraseAll(u.kids);
    forall i | 0 <= i < |t.kids| ensures MinSizes(t.kids, axis)[i] == MinSizes(u.kids, axis)[i] {
      assert EraseAll(t.kids)[i] == EraseAll(u.kids)[i];
      SameShapeSameMin(t.kids[i], u.kids[i], axis);
    }
  }

  lemma {:induction false} LevelSame(t: Tree, u: Tree, axis: Dir)
    requires LevelOn(t, axis) && SameOn(t, u, axis) && Erase(t) == Erase(u) && Grown(t)
    ensures LevelOn(u, axis)
    decreases t
  {
    hide Leveled;
    hide MinSize;
    if t.Node? {
      SameSizes(t.kids, u.kids, axis);
      SameMinSizes(t, u, axis);
      forall i | 0 <= i < |t.kids| ensures LevelOn(u.kids[i], axis) {
        assert EraseAll(t.kids)[i] == EraseAll(u.kids)[i];
        LevelSame(t.kids[i], u.kids[i], axis);
      }
    }
  }

  // ----- keeping the extent keeps everything -----

  /** Sizes that are large enough are in proportion to themselves. */
  lemma {:induction false} FittedSelf(sizes: seq<int>, minimums: seq<int>)
    requires |sizes| == |minimums|
    requires forall i :: 0 <= i < |sizes| ==> PANE_MIN_SIZE <= sizes[i] && minimums[i] <= sizes[i]
    ensures Fitted(sizes, minimums, sizes)
  {
    hide Sum;
    var floor := seq(|sizes|, _ => PANE_MIN_SIZE);
    SumBetween(floor, PANE_MIN_SIZE, PANE_MIN_SIZE);
    SumMinus(sizes, floor, Weights(sizes));
    TotalWeight(sizes);
    forall i | 0 <= i < |sizes| ensures Gap(sizes, sizes, i) == 0 {
    }
    if Sum(Weights(sizes)) == 0 {
      SumMonotone(floor, sizes);
    }
    assert InProportion(sizes, sizes) && RaisedFrom(sizes, minimums, sizes);
  }

  lemma {:induction false} SizedFloor(t: Tree, axis: Dir)
    requires Sized(t)
    ensures PANE_MIN_SIZE <= MinSize(t, axis) <= Size(t, axis)
  {
    SizedGrown(t);
    MinSizeFloor(t, axis);
    SizedAboveMin(t, axis);
  }

  lemma {:induction false} KidsFitted(t: Tree)
    requires t.Node? && Sized(t)
    ensures Fitted(Sizes(t.kids, t.dir), MinSizes(t.kids, t.dir), Sizes(t.kids, t.dir))
  {
    hide MinSize;
    hide Fitted;
    SizedKids(t);
    hide Sized;
    forall i | 0 <= i < |t.kids|
      ensures PANE_MIN_SIZE <= MinSizes(t.kids, t.dir)[i] <= Sizes(t.kids, t.dir)[i]
    {
      SizedFloor(t.kids[i], t.dir);
    }
    FittedSelf(Sizes(t.kids, t.dir), MinSizes(t.kids, t.dir));
  }

  lemma {:induction false} RescaledSelf(t: Tree, axis: Dir)
    requires Sized(t)
    ensures Rescaled(t, t, axis)
    decreases t
  {
    hide Fitted;
    hide MinSize;
    if t.Node? {
      SizedKids(t);
      KidsFitted(t);
      forall i | 0 <= i < |t.kids| ensures Rescaled(t.kids[i], t.kids[i], axis) {
        RescaledSelf(t.kids[i], axis);
      }
    }
  }

  /** Rescaled to the extent it had, a tiled subtree keeps every extent. */
  lemma {:induction false} RescaledStays(t: Tree, u: Tree, axis: Dir)
    requires Sized(t) && Sized(u) && Rescaled(t, u, axis) && Size(u, axis) == Size(t, axis)
    ensures SameOn(t, u, axis)
    decreases t
  {
    hide Fitted;
    hide MinSize;
    if t.Node? {
      SizedKids(t);
      SizedKids(u);
      if t.dir == axis {
        KidsFitted(t);
        FittedUnique(Sizes(t.kids, axis), MinSizes(t.kids, axis), Sizes(t.kids, axis), Sizes(u.kids, axis));
      }
      hide Sized;
      forall i | 0 <= i < |t.kids| ensures SameOn(t.kids[i], u.kids[i], axis) {
        assert Sizes(t.kids, t.dir)[i] == Size(t.kids[i], t.dir) && Sizes(u.kids, t.dir)[i] == Size(u.kids[i], t.dir);
        RescaledStays(t.kids[i], u.kids[i], axis);
      }
    }
  }

  // ----- ResizeSubtree -----

  lemma {:induction false} KidSizesFitted(t: Tree, along: int)
    requires t.Node? && Grown(t)
    ensures Fitted(Sizes(t.kids, t.dir), MinSizes(t.kids, t.dir), KidSizes(t.kids, t.dir, along))
  {
    hide Apportion.Fit;
    hide Fitted;
    MinSizesFloor(t.kids, t.dir);
    FitFills(Sizes(t.kids, t.dir), MinSizes(t.kids, t.dir), along - (|t.kids| - 1));
  }

  /** Whatever sizes the subtree had, ResizeSubtree divides every node in proportion to them. */
  lemma {:induction false} ResizeSubtreeRescales(t: Tree, want: Vec, axis: Dir)
    requires Grown(t)
    ensures Rescaled(t, ResizeSubtree(t, want), axis)
    decreases t
  {
    hide Fitted;
    hide KidSizes;
    hide MinSize;
    if t.Node? {
      var size := Clamp(t, want);
      var sizes, across := KidSizes(t.kids, t.dir, On(size, t.dir)), On(size, Cross(t.dir));
      var kids := ResizeKids(t.kids, t.dir, sizes, across);
      var u := Node(t.dir, kids, t.at, size);
      KidSizesFitted(t, On(size, t.dir));
      RescaledKids(t, u, sizes, across, axis);
      PlaceSame(u, t.at, axis);
      RescaledThen(t, u, Place(u, t.at), axis);
    }
  }

  lemma {:induction false} RescaledKids(t: Tree, u: Tree, sizes: seq<int>, across: int, axis: Dir)
    requires t.Node? && Grown(t) && |sizes| == |t.kids|
    requires u.Node? && u.dir == t.dir && u.kids == ResizeKids(t.kids, t.dir, sizes, across)
    requires Fitted(Sizes(t.kids, t.dir), MinSizes(t.kids, t.dir), sizes)
    requires MinSize(t, Cross(t.dir)) <= across
    ensures Rescaled(t, u, axis)
    decreases t, 0
  {
    hide Fitted;
    hide MinSize;
    FittedAbove(t, sizes);
    MinAcross(t, across);
    ResizeKidsTile(t.kids, t.dir, sizes, across);
    SameSizesAs(u.kids, sizes, t.dir);
    forall i | 0 <= i < |t.kids| ensures Rescaled(t.kids[i], u.kids[i], axis) {
      ResizeSubtreeRescales(t.kids[i], Along(t.dir, sizes[i], across), axis);
    }
  }

  lemma SameSizesAs(ks: seq<Tree>, sizes: seq<int>, axis: Dir)
    requires |ks| == |sizes| && forall i :: 0 <= i < |ks| ==> Size(ks[i], axis) == sizes[i]
    ensures Sizes(ks, axis) == sizes
  {
  }

  lemma FittedAbove(t: Tree, sizes: seq<int>)
    requires t.Node? && Fitted(Sizes(t.kids, t.dir), MinSizes(t.kids, t.dir), sizes)
    ensures |sizes| == |t.kids| && forall i :: 0 <= i < |t.kids| ==> MinSize(t.kids[i], t.dir) <= sizes[i]
  {
    hide MinSize;
  }
}
