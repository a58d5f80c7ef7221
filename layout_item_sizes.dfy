/**
  The resolver as `useLayoutItemSizes.ts` writes it: a container's children
  are sized by loops that update one map in place, then each child recurses
  on that map and its result is merged back. Each method is proved to
  compute a specification function of `LayoutSizing`.
*/
module LayoutItemSizes {
  import opened LayoutTypes
  import opened LayoutSizing

  /**
    Sizes the children of `item` within its box, then everything below them.
    `sizes0` is the map as the caller has it; the result is the new map.
  */
  method CalculateChildrenSizes(item: LayoutItem, parent: Option<LayoutItem>, sizes0: SizeMap, makeAllVisible: bool)
    returns (sizes: SizeMap)
    requires CanLayOut(item, sizes0)
    ensures sizes == ChildrenSizes(item, parent, sizes0, makeAllVisible)
    decreases item
  {
    sizes := sizes0;
    if item.children.NoChildren? {
      return;
    }
    var children := item.children.items;

    sizes := SizeDirectChildren(item, parent, sizes0, makeAllVisible);
    ghost var level := sizes;
    for i := 0 to |children|
      invariant KeysOf(children) <= sizes.Keys
      invariant Descend(item, i, parent, sizes, makeAllVisible) == Descend(item, 0, parent, level, makeAllVisible)
    {
      assert children[i] in children;
      var childrenSizes := CalculateChildrenSizes(children[i], parent, sizes, makeAllVisible);
      // `{ ...sizes, ...childrenSizes }`: the child's map already holds every key of `sizes`.
      MergeKeepsLater(sizes, childrenSizes);
      sizes := sizes + childrenSizes;
    }
  }

  /**
    Sizes the direct children of a container: the first pass, then the
    width pass and the height pass.
  */
  method SizeDirectChildren(item: LayoutItem, parent: Option<LayoutItem>, sizes0: SizeMap, makeAllVisible: bool)
    returns (sizes: SizeMap)
    requires item.IsContainer() && CanSize(item, sizes0)
    ensures sizes == LevelSizes(item, parent, sizes0, makeAllVisible)
  {
    var children := item.children.items;
    sizes := sizes0;
    var parentSize := ItemSize(item, parent, sizes, true);
    var remainingWidth, remainingHeight, noWidthChildren, noHeightChildren, flexibleChildren;
    sizes, remainingWidth, remainingHeight, noWidthChildren, noHeightChildren, flexibleChildren :=
      FirstPassSizes(children, parentSize, sizes, makeAllVisible);
    FiltersAreChildren(children, makeAllVisible, Width);
    FiltersAreChildren(children, makeAllVisible, Height);
    assert ChildrenOf(item) == children;
    assert remainingWidth == Remaining(item, parent, sizes0, makeAllVisible, Width);
    assert remainingHeight == Remaining(item, parent, sizes0, makeAllVisible, Height);
    ghost var seeded := sizes;

    sizes := AxisSizes(
      item.direction == Some(Row), parentSize.width, remainingWidth, remainingWidth,
      noWidthChildren, flexibleChildren, sizes, Width);
    // The guard of the height pass tests the remaining width (line 79 of the resolver).
    sizes := AxisSizes(
      item.direction == Some(Column), parentSize.height, remainingHeight, remainingWidth,
      noHeightChildren, flexibleChildren, sizes, Height);
    assert sizes == AxisPass(
      item.direction == Some(Column), parentSize.height, remainingHeight, remainingWidth, noHeightChildren, flexibleChildren,
      AxisPass(item.direction == Some(Row), parentSize.width, remainingWidth, remainingWidth, noWidthChildren, flexibleChildren, seeded, Width),
      Height);
  }

  /**
    One axis of a container: the children with no value on the axis all get
    the same share; when there are none and `guard` is non-zero, the flexible
    children grow by a share instead.
  */
  method AxisSizes(
    mainAxis: bool, full: int, remaining: int, guard: int,
    auto: seq<LayoutItem>, flexible: seq<LayoutItem>, sizes0: SizeMap, axis: Axis)
    returns (sizes: SizeMap)
    requires KeysOf(auto) <= sizes0.Keys && KeysOf(flexible) <= sizes0.Keys
    ensures sizes == AxisPass(mainAxis, full, remaining, guard, auto, flexible, sizes0, axis)
  {
    sizes := sizes0;
    if |auto| > 0 {
      var v := if mainAxis then remaining / |auto| else full;
      sizes := AssignAllSizes(auto, sizes, axis, v);
    } else if guard != 0 && |flexible| != 0 {
      var v := if mainAxis then remaining / |flexible| else full;
      sizes := GrowAllSizes(flexible, sizes, axis, v);
    }
  }

  /** `{ ...a, ...b }` is `b` when `b` already holds every key of `a`. */
  lemma MergeKeepsLater(a: SizeMap, b: SizeMap)
    requires a.Keys <= b.Keys
    ensures a + b == b
  {
  }

  /**
    The first loop over the children: writes each child's starting entry,
    takes its declared sizes off the container's box and collects the
    children with no value on each axis and the flexible ones.
  */
  method FirstPassSizes(children: seq<LayoutItem>, parentSize: Size, sizes0: SizeMap, makeAllVisible: bool)
    returns (sizes: SizeMap, remainingWidth: int, remainingHeight: int,
             noWidthChildren: seq<LayoutItem>, noHeightChildren: seq<LayoutItem>, flexibleChildren: seq<LayoutItem>)
    ensures sizes == Seed(children, sizes0, makeAllVisible)
    ensures remainingWidth == parentSize.width - ExplicitTotal(children, makeAllVisible, Width)
    ensures remainingHeight == parentSize.height - ExplicitTotal(children, makeAllVisible, Height)
    ensures noWidthChildren == Auto(children, makeAllVisible, Width)
    ensures noHeightChildren == Auto(children, makeAllVisible, Height)
    ensures flexibleChildren == FlexibleChildren(children)
  {
    sizes := sizes0;
    remainingWidth, remainingHeight := parentSize.width, parentSize.height;
    noWidthChildren, noHeightChildren, flexibleChildren := [], [], [];
    for i := 0 to |children|
      invariant sizes == Seed(children[..i], sizes0, makeAllVisible)
      invariant remainingWidth == parentSize.width - ExplicitTotal(children[..i], makeAllVisible, Width)
      invariant remainingHeight == parentSize.height - ExplicitTotal(children[..i], makeAllVisible, Height)
      invariant noWidthChildren == Auto(children[..i], makeAllVisible, Width)
      invariant noHeightChildren == Auto(children[..i], makeAllVisible, Height)
      invariant flexibleChildren == FlexibleChildren(children[..i])
    {
      var child := children[i];
      FirstPassStep(children, i, sizes0, makeAllVisible);
      var w, h := child.width, child.height;
      if !makeAllVisible && !child.visible {
        w, h := Some(0), Some(0);
      }
      if child.flexible {
        flexibleChildren := flexibleChildren + [child];
      }
      // An auto dimension is written as 0 here; the auto pass always overwrites it.
      sizes := sizes[child.key := Size(OrZero(w), OrZero(h))];
      if w.Some? {
        remainingWidth := remainingWidth - w.value;
      }
      if h.Some? {
        remainingHeight := remainingHeight - h.value;
      }
      if w.None? {
        noWidthChildren := noWidthChildren + [child];
      }
      if h.None? {
        noHeightChildren := noHeightChildren + [child];
      }
    }
    assert children[..|children|] == children;
  }

  /** How each fold of the first pass extends from `cs[..i]` to `cs[..i + 1]`. */
  lemma FirstPassStep(cs: seq<LayoutItem>, i: nat, sizes0: SizeMap, makeAllVisible: bool)
    requires i < |cs|
    ensures Seed(cs[..i + 1], sizes0, makeAllVisible)
            == Seed(cs[..i], sizes0, makeAllVisible)[cs[i].key := SeedEntry(cs[i], makeAllVisible)]
    ensures forall axis: Axis ::
              ExplicitTotal(cs[..i + 1], makeAllVisible, axis)
              == ExplicitTotal(cs[..i], makeAllVisible, axis) + OrZero(FirstPass(cs[i], makeAllVisible, axis))
    ensures forall axis: Axis ::
              Auto(cs[..i + 1], makeAllVisible, axis)
              == Auto(cs[..i], makeAllVisible, axis) + (if FirstPass(cs[i], makeAllVisible, axis).None? then [cs[i]] else [])
    ensures FlexibleChildren(cs[..i + 1]) == FlexibleChildren(cs[..i]) + (if cs[i].flexible then [cs[i]] else [])
  {
    assert cs[..i + 1][..i] == cs[..i];
  }

  /** One more child of the assignment loop is one more map update. */
  lemma AssignAllStep(cs: seq<LayoutItem>, sizes0: SizeMap, axis: Axis, v: int, j: nat)
    requires KeysOf(cs) <= sizes0.Keys && j < |cs|
    ensures KeysOf(cs[..j]) <= sizes0.Keys && KeysOf(cs[..j + 1]) <= sizes0.Keys
    ensures
      var prev := AssignAll(cs[..j], sizes0, axis, v);
      cs[j].key in prev && AssignAll(cs[..j + 1], sizes0, axis, v) == prev[cs[j].key := prev[cs[j].key].With(axis, v)]
  {
    assert cs[..j + 1][..j] == cs[..j];
    assert cs[j] in cs;
  }

  /** One more child of the grow loop is one more clamped map update. */
  lemma GrowAllStep(cs: seq<LayoutItem>, sizes0: SizeMap, axis: Axis, share: int, j: nat)
    requires KeysOf(cs) <= sizes0.Keys && j < |cs|
    ensures KeysOf(cs[..j]) <= sizes0.Keys && KeysOf(cs[..j + 1]) <= sizes0.Keys
    ensures
      var prev := GrowAll(cs[..j], sizes0, axis, share);
      && cs[j].key in prev
      && GrowAll(cs[..j + 1], sizes0, axis, share)
         == prev[cs[j].key := prev[cs[j].key].With(axis, Max(prev[cs[j].key].Get(axis) + share, 0))]
  {
    assert cs[..j + 1][..j] == cs[..j];
    assert cs[..j + 1][j] == cs[j];
    assert cs[j] in cs;
  }

  /** Gives every auto child of an axis the same value `v` on that axis. */
  method AssignAllSizes(cs: seq<LayoutItem>, sizes0: SizeMap, axis: Axis, v: int) returns (sizes: SizeMap)
    requires KeysOf(cs) <= sizes0.Keys
    ensures sizes == AssignAll(cs, sizes0, axis, v)
  {
    sizes := sizes0;
    for j := 0 to |cs|
      invariant sizes == AssignAll(cs[..j], sizes0, axis, v)
    {
      AssignAllStep(cs, sizes0, axis, v, j);
      var key := cs[j].key;
      sizes := sizes[key := sizes[key].With(axis, v)];
    }
    assert cs[..|cs|] == cs;
  }

  /** Adds `share` to every flexible child's value on `axis`, never below 0. */
  method GrowAllSizes(cs: seq<LayoutItem>, sizes0: SizeMap, axis: Axis, share: int) returns (sizes: SizeMap)
    requires KeysOf(cs) <= sizes0.Keys
    ensures sizes == GrowAll(cs, sizes0, axis, share)
  {
    sizes := sizes0;
    for j := 0 to |cs|
      invariant sizes == GrowAll(cs[..j], sizes0, axis, share)
    {
      GrowAllStep(cs, sizes0, axis, share, j);
      var key := cs[j].key;
      var orig := sizes[key].Get(axis);
      sizes := sizes[key := sizes[key].With(axis, Max(orig + share, 0))];
    }
    assert cs[..|cs|] == cs;
  }

  /**
    Resolves a layout: fails when the root does not declare both dimensions,
    otherwise seeds the map with the root's declared size and sizes
    everything below it.
  */
  method UseLayoutItemSizes(layout: LayoutItem, makeAllVisible: bool) returns (r: Result<SizeMap, string>)
    ensures r == Resolve(layout, makeAllVisible)
  {
    var sizes: SizeMap := map[];
    if layout.width.None? || layout.height.None? {
      return Err(RootSizeError);
    }
    sizes := sizes[layout.key := Size(layout.width.value, layout.height.value)];
    sizes := CalculateChildrenSizes(layout, None, sizes, makeAllVisible);
    return Ok(sizes);
  }
}
