/**
  Properties of the layout size resolver, proved about the specification
  functions of `LayoutSizing` (and so, through their contracts, about the
  methods of `LayoutItemSizes`).
*/
module LayoutSizingLemmas {
  import opened LayoutTypes
  import opened LayoutSizing

  // ---------------------------------------------------------------------------
  // Per-child facts about the folds, for children with distinct keys

  /** How the keys of `cs` split into those of all but its last item and the last one. */
  lemma SplitLast(cs: seq<LayoutItem>)
    requires cs != []
    ensures KeysOf(cs) == KeysOf(cs[..|cs| - 1]) + {cs[|cs| - 1].key}
    ensures DistinctKeys(cs) ==> DistinctKeys(cs[..|cs| - 1]) && cs[|cs| - 1].key !in KeysOf(cs[..|cs| - 1])
  {
    var init := cs[..|cs| - 1];
    assert cs == init + [cs[|cs| - 1]];
  }

  /** With distinct keys, the first pass leaves each child with its own starting entry. */
  lemma {:induction false} SeedAt(cs: seq<LayoutItem>, sizes: SizeMap, makeAllVisible: bool, i: nat)
    requires DistinctKeys(cs) && i < |cs|
    ensures Seed(cs, sizes, makeAllVisible)[cs[i].key] == SeedEntry(cs[i], makeAllVisible)
    decreases |cs|
  {
    var init := cs[..|cs| - 1];
    if i < |cs| - 1 {
      assert init[i] == cs[i];
      SeedAt(init, sizes, makeAllVisible, i);
    }
  }

  /**
    With distinct keys, a child's key is among the keys of a selection of the
    children exactly when the child itself was selected.
  */
  lemma KeySelectsChild(cs: seq<LayoutItem>, selected: seq<LayoutItem>, c: LayoutItem)
    requires DistinctKeys(cs) && c in cs
    requires forall x :: x in selected ==> x in cs
    ensures c.key in KeysOf(selected) <==> c in selected
  {
    if c.key in KeysOf(selected) {
      var x :| x in selected && x.key == c.key;
      var i :| 0 <= i < |cs| && cs[i] == x;
      var j :| 0 <= j < |cs| && cs[j] == c;
      assert i == j;
    }
  }

  /** Selecting the flexible children keeps the keys distinct. */
  lemma {:induction false} FlexibleDistinct(cs: seq<LayoutItem>)
    requires DistinctKeys(cs)
    ensures DistinctKeys(FlexibleChildren(cs))
    decreases |cs|
  {
    if cs != [] {
      var init := cs[..|cs| - 1];
      var last := cs[|cs| - 1];
      FlexibleDistinct(init);
      var prev := FlexibleChildren(init);
      forall x | x in prev ensures x.key != last.key {
        var i :| 0 <= i < |init| && init[i] == x;
        assert cs[i] == x;
      }
      var r := FlexibleChildren(cs);
      assert r == prev + (if last.flexible then [last] else []);
      forall i, j | 0 <= i < j < |r| ensures r[i].key != r[j].key {
        if j == |prev| {
          assert r[i] in prev;
        } else {
          assert r[i] == prev[i] && r[j] == prev[j];
        }
      }
    }
  }

  /** With distinct keys, each item of `cs` grows once, by `share`, clamped at 0. */
  lemma {:induction false} GrowAt(cs: seq<LayoutItem>, sizes: SizeMap, axis: Axis, share: int, i: nat)
    requires KeysOf(cs) <= sizes.Keys && DistinctKeys(cs) && i < |cs|
    ensures GrowAll(cs, sizes, axis, share)[cs[i].key]
            == sizes[cs[i].key].With(axis, Max(sizes[cs[i].key].Get(axis) + share, 0))
    decreases |cs|
  {
    var init := cs[..|cs| - 1];
    var last := cs[|cs| - 1];
    SplitLast(cs);
    if i < |cs| - 1 {
      assert init[i] == cs[i];
      GrowAt(init, sizes, axis, share, i);
    }
  }

  /** With distinct keys, growing the flexible children of `cs` grows `c` exactly when it is flexible. */
  lemma GrowAllAt(cs: seq<LayoutItem>, sizes: SizeMap, axis: Axis, share: int, c: LayoutItem)
    requires DistinctKeys(cs) && c in cs && KeysOf(cs) <= sizes.Keys
    ensures GrowAll(FlexibleChildren(cs), sizes, axis, share)[c.key]
            == if c.flexible then sizes[c.key].With(axis, Max(sizes[c.key].Get(axis) + share, 0)) else sizes[c.key]
  {
    var flexible := FlexibleChildren(cs);
    FiltersAreChildren(cs, false, axis);
    if c.flexible {
      FlexibleDistinct(cs);
      assert c in flexible;
      var i :| 0 <= i < |flexible| && flexible[i] == c;
      GrowAt(flexible, sizes, axis, share, i);
    } else {
      KeySelectsChild(cs, flexible, c);
    }
  }

  /**
    What one axis pass does to the entry of a child `c`: an auto child gets
    the share, a flexible child grows when the pass falls through to the
    flexible children, and everything else, the other axis included, stays.
  */
  lemma AxisPassAt(
    mainAxis: bool, full: int, remaining: int, guard: int,
    cs: seq<LayoutItem>, makeAllVisible: bool, sizes: SizeMap, axis: Axis, c: LayoutItem)
    requires DistinctKeys(cs) && c in cs && KeysOf(cs) <= sizes.Keys
    ensures
      var auto := Auto(cs, makeAllVisible, axis);
      var flexible := FlexibleChildren(cs);
      AxisPass(mainAxis, full, remaining, guard, auto, flexible, sizes, axis)[c.key]
      == sizes[c.key].With(axis,
           if c in auto then Share(mainAxis, remaining, |auto|, full)
           else if |auto| == 0 && guard != 0 && c.flexible
           then Max(sizes[c.key].Get(axis) + Share(mainAxis, remaining, |flexible|, full), 0)
           else sizes[c.key].Get(axis))
  {
    var auto := Auto(cs, makeAllVisible, axis);
    var flexible := FlexibleChildren(cs);
    FiltersAreChildren(cs, makeAllVisible, axis);
    if |auto| > 0 {
      AssignBranchAt(mainAxis, full, remaining, guard, cs, auto, flexible, sizes, axis, c);
    } else if guard != 0 && |flexible| != 0 {
      GrowBranchAt(mainAxis, full, remaining, guard, cs, auto, flexible, sizes, axis, c);
    } else {
      assert c.flexible ==> c in flexible;
    }
  }

  /** `AxisPassAt` when the axis has auto children. */
  lemma AssignBranchAt(
    mainAxis: bool, full: int, remaining: int, guard: int,
    cs: seq<LayoutItem>, auto: seq<LayoutItem>, flexible: seq<LayoutItem>, sizes: SizeMap, axis: Axis, c: LayoutItem)
    requires DistinctKeys(cs) && c in cs && KeysOf(cs) <= sizes.Keys
    requires KeysOf(auto) <= KeysOf(cs) && KeysOf(flexible) <= KeysOf(cs)
    requires forall d :: d in auto ==> d in cs
    requires |auto| > 0
    ensures AxisPass(mainAxis, full, remaining, guard, auto, flexible, sizes, axis)[c.key]
            == sizes[c.key].With(axis, if c in auto then Share(mainAxis, remaining, |auto|, full) else sizes[c.key].Get(axis))
  {
    KeySelectsChild(cs, auto, c);
    assert AxisPass(mainAxis, full, remaining, guard, auto, flexible, sizes, axis)
           == AssignAll(auto, sizes, axis, Share(mainAxis, remaining, |auto|, full));
  }

  /** `AxisPassAt` when the axis has no auto child and the flexible children grow. */
  lemma GrowBranchAt(
    mainAxis: bool, full: int, remaining: int, guard: int,
    cs: seq<LayoutItem>, auto: seq<LayoutItem>, flexible: seq<LayoutItem>, sizes: SizeMap, axis: Axis, c: LayoutItem)
    requires DistinctKeys(cs) && c in cs && KeysOf(cs) <= sizes.Keys
    requires KeysOf(auto) <= KeysOf(cs) && flexible == FlexibleChildren(cs)
    requires |auto| == 0 && guard != 0 && |flexible| != 0
    ensures AxisPass(mainAxis, full, remaining, guard, auto, flexible, sizes, axis)[c.key]
            == sizes[c.key].With(axis,
                 if c.flexible then Max(sizes[c.key].Get(axis) + Share(mainAxis, remaining, |flexible|, full), 0)
                 else sizes[c.key].Get(axis))
  {
    var share := Share(mainAxis, remaining, |flexible|, full);
    assert AxisPass(mainAxis, full, remaining, guard, auto, flexible, sizes, axis)
           == GrowAll(flexible, sizes, axis, share);
    GrowAllAt(cs, sizes, axis, share, c);
    assert sizes[c.key].With(axis, sizes[c.key].Get(axis)) == sizes[c.key];
  }

  // ---------------------------------------------------------------------------
  // One container, child by child

  /**
    Reference definition of the value a container gives its child `c` on
    `axis`, stated child by child rather than as a sequence of map updates:
    an auto child gets the share of the remaining space; a flexible child
    grows by a share, clamped at 0, when the axis has no auto children and
    the remaining WIDTH is non-zero; any other child keeps the value it
    starts with.
  */
  function ChildValue(item: LayoutItem, parent: Option<LayoutItem>, sizes: SizeMap, makeAllVisible: bool, c: LayoutItem, axis: Axis): int
    requires item.IsContainer() && CanSize(item, sizes) && c in item.children.items
  {
    var cs := item.children.items;
    Placement(FirstPass(c, makeAllVisible, axis), c.flexible, IsMainAxis(item.direction, axis),
              ItemSize(item, parent, sizes, true).Get(axis), Remaining(item, parent, sizes, makeAllVisible, axis),
              Remaining(item, parent, sizes, makeAllVisible, Width) != 0,
              |Auto(cs, makeAllVisible, axis)|, |FlexibleChildren(cs)|)
  }

  /** The case analysis of `ChildValue`, over the numbers it depends on. */
  function Placement(first: Option<int>, flexible: bool, mainAxis: bool, full: int, remaining: int,
                     widthLeft: bool, autoCount: nat, flexibleCount: nat): int
    requires first.None? ==> autoCount > 0
    requires flexible ==> flexibleCount > 0
  {
    match first
    case None => Share(mainAxis, remaining, autoCount, full)
    case Some(v) =>
      if autoCount == 0 && widthLeft && flexible
      then Max(v + Share(mainAxis, remaining, flexibleCount, full), 0)
      else v
  }

  /**
    With distinct child keys, the entry a container leaves for each of its
    children is the one `ChildValue` describes, on both axes.
  */
  lemma LevelEntry(item: LayoutItem, parent: Option<LayoutItem>, sizes: SizeMap, makeAllVisible: bool, i: nat)
    requires item.IsContainer() && CanSize(item, sizes)
    requires DistinctKeys(item.children.items) && i < |item.children.items|
    ensures
      var c := item.children.items[i];
      LevelSizes(item, parent, sizes, makeAllVisible)[c.key]
      == Size(ChildValue(item, parent, sizes, makeAllVisible, c, Width),
              ChildValue(item, parent, sizes, makeAllVisible, c, Height))
  {
    var cs := item.children.items;
    var c := cs[i];
    var seeded := Seed(cs, sizes, makeAllVisible);
    SeedAt(cs, sizes, makeAllVisible, i);
    var widths := ContainerAxisPass(item, parent, sizes, makeAllVisible, seeded, Width);
    ContainerAxisPassAt(item, parent, sizes, makeAllVisible, seeded, Width, c);
    assert widths[c.key] == Size(ChildValue(item, parent, sizes, makeAllVisible, c, Width), seeded[c.key].height);
    ContainerAxisPassAt(item, parent, sizes, makeAllVisible, widths, Height, c);
  }

  /** `AxisPassAt` for the pass a container makes on `axis`, in terms of `ChildValue`. */
  lemma ContainerAxisPassAt(
    item: LayoutItem, parent: Option<LayoutItem>, base: SizeMap, makeAllVisible: bool, sizes: SizeMap, axis: Axis, c: LayoutItem)
    requires item.IsContainer() && CanSize(item, base) && KeysOf(item.children.items) <= sizes.Keys
    requires DistinctKeys(item.children.items) && c in item.children.items
    requires sizes[c.key].Get(axis) == OrZero(FirstPass(c, makeAllVisible, axis))
    ensures ContainerAxisPass(item, parent, base, makeAllVisible, sizes, axis)[c.key]
            == sizes[c.key].With(axis, ChildValue(item, parent, base, makeAllVisible, c, axis))
  {
    var cs := item.children.items;
    FiltersAreChildren(cs, makeAllVisible, axis);
    AxisPassAt(
      IsMainAxis(item.direction, axis), ItemSize(item, parent, base, true).Get(axis),
      Remaining(item, parent, base, makeAllVisible, axis), Remaining(item, parent, base, makeAllVisible, Width),
      cs, makeAllVisible, sizes, axis, c);
  }

  /**
    Every auto child of an axis gets the same value: on the container's
    stacking axis the floor of the remaining space over the number of auto
    children (not clamped, so possibly negative), on the other axis the
    container's full size.
  */
  lemma AutoChildShare(item: LayoutItem, parent: Option<LayoutItem>, sizes: SizeMap, makeAllVisible: bool, i: nat, axis: Axis)
    requires item.IsContainer() && CanSize(item, sizes)
    requires DistinctKeys(item.children.items) && i < |item.children.items|
    requires FirstPass(item.children.items[i], makeAllVisible, axis).None?
    ensures |Auto(item.children.items, makeAllVisible, axis)| > 0
    ensures LevelSizes(item, parent, sizes, makeAllVisible)[item.children.items[i].key].Get(axis)
            == if IsMainAxis(item.direction, axis)
               then Remaining(item, parent, sizes, makeAllVisible, axis) / |Auto(item.children.items, makeAllVisible, axis)|
               else ItemSize(item, parent, sizes, true).Get(axis)
  {
    assert item.children.items[i] in item.children.items;
    LevelEntry(item, parent, sizes, makeAllVisible, i);
  }

  /**
    When an axis has no auto children and the remaining width is non-zero,
    a flexible child's value is its starting value plus a share, clamped at
    0; so it is never negative.
  */
  lemma FlexibleChildClamped(item: LayoutItem, parent: Option<LayoutItem>, sizes: SizeMap, makeAllVisible: bool, i: nat, axis: Axis)
    requires item.IsContainer() && CanSize(item, sizes)
    requires DistinctKeys(item.children.items) && i < |item.children.items|
    requires item.children.items[i].flexible
    requires |Auto(item.children.items, makeAllVisible, axis)| == 0
    requires Remaining(item, parent, sizes, makeAllVisible, Width) != 0
    ensures |FlexibleChildren(item.children.items)| > 0
    ensures FirstPass(item.children.items[i], makeAllVisible, axis).Some?
    ensures LevelSizes(item, parent, sizes, makeAllVisible)[item.children.items[i].key].Get(axis)
            == Max(FirstPass(item.children.items[i], makeAllVisible, axis).value
                   + Share(IsMainAxis(item.direction, axis), Remaining(item, parent, sizes, makeAllVisible, axis),
                           |FlexibleChildren(item.children.items)|, ItemSize(item, parent, sizes, true).Get(axis)), 0)
    ensures LevelSizes(item, parent, sizes, makeAllVisible)[item.children.items[i].key].Get(axis) >= 0
  {
    var c := item.children.items[i];
    FlexibleValue(item, parent, sizes, makeAllVisible, c, axis);
    assert ChildValue(item, parent, sizes, makeAllVisible, c, axis) >= 0;
    LevelEntry(item, parent, sizes, makeAllVisible, i);
    assert LevelSizes(item, parent, sizes, makeAllVisible)[c.key].Get(axis)
           == ChildValue(item, parent, sizes, makeAllVisible, c, axis);
  }

  /** `ChildValue` of a flexible child with a starting value when the grow step runs. */
  lemma FlexibleValue(item: LayoutItem, parent: Option<LayoutItem>, sizes: SizeMap, makeAllVisible: bool, c: LayoutItem, axis: Axis)
    requires item.IsContainer() && CanSize(item, sizes) && c in item.children.items && c.flexible
    requires |Auto(item.children.items, makeAllVisible, axis)| == 0
    requires Remaining(item, parent, sizes, makeAllVisible, Width) != 0
    ensures |FlexibleChildren(item.children.items)| > 0
    ensures FirstPass(c, makeAllVisible, axis).Some?
    ensures ChildValue(item, parent, sizes, makeAllVisible, c, axis)
            == Max(FirstPass(c, makeAllVisible, axis).value
                   + Share(IsMainAxis(item.direction, axis), Remaining(item, parent, sizes, makeAllVisible, axis),
                           |FlexibleChildren(item.children.items)|, ItemSize(item, parent, sizes, true).Get(axis)), 0)
  {
    assert c in FlexibleChildren(item.children.items);
    assert c !in Auto(item.children.items, makeAllVisible, axis);
    GrownValue(item, parent, sizes, makeAllVisible, c, axis);
  }

  /** `FlexibleValue` once the child is known to have a starting value. */
  lemma GrownValue(item: LayoutItem, parent: Option<LayoutItem>, sizes: SizeMap, makeAllVisible: bool, c: LayoutItem, axis: Axis)
    requires item.IsContainer() && CanSize(item, sizes) && c in item.children.items && c.flexible
    requires |Auto(item.children.items, makeAllVisible, axis)| == 0
    requires Remaining(item, parent, sizes, makeAllVisible, Width) != 0
    requires |FlexibleChildren(item.children.items)| > 0
    requires FirstPass(c, makeAllVisible, axis).Some?
    ensures ChildValue(item, parent, sizes, makeAllVisible, c, axis)
            == Max(FirstPass(c, makeAllVisible, axis).value
                   + Share(IsMainAxis(item.direction, axis), Remaining(item, parent, sizes, makeAllVisible, axis),
                           |FlexibleChildren(item.children.items)|, ItemSize(item, parent, sizes, true).Get(axis)), 0)
  {
  }

  /**
    A child with no value on an axis that is neither auto nor grown keeps its
    starting value: an explicit, non-flexible child keeps its declared size.
  */
  lemma ExplicitChildKeeps(item: LayoutItem, parent: Option<LayoutItem>, sizes: SizeMap, makeAllVisible: bool, i: nat, axis: Axis)
    requires item.IsContainer() && CanSize(item, sizes)
    requires DistinctKeys(item.children.items) && i < |item.children.items|
    requires FirstPass(item.children.items[i], makeAllVisible, axis).Some? && !item.children.items[i].flexible
    ensures LevelSizes(item, parent, sizes, makeAllVisible)[item.children.items[i].key].Get(axis)
            == FirstPass(item.children.items[i], makeAllVisible, axis).value
  {
    LevelEntry(item, parent, sizes, makeAllVisible, i);
  }

  /**
    Unless `makeAllVisible` is set, a hidden child starts at 0 by 0 and is an
    auto child on neither axis; if it is not flexible it stays 0 by 0. With
    `makeAllVisible` set, it starts from its declared sizes like any other.
  */
  lemma HiddenChild(item: LayoutItem, parent: Option<LayoutItem>, sizes: SizeMap, makeAllVisible: bool, i: nat)
    requires item.IsContainer() && CanSize(item, sizes)
    requires DistinctKeys(item.children.items) && i < |item.children.items|
    requires !item.children.items[i].visible
    ensures
      var c := item.children.items[i];
      && (!makeAllVisible ==>
            && Seed(item.children.items, sizes, makeAllVisible)[c.key] == Size(0, 0)
            && c !in Auto(item.children.items, makeAllVisible, Width)
            && c !in Auto(item.children.items, makeAllVisible, Height)
            && (!c.flexible ==> LevelSizes(item, parent, sizes, makeAllVisible)[c.key] == Size(0, 0)))
      && (makeAllVisible ==> forall axis: Axis :: FirstPass(c, makeAllVisible, axis) == c.Declared(axis))
  {
    SeedAt(item.children.items, sizes, makeAllVisible, i);
    LevelEntry(item, parent, sizes, makeAllVisible, i);
  }

  // ---------------------------------------------------------------------------
  // How much of the box the children fill on an axis

  /** The sum of the values `m` holds for the children `cs` on `axis`. */
  ghost function AxisTotal(cs: seq<LayoutItem>, m: SizeMap, axis: Axis): int
    requires forall c :: c in cs ==> c.key in m
    decreases |cs|
  {
    if cs == [] then 0
    else AxisTotal(cs[..|cs| - 1], m, axis) + m[cs[|cs| - 1].key].Get(axis)
  }

  /**
    When every auto child holds `share` and every other child its starting
    value, the children add up to the explicit total plus one share per auto
    child.
  */
  lemma {:induction false} SumOfShares(cs: seq<LayoutItem>, m: SizeMap, makeAllVisible: bool, axis: Axis, share: int)
    requires forall c :: c in cs ==> c.key in m
    requires forall c :: c in cs ==>
      m[c.key].Get(axis) == match FirstPass(c, makeAllVisible, axis) case None => share case Some(v) => v
    ensures AxisTotal(cs, m, axis) == ExplicitTotal(cs, makeAllVisible, axis) + |Auto(cs, makeAllVisible, axis)| * share
    decreases |cs|
  {
    if cs != [] {
      var init := cs[..|cs| - 1];
      var last := cs[|cs| - 1];
      assert forall c :: c in init ==> c in cs;
      SumOfShares(init, m, makeAllVisible, axis, share);
      assert last in cs;
      var auto := Auto(init, makeAllVisible, axis);
      assert AxisTotal(cs, m, axis) == AxisTotal(init, m, axis) + m[last.key].Get(axis);
      assert ExplicitTotal(cs, makeAllVisible, axis) == ExplicitTotal(init, makeAllVisible, axis) + OrZero(FirstPass(last, makeAllVisible, axis));
      if FirstPass(last, makeAllVisible, axis).None? {
        assert |Auto(cs, makeAllVisible, axis)| == |auto| + 1;
        OneMoreShare(|auto|, share);
      } else {
        assert |Auto(cs, makeAllVisible, axis)| == |auto|;
      }
    }
  }

  /** One more share adds `share` to the total. */
  lemma OneMoreShare(n: int, share: int)
    ensures (n + 1) * share == n * share + share
  {
  }

  /**
    On an axis with auto children no flexible child grows: each auto child
    holds the share and every other child its starting value.
  */
  lemma FilledAxisEntry(item: LayoutItem, parent: Option<LayoutItem>, sizes: SizeMap, makeAllVisible: bool, i: nat, axis: Axis)
    requires item.IsContainer() && CanSize(item, sizes)
    requires DistinctKeys(item.children.items) && i < |item.children.items|
    requires |Auto(item.children.items, makeAllVisible, axis)| > 0
    ensures LevelSizes(item, parent, sizes, makeAllVisible)[item.children.items[i].key].Get(axis)
            == match FirstPass(item.children.items[i], makeAllVisible, axis)
               case None =>
                 Share(IsMainAxis(item.direction, axis), Remaining(item, parent, sizes, makeAllVisible, axis),
                       |Auto(item.children.items, makeAllVisible, axis)|, ItemSize(item, parent, sizes, true).Get(axis))
               case Some(v) => v
  {
    LevelEntry(item, parent, sizes, makeAllVisible, i);
  }

  /**
    On the stacking axis of a container with auto children, the children fill
    the container's box except for the remainder of sharing the remaining
    space out by whole units: the fill is exact exactly when the remaining
    space divides evenly, and otherwise falls short by less than one unit per
    auto child.
  */
  lemma LevelFill(item: LayoutItem, parent: Option<LayoutItem>, sizes: SizeMap, makeAllVisible: bool, axis: Axis)
    requires item.IsContainer() && CanSize(item, sizes)
    requires DistinctKeys(item.children.items)
    requires IsMainAxis(item.direction, axis)
    requires |Auto(item.children.items, makeAllVisible, axis)| > 0
    ensures forall c :: c in item.children.items ==> c.key in LevelSizes(item, parent, sizes, makeAllVisible)
    ensures
      var box := ItemSize(item, parent, sizes, true).Get(axis);
      var total := AxisTotal(item.children.items, LevelSizes(item, parent, sizes, makeAllVisible), axis);
      var slack := Remaining(item, parent, sizes, makeAllVisible, axis) % |Auto(item.children.items, makeAllVisible, axis)|;
      && total == box - slack
      && 0 <= slack < |Auto(item.children.items, makeAllVisible, axis)|
      && (total == box <==> slack == 0)
  {
    var cs := item.children.items;
    var n := |Auto(cs, makeAllVisible, axis)|;
    var rem := Remaining(item, parent, sizes, makeAllVisible, axis);
    LevelShares(item, parent, sizes, makeAllVisible, axis);
    SumOfShares(cs, LevelSizes(item, parent, sizes, makeAllVisible), makeAllVisible, axis, rem / n);
    assert ChildrenOf(item) == cs;
    DivisionSlack(rem, n);
  }

  /** `FilledAxisEntry` for every child of a container, on its stacking axis. */
  lemma LevelShares(item: LayoutItem, parent: Option<LayoutItem>, sizes: SizeMap, makeAllVisible: bool, axis: Axis)
    requires item.IsContainer() && CanSize(item, sizes)
    requires DistinctKeys(item.children.items)
    requires IsMainAxis(item.direction, axis)
    requires |Auto(item.children.items, makeAllVisible, axis)| > 0
    ensures forall c :: c in item.children.items ==> c.key in LevelSizes(item, parent, sizes, makeAllVisible)
    ensures forall c :: c in item.children.items ==>
      LevelSizes(item, parent, sizes, makeAllVisible)[c.key].Get(axis)
      == match FirstPass(c, makeAllVisible, axis)
         case None => Remaining(item, parent, sizes, makeAllVisible, axis) / |Auto(item.children.items, makeAllVisible, axis)|
         case Some(v) => v
  {
    var cs := item.children.items;
    forall c | c in cs
      ensures c.key in LevelSizes(item, parent, sizes, makeAllVisible)
      ensures LevelSizes(item, parent, sizes, makeAllVisible)[c.key].Get(axis)
              == match FirstPass(c, makeAllVisible, axis)
                 case None => Remaining(item, parent, sizes, makeAllVisible, axis) / |Auto(cs, makeAllVisible, axis)|
                 case Some(v) => v
    {
      var i :| 0 <= i < |cs| && cs[i] == c;
      assert c.key in KeysOf(cs);
      FilledAxisEntry(item, parent, sizes, makeAllVisible, i, axis);
    }
  }

  /** What whole shares of `rem` over `n` leave over. */
  lemma DivisionSlack(rem: int, n: int)
    requires n > 0
    ensures n * (rem / n) == rem - rem % n
    ensures 0 <= rem % n < n
  {
  }

  /**
    When every child holds its starting value and each flexible child one
    `share` more, the children add up to the explicit total plus one share
    per flexible child.
  */
  lemma {:induction false} SumOfGrowth(cs: seq<LayoutItem>, m: SizeMap, makeAllVisible: bool, axis: Axis, share: int)
    requires forall c :: c in cs ==> c.key in m
    requires forall c :: c in cs ==>
      m[c.key].Get(axis) == OrZero(FirstPass(c, makeAllVisible, axis)) + (if c.flexible then share else 0)
    ensures AxisTotal(cs, m, axis) == ExplicitTotal(cs, makeAllVisible, axis) + |FlexibleChildren(cs)| * share
    decreases |cs|
  {
    if cs != [] {
      var init := cs[..|cs| - 1];
      var last := cs[|cs| - 1];
      assert forall c :: c in init ==> c in cs;
      SumOfGrowth(init, m, makeAllVisible, axis, share);
      assert last in cs;
      var flexible := FlexibleChildren(init);
      assert AxisTotal(cs, m, axis) == AxisTotal(init, m, axis) + m[last.key].Get(axis);
      assert ExplicitTotal(cs, makeAllVisible, axis) == ExplicitTotal(init, makeAllVisible, axis) + OrZero(FirstPass(last, makeAllVisible, axis));
      if last.flexible {
        assert FlexibleChildren(cs) == flexible + [last];
        OneMoreShare(|flexible|, share);
      } else {
        assert FlexibleChildren(cs) == flexible;
      }
    }
  }

  /**
    `FlexibleChildClamped` and `ExplicitChildKeeps` for every child of a
    container whose stacking axis has no auto child, when the grow step runs
    and no flexible child reaches the clamp.
  */
  lemma LevelGrowth(item: LayoutItem, parent: Option<LayoutItem>, sizes: SizeMap, makeAllVisible: bool, axis: Axis)
    requires item.IsContainer() && CanSize(item, sizes)
    requires DistinctKeys(item.children.items)
    requires IsMainAxis(item.direction, axis)
    requires |Auto(item.children.items, makeAllVisible, axis)| == 0
    requires Remaining(item, parent, sizes, makeAllVisible, Width) != 0
    requires |FlexibleChildren(item.children.items)| > 0
    requires forall c :: c in item.children.items && c.flexible ==>
      OrZero(FirstPass(c, makeAllVisible, axis))
      + Remaining(item, parent, sizes, makeAllVisible, axis) / |FlexibleChildren(item.children.items)| >= 0
    ensures forall c :: c in item.children.items ==> c.key in LevelSizes(item, parent, sizes, makeAllVisible)
    ensures forall c :: c in item.children.items ==>
      LevelSizes(item, parent, sizes, makeAllVisible)[c.key].Get(axis)
      == OrZero(FirstPass(c, makeAllVisible, axis))
         + (if c.flexible then Remaining(item, parent, sizes, makeAllVisible, axis) / |FlexibleChildren(item.children.items)| else 0)
  {
    var cs := item.children.items;
    forall c | c in cs
      ensures c.key in LevelSizes(item, parent, sizes, makeAllVisible)
      ensures LevelSizes(item, parent, sizes, makeAllVisible)[c.key].Get(axis)
              == OrZero(FirstPass(c, makeAllVisible, axis))
                 + (if c.flexible then Remaining(item, parent, sizes, makeAllVisible, axis) / |FlexibleChildren(cs)| else 0)
    {
      var i :| 0 <= i < |cs| && cs[i] == c;
      assert c.key in KeysOf(cs);
      GrownUnclamped(item, parent, sizes, makeAllVisible, i, axis);
    }
  }

  /** `GrownAxisEntry` for a child that does not reach the clamp. */
  lemma GrownUnclamped(item: LayoutItem, parent: Option<LayoutItem>, sizes: SizeMap, makeAllVisible: bool, i: nat, axis: Axis)
    requires item.IsContainer() && CanSize(item, sizes)
    requires DistinctKeys(item.children.items) && i < |item.children.items|
    requires IsMainAxis(item.direction, axis)
    requires |Auto(item.children.items, makeAllVisible, axis)| == 0
    requires Remaining(item, parent, sizes, makeAllVisible, Width) != 0
    requires |FlexibleChildren(item.children.items)| > 0
    requires item.children.items[i].flexible ==>
      OrZero(FirstPass(item.children.items[i], makeAllVisible, axis))
      + Remaining(item, parent, sizes, makeAllVisible, axis) / |FlexibleChildren(item.children.items)| >= 0
    ensures LevelSizes(item, parent, sizes, makeAllVisible)[item.children.items[i].key].Get(axis)
            == OrZero(FirstPass(item.children.items[i], makeAllVisible, axis))
               + (if item.children.items[i].flexible
                  then Remaining(item, parent, sizes, makeAllVisible, axis) / |FlexibleChildren(item.children.items)|
                  else 0)
  {
    GrownAxisEntry(item, parent, sizes, makeAllVisible, i, axis);
  }

  /**
    On an axis with no auto child, when the grow step runs, a flexible child
    ends at its starting value plus the share, clamped at 0, and every other
    child at its starting value.
  */
  lemma GrownAxisEntry(item: LayoutItem, parent: Option<LayoutItem>, sizes: SizeMap, makeAllVisible: bool, i: nat, axis: Axis)
    requires item.IsContainer() && CanSize(item, sizes)
    requires DistinctKeys(item.children.items) && i < |item.children.items|
    requires |Auto(item.children.items, makeAllVisible, axis)| == 0
    requires Remaining(item, parent, sizes, makeAllVisible, Width) != 0
    ensures FirstPass(item.children.items[i], makeAllVisible, axis).Some?
    ensures item.children.items[i].flexible ==>
      && |FlexibleChildren(item.children.items)| > 0
      && LevelSizes(item, parent, sizes, makeAllVisible)[item.children.items[i].key].Get(axis)
         == Max(FirstPass(item.children.items[i], makeAllVisible, axis).value
                + Share(IsMainAxis(item.direction, axis), Remaining(item, parent, sizes, makeAllVisible, axis),
                        |FlexibleChildren(item.children.items)|, ItemSize(item, parent, sizes, true).Get(axis)), 0)
    ensures !item.children.items[i].flexible ==>
      LevelSizes(item, parent, sizes, makeAllVisible)[item.children.items[i].key].Get(axis)
      == FirstPass(item.children.items[i], makeAllVisible, axis).value
  {
    var c := item.children.items[i];
    assert c !in Auto(item.children.items, makeAllVisible, axis);
    if c.flexible {
      FlexibleChildClamped(item, parent, sizes, makeAllVisible, i, axis);
    } else {
      ExplicitChildKeeps(item, parent, sizes, makeAllVisible, i, axis);
    }
  }

  /**
    On the stacking axis of a container with no auto child there, when the
    remaining width is non-zero and no flexible child reaches the clamp, the
    flexible children's growth fills the container's box except for the
    remaining space modulo the number of flexible children; the fill is exact
    exactly when that division is.
  */
  lemma FlexibleFill(item: LayoutItem, parent: Option<LayoutItem>, sizes: SizeMap, makeAllVisible: bool, axis: Axis)
    requires item.IsContainer() && CanSize(item, sizes)
    requires DistinctKeys(item.children.items)
    requires IsMainAxis(item.direction, axis)
    requires |Auto(item.children.items, makeAllVisible, axis)| == 0
    requires Remaining(item, parent, sizes, makeAllVisible, Width) != 0
    requires |FlexibleChildren(item.children.items)| > 0
    requires forall c :: c in item.children.items && c.flexible ==>
      OrZero(FirstPass(c, makeAllVisible, axis))
      + Remaining(item, parent, sizes, makeAllVisible, axis) / |FlexibleChildren(item.children.items)| >= 0
    ensures forall c :: c in item.children.items ==> c.key in LevelSizes(item, parent, sizes, makeAllVisible)
    ensures
      var box := ItemSize(item, parent, sizes, true).Get(axis);
      var total := AxisTotal(item.children.items, LevelSizes(item, parent, sizes, makeAllVisible), axis);
      var slack := Remaining(item, parent, sizes, makeAllVisible, axis) % |FlexibleChildren(item.children.items)|;
      && total == box - slack
      && 0 <= slack < |FlexibleChildren(item.children.items)|
      && (total == box <==> slack == 0)
  {
    var cs := item.children.items;
    var n := |FlexibleChildren(cs)|;
    var rem := Remaining(item, parent, sizes, makeAllVisible, axis);
    LevelGrowth(item, parent, sizes, makeAllVisible, axis);
    SumOfGrowth(cs, LevelSizes(item, parent, sizes, makeAllVisible), makeAllVisible, axis, rem / n);
    assert ChildrenOf(item) == cs;
    DivisionSlack(rem, n);
  }

  // ---------------------------------------------------------------------------
  // Hiding a child that is not flexible

  /** The explicit total over `x + y` is the one over `x` plus the one over `y`. */
  lemma {:induction false} ExplicitTotalConcat(x: seq<LayoutItem>, y: seq<LayoutItem>, makeAllVisible: bool, axis: Axis)
    ensures ExplicitTotal(x + y, makeAllVisible, axis) == ExplicitTotal(x, makeAllVisible, axis) + ExplicitTotal(y, makeAllVisible, axis)
    decreases |y|
  {
    if y == [] {
      assert x + y == x;
    } else {
      var init := y[..|y| - 1];
      assert (x + y)[..|x + y| - 1] == x + init;
      ExplicitTotalConcat(x, init, makeAllVisible, axis);
    }
  }

  /** `x + y` has as many auto children as `x` and `y` together. */
  lemma {:induction false} AutoCountConcat(x: seq<LayoutItem>, y: seq<LayoutItem>, makeAllVisible: bool, axis: Axis)
    ensures |Auto(x + y, makeAllVisible, axis)| == |Auto(x, makeAllVisible, axis)| + |Auto(y, makeAllVisible, axis)|
    decreases |y|
  {
    if y == [] {
      assert x + y == x;
    } else {
      var init := y[..|y| - 1];
      assert (x + y)[..|x + y| - 1] == x + init && (x + y)[|x + y| - 1] == y[|y| - 1];
      AutoCountConcat(x, init, makeAllVisible, axis);
    }
  }

  /** The flexible children of `x + y` are those of `x` followed by those of `y`. */
  lemma {:induction false} FlexibleConcat(x: seq<LayoutItem>, y: seq<LayoutItem>)
    ensures FlexibleChildren(x + y) == FlexibleChildren(x) + FlexibleChildren(y)
    decreases |y|
  {
    if y == [] {
      assert x + y == x;
    } else {
      var init := y[..|y| - 1];
      assert (x + y)[..|x + y| - 1] == x + init;
      FlexibleConcat(x, init);
    }
  }

  /**
    Unless all are made visible, a hidden child that is not flexible adds
    nothing to the explicit total and joins neither the auto nor the flexible
    children: the first-pass totals and counts are those of its siblings alone.
  */
  lemma HiddenFoldsWithout(a: seq<LayoutItem>, h: LayoutItem, b: seq<LayoutItem>, makeAllVisible: bool, axis: Axis)
    requires !makeAllVisible && !h.visible && !h.flexible
    ensures ExplicitTotal(a + [h] + b, makeAllVisible, axis) == ExplicitTotal(a + b, makeAllVisible, axis)
    ensures |Auto(a + [h] + b, makeAllVisible, axis)| == |Auto(a + b, makeAllVisible, axis)|
    ensures FlexibleChildren(a + [h] + b) == FlexibleChildren(a + b)
  {
    HiddenExplicitWithout(a, h, b, makeAllVisible, axis);
    HiddenAutoWithout(a, h, b, makeAllVisible, axis);
    HiddenFlexibleWithout(a, h, b);
  }

  /** `HiddenFoldsWithout` for the explicit total. */
  lemma HiddenExplicitWithout(a: seq<LayoutItem>, h: LayoutItem, b: seq<LayoutItem>, makeAllVisible: bool, axis: Axis)
    requires !makeAllVisible && !h.visible
    ensures ExplicitTotal(a + [h] + b, makeAllVisible, axis) == ExplicitTotal(a + b, makeAllVisible, axis)
  {
    assert [h][..0] == [];
    assert ExplicitTotal([h], makeAllVisible, axis) == 0;
    ExplicitTotalConcat(a, [h], makeAllVisible, axis);
    ExplicitTotalConcat(a + [h], b, makeAllVisible, axis);
    ExplicitTotalConcat(a, b, makeAllVisible, axis);
  }

  /** `HiddenFoldsWithout` for the number of auto children. */
  lemma HiddenAutoWithout(a: seq<LayoutItem>, h: LayoutItem, b: seq<LayoutItem>, makeAllVisible: bool, axis: Axis)
    requires !makeAllVisible && !h.visible
    ensures |Auto(a + [h] + b, makeAllVisible, axis)| == |Auto(a + b, makeAllVisible, axis)|
  {
    assert [h][..0] == [];
    assert Auto([h], makeAllVisible, axis) == [];
    AutoCountConcat(a, [h], makeAllVisible, axis);
    AutoCountConcat(a + [h], b, makeAllVisible, axis);
    AutoCountConcat(a, b, makeAllVisible, axis);
  }

  /** `HiddenFoldsWithout` for the flexible children. */
  lemma HiddenFlexibleWithout(a: seq<LayoutItem>, h: LayoutItem, b: seq<LayoutItem>)
    requires !h.flexible
    ensures FlexibleChildren(a + [h] + b) == FlexibleChildren(a + b)
  {
    assert [h][..0] == [];
    assert FlexibleChildren([h]) == [];
    FlexibleConcat(a, [h]);
    FlexibleConcat(a + [h], b);
    FlexibleConcat(a, b);
  }

  /**
    Unless all are made visible, a hidden child that is not flexible takes no
    part in its siblings' sizes: with it removed from the container, every
    other child gets the same value on either axis.
  */
  lemma HiddenChildRemovable(item: LayoutItem, parent: Option<LayoutItem>, sizes: SizeMap, makeAllVisible: bool,
                             a: seq<LayoutItem>, h: LayoutItem, b: seq<LayoutItem>, c: LayoutItem, axis: Axis)
    requires item.children == ChildList(a + [h] + b) && CanSize(item, sizes)
    requires !makeAllVisible && !h.visible && !h.flexible
    requires c in a + b
    ensures c in item.children.items
    ensures ChildValue(item, parent, sizes, makeAllVisible, c, axis)
            == ChildValue(item.(children := ChildList(a + b)), parent, sizes, makeAllVisible, c, axis)
  {
    var removed := item.(children := ChildList(a + b));
    HiddenFoldsWithout(a, h, b, makeAllVisible, axis);
    HiddenExplicitWithout(a, h, b, makeAllVisible, Width);
    assert ItemSize(item, parent, sizes, true) == ItemSize(removed, parent, sizes, true);
    assert Remaining(item, parent, sizes, makeAllVisible, axis) == Remaining(removed, parent, sizes, makeAllVisible, axis);
    assert Remaining(item, parent, sizes, makeAllVisible, Width) == Remaining(removed, parent, sizes, makeAllVisible, Width);
    ChildValueCongruent(item, removed, parent, sizes, makeAllVisible, c, axis);
  }

  /**
    `ChildValue` depends on the container only through its box, its stacking
    direction, its remaining space and its numbers of auto and flexible
    children.
  */
  lemma ChildValueCongruent(item: LayoutItem, other: LayoutItem, parent: Option<LayoutItem>, sizes: SizeMap,
                            makeAllVisible: bool, c: LayoutItem, axis: Axis)
    requires item.IsContainer() && CanSize(item, sizes) && c in item.children.items
    requires other.IsContainer() && CanSize(other, sizes) && c in other.children.items
    requires other.direction == item.direction
    requires ItemSize(other, parent, sizes, true) == ItemSize(item, parent, sizes, true)
    requires Remaining(other, parent, sizes, makeAllVisible, axis) == Remaining(item, parent, sizes, makeAllVisible, axis)
    requires Remaining(other, parent, sizes, makeAllVisible, Width) == Remaining(item, parent, sizes, makeAllVisible, Width)
    requires |Auto(other.children.items, makeAllVisible, axis)| == |Auto(item.children.items, makeAllVisible, axis)|
    requires |FlexibleChildren(other.children.items)| == |FlexibleChildren(item.children.items)|
    ensures ChildValue(other, parent, sizes, makeAllVisible, c, axis) == ChildValue(item, parent, sizes, makeAllVisible, c, axis)
  {
  }

  /** Removing one item keeps the other keys distinct. */
  lemma DistinctWithout(a: seq<LayoutItem>, h: LayoutItem, b: seq<LayoutItem>)
    requires DistinctKeys(a + [h] + b)
    ensures DistinctKeys(a + b)
  {
    var all := a + [h] + b;
    forall p, q | 0 <= p < q < |a + b|
      ensures (a + b)[p].key != (a + b)[q].key
    {
      var p' := if p < |a| then p else p + 1;
      var q' := if q < |a| then q else q + 1;
      assert all[p'] == (a + b)[p] && all[q'] == (a + b)[q];
    }
  }

  /**
    With distinct keys, unless all are made visible, removing a hidden child
    that is not flexible leaves every sibling's entry in the container's level
    map as it was.
  */
  lemma LevelHiddenChildRemovable(item: LayoutItem, parent: Option<LayoutItem>, sizes: SizeMap, makeAllVisible: bool,
                                  a: seq<LayoutItem>, h: LayoutItem, b: seq<LayoutItem>, i: nat)
    requires item.children == ChildList(a + [h] + b) && CanSize(item, sizes)
    requires !makeAllVisible && !h.visible && !h.flexible
    requires DistinctKeys(a + [h] + b) && i < |a + b|
    ensures (a + b)[i].key in LevelSizes(item, parent, sizes, makeAllVisible)
    ensures (a + b)[i].key in LevelSizes(item.(children := ChildList(a + b)), parent, sizes, makeAllVisible)
    ensures LevelSizes(item, parent, sizes, makeAllVisible)[(a + b)[i].key]
            == LevelSizes(item.(children := ChildList(a + b)), parent, sizes, makeAllVisible)[(a + b)[i].key]
  {
    var removed := item.(children := ChildList(a + b));
    var c := (a + b)[i];
    var j := if i < |a| then i else i + 1;
    assert (a + [h] + b)[j] == c;
    DistinctWithout(a, h, b);
    HiddenChildRemovable(item, parent, sizes, makeAllVisible, a, h, b, c, Width);
    HiddenChildRemovable(item, parent, sizes, makeAllVisible, a, h, b, c, Height);
    LevelEntriesAgree(item, removed, parent, sizes, makeAllVisible, j, i);
  }

  /** Two containers whose `ChildValue`s agree for a shared child leave it the same level entry. */
  lemma LevelEntriesAgree(item: LayoutItem, other: LayoutItem, parent: Option<LayoutItem>, sizes: SizeMap,
                          makeAllVisible: bool, j: nat, i: nat)
    requires item.IsContainer() && CanSize(item, sizes) && DistinctKeys(item.children.items)
    requires other.IsContainer() && CanSize(other, sizes) && DistinctKeys(other.children.items)
    requires j < |item.children.items| && i < |other.children.items|
    requires item.children.items[j] == other.children.items[i]
    requires ChildValue(item, parent, sizes, makeAllVisible, item.children.items[j], Width)
             == ChildValue(other, parent, sizes, makeAllVisible, item.children.items[j], Width)
    requires ChildValue(item, parent, sizes, makeAllVisible, item.children.items[j], Height)
             == ChildValue(other, parent, sizes, makeAllVisible, item.children.items[j], Height)
    ensures item.children.items[j].key in LevelSizes(item, parent, sizes, makeAllVisible)
    ensures item.children.items[j].key in LevelSizes(other, parent, sizes, makeAllVisible)
    ensures LevelSizes(item, parent, sizes, makeAllVisible)[item.children.items[j].key]
            == LevelSizes(other, parent, sizes, makeAllVisible)[item.children.items[j].key]
  {
    var c := item.children.items[j];
    assert c.key in KeysOf(item.children.items) && c.key in KeysOf(other.children.items);
    LevelEntry(item, parent, sizes, makeAllVisible, j);
    LevelEntry(other, parent, sizes, makeAllVisible, i);
  }
}
