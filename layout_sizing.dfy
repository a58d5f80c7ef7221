/**
  Specification of the layout size resolver as functions.

  `ItemSize` is the rendered-size accessor. `LevelSizes` is what one
  container does to the map before it recurses: a first pass over the
  children (declared sizes, hidden children, remaining space), then one pass
  per axis that hands the remaining space to the auto children, or failing
  those to the flexible ones. `ChildrenSizes` adds the recursion into every
  child, and `Resolve` is the entry point with its check on the root.
*/
module LayoutSizing {
  import opened LayoutTypes

  /** Thickness of the drag bar drawn on a resizable edge. */
  const DragBarThickness: int := 5

  const RootSizeError: string := "width and height are required on layout root"

  function OrZero(o: Option<int>): int {
    if o.Some? then o.value else 0
  }

  function Max(a: int, b: int): int {
    if a < b then b else a
  }

  /** The keys of the items in `cs`. */
  ghost function KeysOf(cs: seq<LayoutItem>): set<string> {
    set c | c in cs :: c.key
  }

  /** No two items of `cs` share a key. */
  ghost predicate DistinctKeys(cs: seq<LayoutItem>) {
    forall i, j :: 0 <= i < j < |cs| ==> cs[i].key != cs[j].key
  }

  // ---------------------------------------------------------------------------
  // itemSize

  /** The base size on `axis` is read from the map, not from the item. */
  predicate UsesComputed(item: LayoutItem, axis: Axis) {
    item.Declared(axis).None? || item.flexible
  }

  /** The map holds what `ItemSize` needs to read. */
  predicate CanSize(item: LayoutItem, sizes: SizeMap) {
    (UsesComputed(item, Width) || UsesComputed(item, Height)) ==> item.key in sizes
  }

  /** The undiminished box of `item` on `axis`. */
  function BaseSize(item: LayoutItem, sizes: SizeMap, axis: Axis): (r: int)
    requires CanSize(item, sizes)
    ensures item.Declared(axis).Some? && !item.flexible ==> r == item.Declared(axis).value
    ensures item.Declared(axis).None? || item.flexible ==> r == sizes[item.key].Get(axis)
  {
    if UsesComputed(item, axis) then sizes[item.key].Get(axis) else item.Declared(axis).value
  }

  /** The item or its parent carries a drag bar on the edge that ends `axis`. */
  predicate HasDragBar(item: LayoutItem, parent: Option<LayoutItem>, axis: Axis) {
    match axis
    case Width => item.resizableRight || (parent.Some? && parent.value.resizableRight)
    case Height => item.resizableBottom || (parent.Some? && parent.value.resizableBottom)
  }

  /**
    The rendered size of an item: the base size, less the drag bar thickness
    on the right and bottom edges of a non-container that carries a drag bar
    there.
  */
  function ItemSize(item: LayoutItem, parent: Option<LayoutItem>, sizes: SizeMap, isContainer: bool): (r: Size)
    requires CanSize(item, sizes)
    ensures isContainer ==> r.width == BaseSize(item, sizes, Width) && r.height == BaseSize(item, sizes, Height)
    ensures forall axis: Axis ::
              BaseSize(item, sizes, axis) - r.Get(axis)
              == if !isContainer && HasDragBar(item, parent, axis) then DragBarThickness else 0
  {
    var parentResizableRight := parent.Some? && parent.value.resizableRight;
    var parentResizableBottom := parent.Some? && parent.value.resizableBottom;
    var rightGap := if !isContainer && (item.resizableRight || parentResizableRight) then DragBarThickness else 0;
    var bottomGap := if !isContainer && (item.resizableBottom || parentResizableBottom) then DragBarThickness else 0;
    Size(
      (if item.width.None? || item.flexible then sizes[item.key].width else item.width.value) - rightGap,
      (if item.height.None? || item.flexible then sizes[item.key].height else item.height.value) - bottomGap)
  }

  // ---------------------------------------------------------------------------
  // First pass over the children of a container

  /** The value a child starts with on `axis`: its declared size, or 0 when it is hidden. */
  function FirstPass(child: LayoutItem, makeAllVisible: bool, axis: Axis): (r: Option<int>)
    ensures !makeAllVisible && !child.visible ==> r == Some(0)
    ensures makeAllVisible || child.visible ==> r == child.Declared(axis)
    ensures r.None? <==> child.Declared(axis).None? && (makeAllVisible || child.visible)
  {
    if !makeAllVisible && !child.visible then Some(0) else child.Declared(axis)
  }

  /** The entry the first pass writes for a child; an auto dimension starts as 0. */
  function SeedEntry(child: LayoutItem, makeAllVisible: bool): Size {
    Size(OrZero(FirstPass(child, makeAllVisible, Width)), OrZero(FirstPass(child, makeAllVisible, Height)))
  }

  /** The map after the first pass has written an entry for each child of `cs`, in order. */
  function Seed(cs: seq<LayoutItem>, sizes: SizeMap, makeAllVisible: bool): (r: SizeMap)
    ensures r.Keys == sizes.Keys + KeysOf(cs)
    ensures forall k :: k in sizes && k !in KeysOf(cs) ==> r[k] == sizes[k]
    decreases |cs|
  {
    if cs == [] then sizes
    else
      var last := cs[|cs| - 1];
      assert cs == cs[..|cs| - 1] + [last];
      Seed(cs[..|cs| - 1], sizes, makeAllVisible)[last.key := SeedEntry(last, makeAllVisible)]
  }

  /** The sum of the values the children of `cs` start with on `axis`. */
  function ExplicitTotal(cs: seq<LayoutItem>, makeAllVisible: bool, axis: Axis): int
    decreases |cs|
  {
    if cs == [] then 0
    else ExplicitTotal(cs[..|cs| - 1], makeAllVisible, axis) + OrZero(FirstPass(cs[|cs| - 1], makeAllVisible, axis))
  }

  /** The children of `cs` that start with no value on `axis`, in order. */
  function Auto(cs: seq<LayoutItem>, makeAllVisible: bool, axis: Axis): (r: seq<LayoutItem>)
    ensures forall c :: c in r <==> c in cs && FirstPass(c, makeAllVisible, axis).None?
    decreases |cs|
  {
    if cs == [] then []
    else
      var last := cs[|cs| - 1];
      assert cs == cs[..|cs| - 1] + [last];
      Auto(cs[..|cs| - 1], makeAllVisible, axis) + (if FirstPass(last, makeAllVisible, axis).None? then [last] else [])
  }

  /** The flexible children of `cs`, in order, hidden ones included. */
  function FlexibleChildren(cs: seq<LayoutItem>): (r: seq<LayoutItem>)
    ensures forall c :: c in r <==> c in cs && c.flexible
    decreases |cs|
  {
    if cs == [] then []
    else
      var last := cs[|cs| - 1];
      assert cs == cs[..|cs| - 1] + [last];
      FlexibleChildren(cs[..|cs| - 1]) + (if last.flexible then [last] else [])
  }

  // ---------------------------------------------------------------------------
  // Axis passes

  /** Sets the `axis` dimension of the entry of every item of `cs` to `v`. */
  function AssignAll(cs: seq<LayoutItem>, sizes: SizeMap, axis: Axis, v: int): (r: SizeMap)
    requires KeysOf(cs) <= sizes.Keys
    ensures r.Keys == sizes.Keys
    ensures forall k :: k in sizes && k !in KeysOf(cs) ==> r[k] == sizes[k]
    ensures forall c :: c in cs ==> r[c.key] == sizes[c.key].With(axis, v)
    decreases |cs|
  {
    if cs == [] then sizes
    else
      var last := cs[|cs| - 1];
      assert cs == cs[..|cs| - 1] + [last];
      var prev := AssignAll(cs[..|cs| - 1], sizes, axis, v);
      prev[last.key := prev[last.key].With(axis, v)]
  }

  /**
    Adds `share` to the `axis` dimension of the entry of every item of `cs`,
    clamping the sum at 0.
  */
  function GrowAll(cs: seq<LayoutItem>, sizes: SizeMap, axis: Axis, share: int): (r: SizeMap)
    requires KeysOf(cs) <= sizes.Keys
    ensures r.Keys == sizes.Keys
    ensures forall k :: k in sizes && k !in KeysOf(cs) ==> r[k] == sizes[k]
    decreases |cs|
  {
    if cs == [] then sizes
    else
      var last := cs[|cs| - 1];
      assert cs == cs[..|cs| - 1] + [last];
      var prev := GrowAll(cs[..|cs| - 1], sizes, axis, share);
      prev[last.key := prev[last.key].With(axis, Max(prev[last.key].Get(axis) + share, 0))]
  }

  /** Whether a container stacks its children along `axis`. */
  predicate IsMainAxis(direction: Option<Direction>, axis: Axis) {
    match axis
    case Width => direction == Some(Row)
    case Height => direction == Some(Column)
  }

  /**
    What each of `count` children receives: on the stacking axis the floored
    equal share of `remaining`, on the other axis the container's `full` size.
  */
  function Share(mainAxis: bool, remaining: int, count: int, full: int): (r: int)
    requires count > 0
    ensures mainAxis ==> count * r <= remaining < count * r + count
    ensures !mainAxis ==> r == full
  {
    if mainAxis then remaining / count else full
  }

  /**
    One axis of a container: the auto children get a share; if there are
    none, and `guard` is non-zero, the flexible children grow by a share.
  */
  function AxisPass(
    mainAxis: bool, full: int, remaining: int, guard: int,
    auto: seq<LayoutItem>, flexible: seq<LayoutItem>, sizes: SizeMap, axis: Axis): (r: SizeMap)
    requires KeysOf(auto) <= sizes.Keys && KeysOf(flexible) <= sizes.Keys
    ensures r.Keys == sizes.Keys
    ensures forall k :: k in sizes && k !in KeysOf(auto) + KeysOf(flexible) ==> r[k] == sizes[k]
  {
    if |auto| > 0 then AssignAll(auto, sizes, axis, Share(mainAxis, remaining, |auto|, full))
    else if guard != 0 && |flexible| != 0 then GrowAll(flexible, sizes, axis, Share(mainAxis, remaining, |flexible|, full))
    else sizes
  }

  // ---------------------------------------------------------------------------
  // One container

  function ChildrenOf(item: LayoutItem): seq<LayoutItem> {
    if item.children.ChildList? then item.children.items else []
  }

  /** The container's own box, less what its children declare on `axis`. */
  function Remaining(item: LayoutItem, parent: Option<LayoutItem>, sizes: SizeMap, makeAllVisible: bool, axis: Axis): (r: int)
    requires CanSize(item, sizes)
    ensures r + ExplicitTotal(ChildrenOf(item), makeAllVisible, axis) == BaseSize(item, sizes, axis)
  {
    ItemSize(item, parent, sizes, true).Get(axis) - ExplicitTotal(ChildrenOf(item), makeAllVisible, axis)
  }

  lemma FiltersAreChildren(cs: seq<LayoutItem>, makeAllVisible: bool, axis: Axis)
    ensures KeysOf(Auto(cs, makeAllVisible, axis)) <= KeysOf(cs)
    ensures KeysOf(FlexibleChildren(cs)) <= KeysOf(cs)
  {
  }

  /**
    One axis pass of a container over the map `sizes`; `base` is the map the
    container's own box is read from. The guard on the flexible children is
    the remaining WIDTH on both axes, as the resolver has it.
  */
  function ContainerAxisPass(
    item: LayoutItem, parent: Option<LayoutItem>, base: SizeMap, makeAllVisible: bool, sizes: SizeMap, axis: Axis): (r: SizeMap)
    requires item.IsContainer() && CanSize(item, base) && KeysOf(item.children.items) <= sizes.Keys
    ensures r.Keys == sizes.Keys
    ensures forall k :: k in sizes && k !in KeysOf(item.children.items) ==> r[k] == sizes[k]
  {
    var cs := item.children.items;
    FiltersAreChildren(cs, makeAllVisible, axis);
    AxisPass(
      IsMainAxis(item.direction, axis), ItemSize(item, parent, base, true).Get(axis),
      Remaining(item, parent, base, makeAllVisible, axis), Remaining(item, parent, base, makeAllVisible, Width),
      Auto(cs, makeAllVisible, axis), FlexibleChildren(cs), sizes, axis)
  }

  /**
    The map after a container has sized its direct children, before it
    recurses: the first pass, then the width pass, then the height pass.
  */
  function LevelSizes(item: LayoutItem, parent: Option<LayoutItem>, sizes: SizeMap, makeAllVisible: bool): (r: SizeMap)
    requires item.IsContainer() && CanSize(item, sizes)
    ensures r.Keys == sizes.Keys + KeysOf(ChildrenOf(item))
    ensures forall k :: k in sizes && k !in KeysOf(ChildrenOf(item)) ==> r[k] == sizes[k]
  {
    var seeded := Seed(item.children.items, sizes, makeAllVisible);
    var widths := ContainerAxisPass(item, parent, sizes, makeAllVisible, seeded, Width);
    ContainerAxisPass(item, parent, sizes, makeAllVisible, widths, Height)
  }

  // ---------------------------------------------------------------------------
  // The whole subtree

  /** The keys of every item strictly below `item`. */
  ghost function DescendantKeys(item: LayoutItem): set<string>
    decreases item, 1, 0
  {
    if item.children.NoChildren? then {}
    else KeysOf(item.children.items) + DeepKeys(item, 0)
  }

  /** The keys strictly below children `i` onwards of `item`. */
  ghost function DeepKeys(item: LayoutItem, i: nat): set<string>
    requires item.IsContainer() && i <= |item.children.items|
    decreases item, 0, |item.children.items| - i
  {
    if i == |item.children.items| then {}
    else DescendantKeys(item.children.items[i]) + DeepKeys(item, i + 1)
  }

  /** The keys of `item` and of every item below it. */
  ghost function SubtreeKeys(item: LayoutItem): set<string> {
    {item.key} + DescendantKeys(item)
  }

  /** The map holds what `ChildrenSizes` needs to read. */
  predicate CanLayOut(item: LayoutItem, sizes: SizeMap) {
    item.IsContainer() ==> CanSize(item, sizes)
  }

  /**
    The map after `item` and every container below it have sized their
    children. Entries appear for every key below `item`, and nothing else
    changes.
  */
  function ChildrenSizes(item: LayoutItem, parent: Option<LayoutItem>, sizes: SizeMap, makeAllVisible: bool): (r: SizeMap)
    requires CanLayOut(item, sizes)
    ensures r.Keys == sizes.Keys + DescendantKeys(item)
    ensures forall k :: k in sizes && k !in DescendantKeys(item) ==> r[k] == sizes[k]
    decreases item, 1, 0
  {
    if item.children.NoChildren? then sizes
    else
      var level := LevelSizes(item, parent, sizes, makeAllVisible);
      assert ChildrenOf(item) == item.children.items;
      var r := Descend(item, 0, parent, level, makeAllVisible);
      UpdatesCompose(sizes, level, r, KeysOf(item.children.items), DeepKeys(item, 0));
      r
  }

  /**
    Two rounds of updates, the first adding or changing only keys in `a` and
    the second only keys in `b`, add or change only keys in `a + b`.
  */
  lemma UpdatesCompose(m0: SizeMap, m1: SizeMap, m2: SizeMap, a: set<string>, b: set<string>)
    requires m1.Keys == m0.Keys + a && forall k :: k in m0 && k !in a ==> m1[k] == m0[k]
    requires m2.Keys == m1.Keys + b && forall k :: k in m1 && k !in b ==> m2[k] == m1[k]
    ensures m2.Keys == m0.Keys + (a + b)
    ensures forall k :: k in m0 && k !in a + b ==> m2[k] == m0[k]
  {
  }

  /**
    Recursion into children `i` onwards of `item`, in order, each on the map
    the previous one left.
  */
  function Descend(item: LayoutItem, i: nat, parent: Option<LayoutItem>, sizes: SizeMap, makeAllVisible: bool): (r: SizeMap)
    requires item.IsContainer() && i <= |item.children.items|
    requires KeysOf(item.children.items) <= sizes.Keys
    ensures r.Keys == sizes.Keys + DeepKeys(item, i)
    ensures forall k :: k in sizes && k !in DeepKeys(item, i) ==> r[k] == sizes[k]
    decreases item, 0, |item.children.items| - i
  {
    if i == |item.children.items| then sizes
    else
      var child := item.children.items[i];
      assert child.key in KeysOf(item.children.items);
      Descend(item, i + 1, parent, ChildrenSizes(child, parent, sizes, makeAllVisible), makeAllVisible)
  }

  /**
    Resolution of a whole layout: an error when the root does not declare
    both dimensions, otherwise a map with an entry for every key of the tree
    and no other.
  */
  function Resolve(layout: LayoutItem, makeAllVisible: bool): (r: Result<SizeMap, string>)
    ensures r.Err? <==> layout.width.None? || layout.height.None?
    ensures r.Err? ==> r.error == RootSizeError
    ensures r.Ok? ==> r.value.Keys == SubtreeKeys(layout)
  {
    if layout.width.None? || layout.height.None? then Err(RootSizeError)
    else
      var root := map[layout.key := Size(layout.width.value, layout.height.value)];
      Ok(ChildrenSizes(layout, None, root, makeAllVisible))
  }
}
