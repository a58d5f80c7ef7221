/**
  The whole tree at once. When no key occurs twice in a layout, the map the
  resolver returns gives every child exactly the value `ChildValue` computes
  from its container's own final entry, at every depth, and gives the root
  its declared size.
*/
module LayoutConsistency {
  import opened LayoutTypes
  import opened LayoutSizing
  import opened LayoutSizingLemmas

  /**
    No key occurs twice in the tree: a container's key is not used below
    it, and the subtrees of two of its children share no key.
  */
  ghost predicate WellKeyed(item: LayoutItem)
    decreases item
  {
    match item.children
    case NoChildren => true
    case ChildList(cs) =>
      && item.key !in DescendantKeys(item)
      && (forall i, j :: 0 <= i < j < |cs| ==> SubtreeKeys(cs[i]) !! SubtreeKeys(cs[j]))
      && (forall c :: c in cs ==> WellKeyed(c))
  }

  /**
    `m` sizes the tree below `item` as the resolver does: each child's entry
    is the value its container computes from the container's own entry, and
    so on down.
  */
  ghost predicate Consistent(item: LayoutItem, m: SizeMap, makeAllVisible: bool)
    decreases item
  {
    item.IsContainer() ==>
      && CanSize(item, m)
      && (forall c :: c in item.children.items ==>
            && c.key in m
            && m[c.key] == Size(ChildValue(item, None, m, makeAllVisible, c, Width),
                                ChildValue(item, None, m, makeAllVisible, c, Height)))
      && (forall c :: c in item.children.items ==> Consistent(c, m, makeAllVisible))
  }

  /** Two maps agree on the keys `keys`: same presence, same entries. */
  ghost predicate AgreeOn(m1: SizeMap, m2: SizeMap, keys: set<string>) {
    forall k :: k in keys ==> (k in m1 <==> k in m2) && (k in m1 ==> m1[k] == m2[k])
  }

  /** Child keys of a well-keyed container are distinct. */
  lemma WellKeyedDistinct(item: LayoutItem)
    requires item.IsContainer() && WellKeyed(item)
    ensures DistinctKeys(item.children.items)
  {
    var cs := item.children.items;
    forall i, j | 0 <= i < j < |cs|
      ensures cs[i].key != cs[j].key
    {
      assert cs[i].key in SubtreeKeys(cs[i]) && cs[j].key in SubtreeKeys(cs[j]);
    }
  }

  /** The keys below child `j` are among the keys below children `i` onwards, for `i <= j`. */
  lemma {:induction false} DeepKeysContain(item: LayoutItem, i: nat, j: nat)
    requires item.IsContainer() && i <= j < |item.children.items|
    ensures DescendantKeys(item.children.items[j]) <= DeepKeys(item, i)
    decreases j - i
  {
    if i != j {
      DeepKeysContain(item, i + 1, j);
    }
  }

  /** A key below none of children `i` onwards is not in their deep keys. */
  lemma {:induction false} NotInDeepKeys(item: LayoutItem, i: nat, k: string)
    requires item.IsContainer() && i <= |item.children.items|
    requires forall j :: i <= j < |item.children.items| ==> k !in DescendantKeys(item.children.items[j])
    ensures k !in DeepKeys(item, i)
    decreases |item.children.items| - i
  {
    if i != |item.children.items| {
      NotInDeepKeys(item, i + 1, k);
    }
  }

  /** A child's subtree lies below its container. */
  lemma ChildSubtree(item: LayoutItem, j: nat)
    requires item.IsContainer() && j < |item.children.items|
    ensures SubtreeKeys(item.children.items[j]) <= DescendantKeys(item)
  {
    var cs := item.children.items;
    assert cs[j] in cs;
    DeepKeysContain(item, 0, j);
  }

  /** A container's own box depends only on its own entry, and not on the parent. */
  lemma BoxLocal(item: LayoutItem, parent1: Option<LayoutItem>, parent2: Option<LayoutItem>, m1: SizeMap, m2: SizeMap)
    requires CanSize(item, m1) && CanSize(item, m2)
    requires item.key in m1 && item.key in m2 ==> m1[item.key] == m2[item.key]
    ensures ItemSize(item, parent1, m1, true) == ItemSize(item, parent2, m2, true)
  {
  }

  /** The space a container has left on `axis` depends only on its own box. */
  lemma RemainingLocal(
    item: LayoutItem, parent1: Option<LayoutItem>, parent2: Option<LayoutItem>,
    m1: SizeMap, m2: SizeMap, makeAllVisible: bool, axis: Axis)
    requires CanSize(item, m1) && CanSize(item, m2)
    requires ItemSize(item, parent1, m1, true) == ItemSize(item, parent2, m2, true)
    ensures Remaining(item, parent1, m1, makeAllVisible, axis) == Remaining(item, parent2, m2, makeAllVisible, axis)
  {
  }

  /** `ChildValue` reads of the map only the container's own box. */
  lemma ChildValueLocal(
    item: LayoutItem, parent1: Option<LayoutItem>, parent2: Option<LayoutItem>,
    m1: SizeMap, m2: SizeMap, makeAllVisible: bool, c: LayoutItem, axis: Axis)
    requires item.IsContainer() && CanSize(item, m1) && CanSize(item, m2) && c in item.children.items
    requires ItemSize(item, parent1, m1, true) == ItemSize(item, parent2, m2, true)
    ensures ChildValue(item, parent1, m1, makeAllVisible, c, axis) == ChildValue(item, parent2, m2, makeAllVisible, c, axis)
  {
    RemainingLocal(item, parent1, parent2, m1, m2, makeAllVisible, axis);
    RemainingLocal(item, parent1, parent2, m1, m2, makeAllVisible, Width);
  }

  /** Whether `m` is consistent below `item` depends only on `m`'s entries in the subtree. */
  lemma {:induction false} ConsistentLocal(item: LayoutItem, m1: SizeMap, m2: SizeMap, makeAllVisible: bool)
    requires Consistent(item, m1, makeAllVisible)
    requires AgreeOn(m1, m2, SubtreeKeys(item))
    ensures Consistent(item, m2, makeAllVisible)
    decreases item
  {
    if item.IsContainer() {
      var cs := item.children.items;
      assert item.key in SubtreeKeys(item);
      forall c | c in cs
        ensures c.key in m2
        ensures m2[c.key] == Size(ChildValue(item, None, m2, makeAllVisible, c, Width),
                                  ChildValue(item, None, m2, makeAllVisible, c, Height))
        ensures Consistent(c, m2, makeAllVisible)
      {
        var j :| 0 <= j < |cs| && cs[j] == c;
        ChildSubtree(item, j);
        assert c.key in SubtreeKeys(c);
        BoxLocal(item, None, None, m1, m2);
        ChildValueLocal(item, None, None, m1, m2, makeAllVisible, c, Width);
        ChildValueLocal(item, None, None, m1, m2, makeAllVisible, c, Height);
        ConsistentLocal(c, m1, m2, makeAllVisible);
      }
    }
  }

  /** Child `i`'s step of the descent: its own recursion, then the rest from `next`, which is `i + 1`. */
  lemma DescendStep(item: LayoutItem, i: nat, next: nat, parent: Option<LayoutItem>, sizes: SizeMap, makeAllVisible: bool)
    requires item.IsContainer() && i < |item.children.items| && next == i + 1 && KeysOf(item.children.items) <= sizes.Keys
    ensures CanLayOut(item.children.items[i], sizes)
    ensures KeysOf(item.children.items) <= ChildrenSizes(item.children.items[i], parent, sizes, makeAllVisible).Keys
    ensures Descend(item, i, parent, sizes, makeAllVisible)
            == Descend(item, next, parent, ChildrenSizes(item.children.items[i], parent, sizes, makeAllVisible), makeAllVisible)
  {
    assert item.children.items[i].key in KeysOf(item.children.items);
  }

  /**
    The descent from child `i` onwards, on any map holding the children's
    keys, leaves the map consistent below child `j`, for `i <= j`.
  */
  lemma {:induction false} DescendConsistent(
    item: LayoutItem, i: nat, parent: Option<LayoutItem>, sizes: SizeMap, makeAllVisible: bool, j: nat)
    requires item.IsContainer() && WellKeyed(item) && i <= j < |item.children.items|
    requires KeysOf(item.children.items) <= sizes.Keys
    ensures Consistent(item.children.items[j], Descend(item, i, parent, sizes, makeAllVisible), makeAllVisible)
    decreases item, 0, |item.children.items| - i
  {
    var cs := item.children.items;
    DescendStep(item, i, i + 1, parent, sizes, makeAllVisible);
    var after := ChildrenSizes(cs[i], parent, sizes, makeAllVisible);
    if i == j {
      SiblingKeys(item, i);
      assert cs[i] in cs;
      ChildrenSizesConsistent(cs[i], parent, sizes, makeAllVisible);
      LaterSiblingsApart(item, i);
      ConsistentLocal(cs[i], after, Descend(item, i + 1, parent, after, makeAllVisible), makeAllVisible);
    } else {
      DescendConsistent(item, i + 1, parent, after, makeAllVisible, j);
    }
  }

  /** A container's level map holds an entry for every child. */
  lemma LevelHoldsChildren(item: LayoutItem, parent: Option<LayoutItem>, sizes: SizeMap, makeAllVisible: bool)
    requires item.IsContainer() && CanSize(item, sizes)
    ensures KeysOf(item.children.items) <= LevelSizes(item, parent, sizes, makeAllVisible).Keys
  {
    assert ChildrenOf(item) == item.children.items;
  }

  /** Below a container, the recursion is the descent over all its children from the level's map. */
  lemma ChildrenSizesUnfold(item: LayoutItem, parent: Option<LayoutItem>, sizes: SizeMap, makeAllVisible: bool)
    requires item.IsContainer() && CanSize(item, sizes)
    requires KeysOf(item.children.items) <= LevelSizes(item, parent, sizes, makeAllVisible).Keys
    ensures ChildrenSizes(item, parent, sizes, makeAllVisible)
            == Descend(item, 0, parent, LevelSizes(item, parent, sizes, makeAllVisible), makeAllVisible)
  {
  }

  /** In a well-keyed container, child `i` is well keyed and its key is below no child. */
  lemma SiblingKeys(item: LayoutItem, i: nat)
    requires item.IsContainer() && WellKeyed(item) && i < |item.children.items|
    ensures WellKeyed(item.children.items[i])
    ensures forall j :: 0 <= j < |item.children.items| ==> item.children.items[i].key !in DescendantKeys(item.children.items[j])
  {
    var cs := item.children.items;
    var c := cs[i];
    assert c in cs;
    assert c.key in SubtreeKeys(c);
    forall j | 0 <= j < |cs|
      ensures c.key !in DescendantKeys(cs[j])
    {
      if j < i {
        assert SubtreeKeys(cs[j]) !! SubtreeKeys(cs[i]);
      } else if i < j {
        assert SubtreeKeys(cs[i]) !! SubtreeKeys(cs[j]);
      }
    }
  }

  /** In a well-keyed container, no key of child `i`'s subtree is below a later child. */
  lemma LaterSiblingsApart(item: LayoutItem, i: nat)
    requires item.IsContainer() && WellKeyed(item) && i < |item.children.items|
    ensures SubtreeKeys(item.children.items[i]) !! DeepKeys(item, i + 1)
  {
    forall k | k in SubtreeKeys(item.children.items[i])
      ensures k !in DeepKeys(item, i + 1)
    {
      NotLater(item, i, k);
    }
  }

  /** `LaterSiblingsApart` for one key. */
  lemma NotLater(item: LayoutItem, i: nat, k: string)
    requires item.IsContainer() && WellKeyed(item) && i < |item.children.items|
    requires k in SubtreeKeys(item.children.items[i])
    ensures k !in DeepKeys(item, i + 1)
  {
    var cs := item.children.items;
    forall j | i + 1 <= j < |cs|
      ensures k !in DescendantKeys(cs[j])
    {
      assert SubtreeKeys(cs[i]) !! SubtreeKeys(cs[j]);
    }
    NotInDeepKeys(item, i + 1, k);
  }

  /**
    The resolver's map is consistent below any well-keyed item, whatever
    parent it is handed and whatever the map held before.
  */
  lemma {:induction false} ChildrenSizesConsistent(item: LayoutItem, parent: Option<LayoutItem>, sizes: SizeMap, makeAllVisible: bool)
    requires WellKeyed(item) && CanLayOut(item, sizes)
    ensures Consistent(item, ChildrenSizes(item, parent, sizes, makeAllVisible), makeAllVisible)
    decreases item, 1
  {
    if item.IsContainer() {
      var cs := item.children.items;
      var result := ChildrenSizes(item, parent, sizes, makeAllVisible);
      forall c | c in cs
        ensures c.key in result
        ensures result[c.key] == Size(ChildValue(item, None, result, makeAllVisible, c, Width),
                                      ChildValue(item, None, result, makeAllVisible, c, Height))
        ensures Consistent(c, result, makeAllVisible)
      {
        var i :| 0 <= i < |cs| && cs[i] == c;
        ChildEntry(item, parent, sizes, makeAllVisible, i);
        BoxLocal(item, parent, None, sizes, result);
        ChildValueLocal(item, parent, None, sizes, result, makeAllVisible, c, Width);
        ChildValueLocal(item, parent, None, sizes, result, makeAllVisible, c, Height);
        ChildConsistent(item, parent, sizes, makeAllVisible, i);
      }
    }
  }

  /**
    The final entry of child `i` is the one its container's level computed,
    and the container's own entry is left as it was.
  */
  lemma ChildEntry(item: LayoutItem, parent: Option<LayoutItem>, sizes: SizeMap, makeAllVisible: bool, i: nat)
    requires item.IsContainer() && WellKeyed(item) && CanSize(item, sizes) && i < |item.children.items|
    ensures
      var c := item.children.items[i];
      var result := ChildrenSizes(item, parent, sizes, makeAllVisible);
      && c.key in result
      && result[c.key] == Size(ChildValue(item, parent, sizes, makeAllVisible, c, Width),
                               ChildValue(item, parent, sizes, makeAllVisible, c, Height))
      && (item.key in sizes ==> item.key in result && result[item.key] == sizes[item.key])
  {
    var cs := item.children.items;
    var c := cs[i];
    WellKeyedDistinct(item);
    LevelHoldsChildren(item, parent, sizes, makeAllVisible);
    ChildrenSizesUnfold(item, parent, sizes, makeAllVisible);
    SiblingKeys(item, i);
    NotInDeepKeys(item, 0, c.key);
    LevelEntry(item, parent, sizes, makeAllVisible, i);
  }

  /** Below child `i` the final map is consistent. */
  lemma ChildConsistent(item: LayoutItem, parent: Option<LayoutItem>, sizes: SizeMap, makeAllVisible: bool, i: nat)
    requires item.IsContainer() && WellKeyed(item) && CanSize(item, sizes) && i < |item.children.items|
    ensures Consistent(item.children.items[i], ChildrenSizes(item, parent, sizes, makeAllVisible), makeAllVisible)
    decreases item, 0
  {
    LevelHoldsChildren(item, parent, sizes, makeAllVisible);
    ChildrenSizesUnfold(item, parent, sizes, makeAllVisible);
    DescendConsistent(item, 0, parent, LevelSizes(item, parent, sizes, makeAllVisible), makeAllVisible, i);
  }

  /** A container's axis pass does not depend on the parent it is handed. */
  lemma ContainerAxisPassParent(
    item: LayoutItem, parent1: Option<LayoutItem>, parent2: Option<LayoutItem>,
    base: SizeMap, makeAllVisible: bool, sizes: SizeMap, axis: Axis)
    requires item.IsContainer() && CanSize(item, base) && KeysOf(item.children.items) <= sizes.Keys
    ensures ContainerAxisPass(item, parent1, base, makeAllVisible, sizes, axis)
            == ContainerAxisPass(item, parent2, base, makeAllVisible, sizes, axis)
  {
    BoxLocal(item, parent1, parent2, base, base);
    RemainingLocal(item, parent1, parent2, base, base, makeAllVisible, axis);
    RemainingLocal(item, parent1, parent2, base, base, makeAllVisible, Width);
  }

  /** A container's level map does not depend on the parent it is handed. */
  lemma LevelParent(item: LayoutItem, parent1: Option<LayoutItem>, parent2: Option<LayoutItem>, sizes: SizeMap, makeAllVisible: bool)
    requires item.IsContainer() && CanSize(item, sizes)
    ensures LevelSizes(item, parent1, sizes, makeAllVisible) == LevelSizes(item, parent2, sizes, makeAllVisible)
  {
    var seeded := Seed(item.children.items, sizes, makeAllVisible);
    ContainerAxisPassParent(item, parent1, parent2, sizes, makeAllVisible, seeded, Width);
    var widths := ContainerAxisPass(item, parent1, sizes, makeAllVisible, seeded, Width);
    ContainerAxisPassParent(item, parent1, parent2, sizes, makeAllVisible, widths, Height);
  }

  /**
    The parent handed to the recursion makes no difference to the result:
    a container's box has no drag-bar gap, so the parent is never read.
  */
  lemma {:induction false} ParentIrrelevant(
    item: LayoutItem, parent1: Option<LayoutItem>, parent2: Option<LayoutItem>, sizes: SizeMap, makeAllVisible: bool)
    requires CanLayOut(item, sizes)
    ensures ChildrenSizes(item, parent1, sizes, makeAllVisible) == ChildrenSizes(item, parent2, sizes, makeAllVisible)
    decreases item, 1
  {
    if item.IsContainer() {
      LevelParent(item, parent1, parent2, sizes, makeAllVisible);
      LevelHoldsChildren(item, parent1, sizes, makeAllVisible);
      ChildrenSizesUnfold(item, parent1, sizes, makeAllVisible);
      ChildrenSizesUnfold(item, parent2, sizes, makeAllVisible);
      DescendParent(item, 0, parent1, parent2, LevelSizes(item, parent1, sizes, makeAllVisible), makeAllVisible);
    }
  }

  /** `ParentIrrelevant` for the descent from child `i` onwards. */
  lemma {:induction false} DescendParent(
    item: LayoutItem, i: nat, parent1: Option<LayoutItem>, parent2: Option<LayoutItem>, sizes: SizeMap, makeAllVisible: bool)
    requires item.IsContainer() && i <= |item.children.items| && KeysOf(item.children.items) <= sizes.Keys
    ensures Descend(item, i, parent1, sizes, makeAllVisible) == Descend(item, i, parent2, sizes, makeAllVisible)
    decreases item, 0, |item.children.items| - i
  {
    if i != |item.children.items| {
      var child := item.children.items[i];
      DescendStep(item, i, i + 1, parent1, sizes, makeAllVisible);
      DescendStep(item, i, i + 1, parent2, sizes, makeAllVisible);
      ParentIrrelevant(child, parent1, parent2, sizes, makeAllVisible);
      DescendParent(item, i + 1, parent1, parent2, ChildrenSizes(child, parent1, sizes, makeAllVisible), makeAllVisible);
    }
  }

  /**
    A resolved well-keyed layout: the root keeps its declared size and the
    whole tree is consistent.
  */
  lemma ResolveConsistent(layout: LayoutItem, makeAllVisible: bool)
    requires WellKeyed(layout) && layout.width.Some? && layout.height.Some?
    ensures Resolve(layout, makeAllVisible).Ok?
    ensures layout.key in Resolve(layout, makeAllVisible).value
    ensures Resolve(layout, makeAllVisible).value[layout.key] == Size(layout.width.value, layout.height.value)
    ensures Consistent(layout, Resolve(layout, makeAllVisible).value, makeAllVisible)
  {
    var root := map[layout.key := Size(layout.width.value, layout.height.value)];
    assert Resolve(layout, makeAllVisible).value == ChildrenSizes(layout, None, root, makeAllVisible);
    ChildrenSizesConsistent(layout, None, root, makeAllVisible);
  }
}
