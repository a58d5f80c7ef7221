# Layout item sizes

A Dafny model of the box-layout size resolver of the desktop app's resizable
panels, `packages/app-desktop/gui/ResizableLayout/utils/useLayoutItemSizes.ts`.
The resolver walks a tree of layout items top-down. It fills a map from item
key to `{width, height}`, so that each container's children share the
container's box.

- A child with a declared size starts from that size. A hidden child starts at 0 by 0, unless `makeAllVisible` is set.
- A child with no value on an axis (an *auto* child) gets the floored equal share of what its siblings leave on the container's stacking axis. On the other axis it gets the container's full size.
- When an axis has no auto children and the remaining width is non-zero, the flexible children grow by such a share instead, clamped at 0.
- `itemSize` turns a map entry into a rendered size. It subtracts a 5-pixel drag bar from the resizable edges of non-containers.

The project has five modules:

- `LayoutTypes` (`layout_types.dfy`): the values. A layout item carries only the fields the resolver reads. An optional declared size is an `Option<int>`. Resolved sizes and the key-to-size map complete the module.
- `LayoutSizing` (`layout_sizing.dfy`): the resolver as functions.
  - `ItemSize` models `itemSize`.
  - `Seed`, `ExplicitTotal`, `Auto` and `FlexibleChildren` model the first loop over a container's children.
  - `AxisPass` models each of the two axis blocks. Width and height are one definition, parametrised by an `Axis`.
  - `LevelSizes` models one container's work before it recurses.
  - `ChildrenSizes` and `Descend` model `calculateChildrenSizes` with its recursion.
  - `Resolve` models the body of `useLayoutItemSizes`.
- `LayoutItemSizes` (`layout_item_sizes.dfy`): the resolver as the file writes it. Methods run loops that update one map and collect the auto and flexible children in sequences, then merge each child's recursive result with a map union. Each method is proved to compute the matching function of `LayoutSizing`.
- `LayoutSizingLemmas` (`layout_sizing_lemmas.dfy`): what one container does to each child's entry.
  - `ChildValue` is a reference definition that gives, child by child, the value the container's loops produce. `LevelEntry` proves that the loops agree with it. Its case analysis is the function `Placement`, over the numbers the value depends on, so two containers that agree on those numbers give a child the same value (`ChildValueCongruent`).
  - The lemmas about auto, flexible, explicit and hidden children follow from `LevelEntry`.
  - On a stacking axis with auto children, `LevelFill` adds a container's children up and names the slack that floored shares leave. `FlexibleFill` does the same when the flexible children grow instead.
  - `LevelHiddenChildRemovable` shows that a hidden child that is not flexible can be removed without changing its siblings' entries.
- `LayoutConsistency` (`layout_consistency.dfy`): the whole tree.
  - When no key occurs twice, the resolved map is *consistent*: at every depth, each child's entry is `ChildValue` computed from its container's final entry.
  - The root keeps its declared size.
  - The parent handed to the recursion makes no difference to the result.

Integer division: the resolver floors `remaining / count` with `Math.floor`. The count is always positive, and for a positive divisor Dafny's `/` is the same floor division, negative remainders included.

## Model

| member | source | states |
|---|---|---|
| LayoutSizing.BaseSize | packages/app-desktop/gui/ResizableLayout/utils/useLayoutItemSizes.ts:20-21 | the base size on an axis is the declared size when there is one and the item is not flexible, and otherwise the item's map entry |
| LayoutSizing.ItemSize | packages/app-desktop/gui/ResizableLayout/utils/useLayoutItemSizes.ts:12-23 | a container's rendered size is exactly its base size. A non-container loses exactly 5 on the width when it or its parent is resizable on the right, and 0 otherwise; the same holds for the height and the bottom edge |
| LayoutSizing.Seed | packages/app-desktop/gui/ResizableLayout/utils/useLayoutItemSizes.ts:42-57 | the first loop adds an entry for every child's key and changes no other key |
| LayoutSizing.Auto | packages/app-desktop/gui/ResizableLayout/utils/useLayoutItemSizes.ts:55-56 | a child is an auto child on an axis exactly when it starts with no value there, i.e. it declares none and is visible or all are made visible |
| LayoutSizing.FlexibleChildren | packages/app-desktop/gui/ResizableLayout/utils/useLayoutItemSizes.ts:50 | a child is collected as flexible exactly when it is flexible, hidden or not |
| LayoutSizing.FirstPass | packages/app-desktop/gui/ResizableLayout/utils/useLayoutItemSizes.ts:43-48 | unless all are made visible, a hidden child starts at 0 on both axes; otherwise it starts at its declared value. It starts with no value exactly when it declares none and is visible or all are made visible |
| LayoutSizing.ExplicitTotal | packages/app-desktop/gui/ResizableLayout/utils/useLayoutItemSizes.ts:53-54 | no contract of its own: the definition is the specification, the sum of the starting values of the children that have one. `Remaining` and `LevelFill` state what it is used for |
| LayoutSizing.Share | packages/app-desktop/gui/ResizableLayout/utils/useLayoutItemSizes.ts:60 | on the stacking axis the share is the floor of the remaining space over the count, `count * r <= remaining < count * r + count`, negative remaining space included; on the other axis it is the container's full size. Lines 66, 74 and 80 compute the same expression |
| LayoutSizing.Remaining | packages/app-desktop/gui/ResizableLayout/utils/useLayoutItemSizes.ts:33-54 | the remaining space on an axis plus the starting values of the children that have one is the container's base size |
| LayoutSizingLemmas.ChildValue | packages/app-desktop/gui/ResizableLayout/utils/useLayoutItemSizes.ts:43-84 | no contract of its own: the reference definition of the value each child ends with; `LevelEntry` proves the loops produce it |
| LayoutSizingLemmas.FilledAxisEntry | packages/app-desktop/gui/ResizableLayout/utils/useLayoutItemSizes.ts:59-70 | on an axis with auto children no flexible child grows: each auto child holds the share and every other child its starting value |
| LayoutSizingLemmas.LevelFill | packages/app-desktop/gui/ResizableLayout/utils/useLayoutItemSizes.ts:53-64 | with distinct child keys, on the stacking axis of a container with auto children, the children's sizes add up to the container's size less the remaining space modulo the number of auto children. That slack is below the number of auto children, and the fill is exact exactly when the division is |
| LayoutSizingLemmas.FlexibleFill | packages/app-desktop/gui/ResizableLayout/utils/useLayoutItemSizes.ts:65-84 | with distinct child keys, on the stacking axis of a container with no auto child there, a non-zero remaining width and flexible children that do not reach the clamp, the children's sizes add up to the container's size less the remaining space modulo the number of flexible children. That slack is below the number of flexible children, and the fill is exact exactly when the division is |
| LayoutSizingLemmas.HiddenChildRemovable | packages/app-desktop/gui/ResizableLayout/utils/useLayoutItemSizes.ts:43-56 | unless all are made visible, removing a hidden child that is not flexible leaves the value every sibling gets on either axis unchanged, as the child adds nothing to the explicit total and joins neither the auto nor the flexible children |
| LayoutSizingLemmas.LevelHiddenChildRemovable | packages/app-desktop/gui/ResizableLayout/utils/useLayoutItemSizes.ts:43-85 | with distinct keys and unless all are made visible, removing a hidden child that is not flexible leaves every sibling's entry in the container's level map unchanged |
| LayoutSizing.AssignAll | packages/app-desktop/gui/ResizableLayout/utils/useLayoutItemSizes.ts:61-64 | every listed child's entry takes the value on the axis and keeps the other axis; entries of other keys are unchanged and no key is added |
| LayoutSizing.GrowAll | packages/app-desktop/gui/ResizableLayout/utils/useLayoutItemSizes.ts:67-70 | growing the flexible children adds no key and changes no entry outside the listed children |
| LayoutSizing.AxisPass | packages/app-desktop/gui/ResizableLayout/utils/useLayoutItemSizes.ts:59-71 | an axis pass adds no key and touches only the entries of the auto and the flexible children |
| LayoutSizing.ContainerAxisPass | packages/app-desktop/gui/ResizableLayout/utils/useLayoutItemSizes.ts:73-85 | a container's pass on either axis (guarded on the flexible side by the remaining width) touches only its children's entries |
| LayoutSizing.LevelSizes | packages/app-desktop/gui/ResizableLayout/utils/useLayoutItemSizes.ts:31-85 | before recursing, a container adds exactly its children's keys and leaves every other entry as it was |
| LayoutSizing.ChildrenSizes | packages/app-desktop/gui/ResizableLayout/utils/useLayoutItemSizes.ts:28-93 | the result holds the keys it was given plus every key below the item, and keeps every entry of a key not below the item; so an item with no children returns the map unchanged |
| LayoutSizing.Descend | packages/app-desktop/gui/ResizableLayout/utils/useLayoutItemSizes.ts:87-90 | the recursion into children `i` onwards adds exactly the keys below them and keeps every other entry |
| LayoutSizing.Resolve | packages/app-desktop/gui/ResizableLayout/utils/useLayoutItemSizes.ts:99-106 | resolution fails, with the root-size message, exactly when the root lacks a width or a height; otherwise the map's keys are exactly the keys of the whole tree |
| LayoutSizingLemmas.SeedAt | packages/app-desktop/gui/ResizableLayout/utils/useLayoutItemSizes.ts:43-52 | with distinct keys, after the first loop each child's entry is its declared size, 0 by 0 when hidden, with 0 for an auto dimension |
| LayoutSizingLemmas.GrowAt | packages/app-desktop/gui/ResizableLayout/utils/useLayoutItemSizes.ts:67-70 | with distinct keys, each listed child grows exactly once, by the share, clamped at 0 |
| LayoutSizingLemmas.GrowAllAt | packages/app-desktop/gui/ResizableLayout/utils/useLayoutItemSizes.ts:65-70 | growing the flexible children grows a child exactly when it is flexible and leaves the others' entries alone |
| LayoutSizingLemmas.AxisPassAt | packages/app-desktop/gui/ResizableLayout/utils/useLayoutItemSizes.ts:59-71 | an axis pass gives an auto child the share, grows a flexible child only when there is no auto child and the guard is non-zero, keeps every other child's value, and never changes the other axis |
| LayoutSizingLemmas.ContainerAxisPassAt | packages/app-desktop/gui/ResizableLayout/utils/useLayoutItemSizes.ts:73-85 | a container's pass on an axis sets a child's value on that axis to the reference value and keeps the other axis |
| LayoutSizingLemmas.LevelEntry | packages/app-desktop/gui/ResizableLayout/utils/useLayoutItemSizes.ts:31-85 | with distinct child keys, the entry a container leaves for each child is the reference value on both axes |
| LayoutSizingLemmas.AutoChildShare | packages/app-desktop/gui/ResizableLayout/utils/useLayoutItemSizes.ts:59-64 | every auto child on an axis gets the same value. On the stacking axis it is the floor of the container size less the explicit values, over the number of auto children, unclamped. On the other axis it is the container's full size |
| LayoutSizingLemmas.FlexibleChildClamped | packages/app-desktop/gui/ResizableLayout/utils/useLayoutItemSizes.ts:79-84 | with no auto child on the axis and a non-zero remaining width, a flexible child ends at its starting value plus the share, clamped at 0; so it is never negative, on the height axis too |
| LayoutSizingLemmas.FlexibleValue | packages/app-desktop/gui/ResizableLayout/utils/useLayoutItemSizes.ts:65-70 | under the same conditions, the reference value of a flexible child is its starting value plus the share, clamped at 0 |
| LayoutSizingLemmas.ExplicitChildKeeps | packages/app-desktop/gui/ResizableLayout/utils/useLayoutItemSizes.ts:43-53 | a non-flexible child that starts with a value on an axis ends with exactly that value |
| LayoutSizingLemmas.HiddenChild | packages/app-desktop/gui/ResizableLayout/utils/useLayoutItemSizes.ts:43-56 | unless all are made visible, a hidden child starts at 0 by 0, is an auto child on neither axis, and stays 0 by 0 if not flexible; when all are made visible, it starts from its declared sizes |
| LayoutConsistency.ChildEntry | packages/app-desktop/gui/ResizableLayout/utils/useLayoutItemSizes.ts:87-92 | in a tree with unique keys, the recursion into the children leaves each child's entry as the container's own loops set it, and the container's own entry as it was |
| LayoutConsistency.DescendConsistent | packages/app-desktop/gui/ResizableLayout/utils/useLayoutItemSizes.ts:87-90 | recursing from child `i` onwards, on any map that holds the children's keys, leaves the map consistent below each later child |
| LayoutConsistency.ChildrenSizesConsistent | packages/app-desktop/gui/ResizableLayout/utils/useLayoutItemSizes.ts:28-93 | in a tree with unique keys, the result is consistent below the item at every depth, whatever parent and map it is handed |
| LayoutConsistency.ResolveConsistent | packages/app-desktop/gui/ResizableLayout/utils/useLayoutItemSizes.ts:99-106 | a root with both sizes and unique keys resolves successfully, keeps exactly its declared size, and the whole tree is consistent |
| LayoutConsistency.BoxLocal | packages/app-desktop/gui/ResizableLayout/utils/useLayoutItemSizes.ts:13-21 | a container's box depends only on its own map entry and not on its parent, since a container has no drag-bar gap |
| LayoutConsistency.ParentIrrelevant | packages/app-desktop/gui/ResizableLayout/utils/useLayoutItemSizes.ts:88 | the result does not depend on the parent handed to the recursion, so passing the outer `parent` rather than `item` changes nothing |
| LayoutItemSizes.CalculateChildrenSizes | packages/app-desktop/gui/ResizableLayout/utils/useLayoutItemSizes.ts:28-93 | the method returns exactly the map `ChildrenSizes` specifies |
| LayoutItemSizes.SizeDirectChildren | packages/app-desktop/gui/ResizableLayout/utils/useLayoutItemSizes.ts:31-85 | the first loop then the width and height blocks produce exactly the container's level map |
| LayoutItemSizes.FirstPassSizes | packages/app-desktop/gui/ResizableLayout/utils/useLayoutItemSizes.ts:42-57 | the first loop's map, remaining width and height, auto lists and flexible list are exactly the first-pass folds over all the children |
| LayoutItemSizes.AxisSizes | packages/app-desktop/gui/ResizableLayout/utils/useLayoutItemSizes.ts:59-71 | one axis block computes exactly `AxisPass` |
| LayoutItemSizes.AssignAllSizes | packages/app-desktop/gui/ResizableLayout/utils/useLayoutItemSizes.ts:61-64 | the assignment loop computes exactly `AssignAll` |
| LayoutItemSizes.GrowAllSizes | packages/app-desktop/gui/ResizableLayout/utils/useLayoutItemSizes.ts:67-70 | the grow loop computes exactly `GrowAll` |
| LayoutItemSizes.MergeKeepsLater | packages/app-desktop/gui/ResizableLayout/utils/useLayoutItemSizes.ts:89 | spreading the child's result over the current map gives the child's result, as it holds every current key |
| LayoutItemSizes.UseLayoutItemSizes | packages/app-desktop/gui/ResizableLayout/utils/useLayoutItemSizes.ts:97-108 | the entry point returns exactly `Resolve`: the root-size error, or the seeded and resolved map |

## Behaviour modelled as written

The model follows the code in each of these cases:

- The flexible block of the height axis is guarded by the remaining *width* (line 79), not the remaining height. `FlexibleChildClamped` states it so.
- Auto children are not clamped (lines 60 and 74). Only flexible children are clamped at 0; an auto child on the stacking axis can get a negative size, for instance when fixed children overflow the container.
- Shares are floored (lines 60, 66, 74 and 80), so the children need not fill the container. Three auto children in a width of 100 get 33 each and leave 1 unused. `LevelFill` states the slack on the stacking axis exactly: it is the remaining space modulo the number of auto children. The flexible children's growth is floored the same way, and `FlexibleFill` states its slack: the remaining space modulo the number of flexible children, as long as no flexible child reaches the clamp.
- Because of the width guard, when the remaining width is 0 the height axis has no flexible growth, whatever height is left over.
- A hidden flexible child is still collected as flexible (line 50), so it grows and takes part in the share. Hiding it is not the same as removing it. A hidden child that is not flexible is: it starts at 0 by 0, adds nothing to the explicit total and joins no list, and `LevelHiddenChildRemovable` proves that its siblings' entries are those they get without it.
- A hidden child's map entry starts at 0 by 0. But `itemSize` prefers a declared, non-flexible size over the map entry (line 20). So a hidden container with declared sizes lays out its own children in its declared box, not in a zero-size box.
- The recursion hands every child the outer `parent` rather than `item` (line 88). `ParentIrrelevant` proves this makes no difference.

## Left out

- `makeAllVisible` defaults to false in the resolver (line 95). The model takes it as an explicit parameter.
- The `useMemo` wrapper and its dependency list (lines 96, 109) are React caching. The model resolves on every call.
- Sizes are integers. The resolver works on JavaScript numbers, so fractional sizes and floating-point rounding are not modelled.
- The `./types` module is not part of this model. A layout item has only the fields the resolver reads. A missing `visible` behaves as true and a missing `flexible`, `resizableRight` or `resizableBottom` as false. A `direction` other than `row` or `column` is absent. A declared size that is present but `undefined` is not distinguished from a number.
- The `null` the first loop writes for an auto dimension (line 52) is modelled as 0. The axis block for that dimension always overwrites it.
- `itemSize` reading the entry of a key missing from the map would throw in JavaScript. The model requires the entry instead (`CanSize`). The resolver always writes a container's entry before it reads it, and the model proves that for every call it makes.
- The resolver mutates one `sizes` object shared between a call and its recursive calls, and then merges with a spread. The model threads the map as a value. `MergeKeepsLater` shows that the spread gives the same map.
- LayoutSizingLemmas.LevelEntry: the per-child lemmas, and the consistency of the whole tree, assume that no key occurs twice. With a repeated key the model still computes what the resolver does (the last write wins), but no property about such trees is stated.
- LayoutSizingLemmas.FlexibleFill: the fill is stated only when no flexible child reaches the clamp at 0. A clamped child ends larger than its start plus the share, and the total for that case is not stated.
- LayoutSizingLemmas.LevelHiddenChildRemovable: stated for the entries one container sets for its children, not for the whole resolved map.
