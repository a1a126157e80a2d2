# Grid column tree

A model of the column-ownership tree of the Vaadin data grid. The behaviour
is taken from `GridColumnTest.java`:

- a grid holds leaf columns that `addColumn` appends at top level;
- `mergeColumns(a, b)` puts two top-level units under a new column group,
  which takes the first unit's place at top level;
- every leaf column can carry a key. A key is set once and is unique in the grid,
  and `getColumnByKey` finds a column by it;
- `removeColumn` and `removeColumnByKey` detach a column and unregister its
  key. A group left with no children is then detached too, repeating up the
  chain of ancestors;
- `getColumns` lists the leaf columns in display order, and the top-level
  units and a group's child columns can be listed too.

The model has these modules:

- `Common` (`common.dfy`): the error kinds, their messages and a few
  facts about sequences of unit ids.
- `ColumnTree` (`column_tree.dfy`): the grid's state as a value, kept in an
  arena.
  - Unit `i` is slot `i` of a sequence of nodes. Each node holds its kind
    (leaf or group), its link upward (`Root`, `Under(group)` or `Detached`),
    its ordered child ids and an optional key.
  - The state also holds the top-level id sequence and the key registry.
  - A group is always created after its children, so every child id is
    smaller than its group's id. This gives the recursive flattening
    `LeavesOf` / `Columns` its measure.
  - `Valid` is the whole invariant:
    - parent and child links agree;
    - the top level lists exactly the root-linked units, without repetition;
    - every attached group has a child;
    - the registry maps each key to a leaf that carries it, and every
      attached keyed leaf is registered.
- `KeyRegistry`, `MergeEngine` and `RemovalEngine`: each operation as a
  function on that value, with the lemmas that state what it does.
- `Grids` (`grid.dfy`): the grid as a class.
  - Its fields `nodes`, `top` and `keys` are updated in place by
    `AddColumn`, `SetKey`, `MergeColumns`, `RemoveColumn` and
    `RemoveColumnByKey`.
  - Each method's postcondition ties the new state to the value-level
    function.
  - The upward pruning of empty groups is a loop (`PruneFrom`).
  - A handle on a unit is a `Ref(grid, id)`, so a column of another grid is
    told apart from a column of this one.
- `GridColumnScenarios` (`grid_column_test.dfy`): one method per test case.
  - Each method builds the grid as `init()` does, makes that test's calls
    and returns the values the test inspects.
  - Its postcondition is what the test asserts.

Exceptions are error values:

| Java exception | Error value |
|---|---|
| `NullPointerException` | `NullArg(name)` |
| `IllegalStateException` | `StateError` |
| `IllegalArgumentException` for a duplicate key | `DuplicateKey(key)` |
| `IllegalArgumentException` for a unit not in this grid | `InvalidArg(key)` |

`Message` gives the text the tests expect for `NullArg` and `InvalidArg`.

## Model

| member | source | states |
|---|---|---|
| ColumnTree.Empty | src/test/java/com/vaadin/flow/component/grid/GridColumnTest.java:46 | a new grid is valid and has no columns and no top-level units |
| ColumnTree.AddLeafAppends | src/test/java/com/vaadin/flow/component/grid/GridColumnTest.java:45-50 | adding a column keeps the grid valid, appends the new unit at the end of the top level, and appends it at the end of the column order |
| Grids.Grid.AddColumn | src/test/java/com/vaadin/flow/component/grid/GridColumnTest.java:47-49 | the grid's new state is `AddLeaf` of the old one; the returned handle is the new last unit; top level and columns each gain it at the end |
| ColumnTree.ColumnByKey | src/test/java/com/vaadin/flow/component/grid/GridColumnTest.java:56-57 | a found unit is a leaf carrying exactly that key; when nothing is found, no attached unit carries the key |
| ColumnTree.LeavesOfAllAreLeaves | src/test/java/com/vaadin/flow/component/grid/GridColumnTest.java:82-84 | flattening a list of units yields only leaf columns of the arena |
| KeyRegistry.SetKeyValid | src/test/java/com/vaadin/flow/component/grid/GridColumnTest.java:53-55 | a successful key assignment keeps the grid valid and changes neither the top level nor the column order |
| KeyRegistry.SetKeyThenLookup | src/test/java/com/vaadin/flow/component/grid/GridColumnTest.java:53-58 | after a successful setKey(k) on column c, lookup by k finds c, and every other key finds what it found before |
| KeyRegistry.SetKeySucceedsWhen | src/test/java/com/vaadin/flow/component/grid/GridColumnTest.java:60-70 | setKey succeeds exactly when the column has no key yet and lookup by the key finds nothing; a key carried by an attached column is always refused, and a key no column carries is always accepted on an unkeyed column |
| KeyRegistry.SetKeyOnce | src/test/java/com/vaadin/flow/component/grid/GridColumnTest.java:60-64 | once a column has a key, setting any key on it again fails with a state error |
| KeyRegistry.SetKeyDuplicateRejected | src/test/java/com/vaadin/flow/component/grid/GridColumnTest.java:66-70 | once a key is bound to one column, binding it to another unkeyed column fails with a duplicate-key error, and the first binding stays |
| Grids.Grid.SetKey | src/test/java/com/vaadin/flow/component/grid/GridColumnTest.java:54-55 | on success the grid's new state is the registry update; on failure the grid is unchanged and the error is returned |
| Grids.Grid.GetColumnByKey | src/test/java/com/vaadin/flow/component/grid/GridColumnTest.java:56-57 | returns a handle on this grid's unit that `ColumnByKey` finds, or nothing |
| MergeEngine.MergedTopSplit | src/test/java/com/vaadin/flow/component/grid/GridColumnTest.java:77-79 | the new top level is the old one with the group in the first argument's place and the second argument removed, whichever of the two comes first |
| MergeEngine.MergeValid | src/test/java/com/vaadin/flow/component/grid/GridColumnTest.java:77-81 | merging two distinct top-level units keeps the grid valid and keeps the registry; the new last unit is a root-level group with children [a, b], and both arguments now hang under it |
| MergeEngine.MergeTopLevel | src/test/java/com/vaadin/flow/component/grid/GridColumnTest.java:77-81 | after a merge, the group stands at a's top-level position, b is gone, and the other top-level units keep their order |
| MergeEngine.MergeLeaves | src/test/java/com/vaadin/flow/component/grid/GridColumnTest.java:82-84 | a merge leaves the leaves under every existing unit unchanged |
| MergeEngine.MergeGroupLeaves | src/test/java/com/vaadin/flow/component/grid/GridColumnTest.java:82-84 | the new group's leaves are a's leaves followed by b's leaves |
| MergeEngine.MergeColumnsForward | src/test/java/com/vaadin/flow/component/grid/GridColumnTest.java:77-84 | when a precedes b at top level, the new column order takes b's leaves out of their place and puts them right after a's leaves |
| MergeEngine.MergeColumnsBackward | src/test/java/com/vaadin/flow/component/grid/GridColumnTest.java:80-84 | when b precedes a at top level, b's leaves leave their place and follow a's leaves, at a's place |
| MergeEngine.MergeAdjacentKeepsOrder | src/test/java/com/vaadin/flow/component/grid/GridColumnTest.java:72-85 | merging a with the unit right after it leaves the column order unchanged |
| MergeEngine.MergeKeepsColumns | src/test/java/com/vaadin/flow/component/grid/GridColumnTest.java:72-85 | every merge keeps the same columns, each exactly as often (a permutation) |
| Grids.Grid.MergeColumns | src/test/java/com/vaadin/flow/component/grid/GridColumnTest.java:87-97 | a first or second argument that is not a top-level unit of this grid gives an invalid-argument error and no change; otherwise the new state is the merge and the new group is returned |
| RemovalEngine.DetachLeaves | src/test/java/com/vaadin/flow/component/grid/GridColumnTest.java:113-116 | detaching a column takes it out of the leaves of every other unit and out of the column order, keeping the rest in order |
| RemovalEngine.PruneUpStep | src/test/java/com/vaadin/flow/component/grid/GridColumnTest.java:176-205 | an attached, empty group is detached and pruning goes on at its parent; any other unit ends the pruning with no change |
| RemovalEngine.PruneUpPrunes | src/test/java/com/vaadin/flow/component/grid/GridColumnTest.java:176-205 | pruning detaches only groups without leaves and leaves the column order unchanged |
| RemovalEngine.RemoveValid | src/test/java/com/vaadin/flow/component/grid/GridColumnTest.java:99-117 | removing an attached column keeps the grid valid |
| RemovalEngine.RemoveDetaches | src/test/java/com/vaadin/flow/component/grid/GridColumnTest.java:164-174 | the removed column is detached; no unit lists it as a child; it is not at top level; it keeps its key |
| RemovalEngine.RemoveUnregisters | src/test/java/com/vaadin/flow/component/grid/GridColumnTest.java:99-117 | after removal, the removed column's key finds nothing and every other key finds what it found before |
| RemovalEngine.RemoveKeys | src/test/java/com/vaadin/flow/component/grid/GridColumnTest.java:99-117 | removal takes exactly the removed column's key out of the registry |
| RemovalEngine.RemoveColumns | src/test/java/com/vaadin/flow/component/grid/GridColumnTest.java:164-174 | after removal, the column order is the old one without the removed column |
| RemovalEngine.RemoveTrims | src/test/java/com/vaadin/flow/component/grid/GridColumnTest.java:164-205 | every other unit loses only the removed column from its leaves and keeps its kind and key; no unit becomes attached; a unit is detached only when it has no other leaf |
| RemovalEngine.RemoveCascade | src/test/java/com/vaadin/flow/component/grid/GridColumnTest.java:176-205 | after removing c, a unit stays attached exactly when it was attached and still holds a leaf other than c; every detached unit has no children |
| RemovalEngine.RemoveFromLargerGroup | src/test/java/com/vaadin/flow/component/grid/GridColumnTest.java:164-174 | removing a column from a group with other children keeps the group attached, with the other children in their order |
| Grids.Grid.PruneFrom | src/test/java/com/vaadin/flow/component/grid/GridColumnTest.java:196-204 | the loop that walks up the ancestors leaves the grid in the state `PruneUp` defines |
| Grids.Grid.RemoveColumn | src/test/java/com/vaadin/flow/component/grid/GridColumnTest.java:112-123 | a null column gives the null-argument error; a column not attached in this grid gives an invalid-argument error carrying its key; otherwise the new state is `Remove` |
| Grids.Grid.RemoveColumnByKey | src/test/java/com/vaadin/flow/component/grid/GridColumnTest.java:99-110 | a null key gives the null-argument error; an unregistered key gives an invalid-argument error carrying that key; a key bound to a column that is no longer attached gives the same invalid-argument error and no change; otherwise the attached column the key finds is removed |
| Grids.Grid.GetColumns | src/test/java/com/vaadin/flow/component/grid/GridColumnTest.java:82-84 | returns handles on `Columns` of the state, in order; each one is a leaf, none appears twice, and every leaf column attached to the grid appears |
| ColumnTree.ColumnsExact | src/test/java/com/vaadin/flow/component/grid/GridColumnTest.java:82-84 | in a valid grid the column order has no repetition and holds exactly the attached leaf columns |
| Grids.Grid.TopLevelColumns | src/test/java/com/vaadin/flow/component/grid/GridColumnTest.java:207-214 | returns handles on the top-level units in order, each linked to the grid itself |
| Grids.Grid.ChildColumns | src/test/java/com/vaadin/flow/component/grid/GridColumnTest.java:171-172 | returns handles on a unit's children in order, each linked to that unit |
| Grids.Grid.ParentOf | src/test/java/com/vaadin/flow/component/grid/GridColumnTest.java:179 | a unit's parent is the grid exactly when it is at top level; a group parent lists the unit; a unit with no parent is listed nowhere |
| Common.Message | src/test/java/com/vaadin/flow/component/grid/GridColumnTest.java:106-162 | the message text of a null-argument error and of a not-part-of-this-grid error |
| GridColumnScenarios.SetKeyGetByKey | src/test/java/com/vaadin/flow/component/grid/GridColumnTest.java:52-58 | "foo" finds the first column and "bar" the second |
| GridColumnScenarios.ChangeKeyThrows | src/test/java/com/vaadin/flow/component/grid/GridColumnTest.java:60-64 | the second setKey on one column fails with a state error |
| GridColumnScenarios.DuplicateKeyThrows | src/test/java/com/vaadin/flow/component/grid/GridColumnTest.java:66-70 | "foo" on a second column fails with a duplicate-key error |
| GridColumnScenarios.MergedColumnOrder | src/test/java/com/vaadin/flow/component/grid/GridColumnTest.java:72-85 | top level goes from [first, second, third] to [merged, second] to [secondMerge], and the columns are [first, third, second] |
| GridColumnScenarios.CantMergeColumnsNotInGrid | src/test/java/com/vaadin/flow/component/grid/GridColumnTest.java:87-91 | merging with another grid's column fails with an invalid-argument error |
| GridColumnScenarios.CantMergeAlreadyMergedColumns | src/test/java/com/vaadin/flow/component/grid/GridColumnTest.java:93-97 | merging a column that is already in a group fails with an invalid-argument error |
| GridColumnScenarios.RemoveColumnByKey | src/test/java/com/vaadin/flow/component/grid/GridColumnTest.java:99-104 | removal by key succeeds and the key then finds nothing |
| GridColumnScenarios.RemoveColumnByNullKey | src/test/java/com/vaadin/flow/component/grid/GridColumnTest.java:106-110 | a null key fails with "columnKey should not be null" |
| GridColumnScenarios.RemoveColumn | src/test/java/com/vaadin/flow/component/grid/GridColumnTest.java:112-117 | removal of the column succeeds and its key then finds nothing |
| GridColumnScenarios.RemoveNullColumn | src/test/java/com/vaadin/flow/component/grid/GridColumnTest.java:119-123 | a null column fails with "column should not be null" |
| GridColumnScenarios.RemoveInvalidColumnByKey | src/test/java/com/vaadin/flow/component/grid/GridColumnTest.java:125-131 | an unknown key fails with "The column with key 'wrong' is not part of this Grid" |
| GridColumnScenarios.RemoveColumnByKeyTwice | src/test/java/com/vaadin/flow/component/grid/GridColumnTest.java:133-141 | the second removal by the same key fails with the not-part message for 'first' |
| GridColumnScenarios.RemoveInvalidColumn | src/test/java/com/vaadin/flow/component/grid/GridColumnTest.java:143-152 | another grid's keyed column fails with the not-part message for 'wrong' |
| GridColumnScenarios.RemoveColumnTwice | src/test/java/com/vaadin/flow/component/grid/GridColumnTest.java:154-162 | removing the same column twice fails the second time with the not-part message for 'first' |
| GridColumnScenarios.RemoveMergedColumn | src/test/java/com/vaadin/flow/component/grid/GridColumnTest.java:164-174 | the group's children are [second], without first, and "first" finds nothing |
| GridColumnScenarios.RemoveMergedColumnsColumnGroupIsRemoved | src/test/java/com/vaadin/flow/component/grid/GridColumnTest.java:176-187 | the group hangs at the grid before; after both columns are removed it has no children and no parent |
| GridColumnScenarios.RemoveAllMergedColumnsColumnGroupsAreRemoved | src/test/java/com/vaadin/flow/component/grid/GridColumnTest.java:189-205 | the inner group hangs under the outer and the outer at the grid; after all three columns are removed both groups have no children and no parent |

## Left out

- `Grid`, `ColumnGroup` and `ColumnBase` themselves are not part of this
  model. Their behaviour is taken from what `GridColumnTest.java` asserts.
- Value providers (the `str -> str` lambdas), the row type and rendering
  have no effect on the tree structure and are not modelled.
- The element/DOM layer is reduced to a parent link and a child list per
  unit. `getElement().getParent()` is the unit's link: the grid is `Root`
  and null is `Detached`. `getTopLevelColumns` is the top-level sequence.
- Grids.Grid.MergeColumns: only merges of exactly two distinct units are
  modelled. Merges of other arities, and merging a unit with itself, are
  left out.
- Grids.Grid.SetKey: a column that was removed can still be given a key.
  The key is then registered, and `getColumnByKey` returns the removed
  column. The tests do not say what the source does here, so the model does
  not rule it out.
- Grids.Grid.SetKey: keys are set on leaf columns only, because that is
  what the tests do. Keys on column groups are left out.
- Grids.Grid.RemoveColumn: the message for removing an unkeyed column of
  another grid is not asserted anywhere. The model only carries the
  column's (absent) key in `InvalidArg(None)`, and `Message` is defined only
  for a present key.
- Grids.Grid.RemoveColumn: a handle's id must be a slot of the grid that
  created it, and that slot must be a leaf. A handle cannot be made any
  other way.
- Common.Message is stated only for the errors whose text the tests
  check. The text of the state error and of the duplicate-key error is not
  asserted anywhere and is not modelled.
- That a failed operation changes nothing is proved of the model, because
  each failing method's postcondition keeps the old state. It is not
  claimed as a promise of the source, which does not assert it.
- MergeEngine.MergeKeepsColumns: a merge is not claimed to keep the
  column order in general. The test's own scenario (lines 77-84) merges the
  first and third columns and then finds the order [first, third, second].
  A merge moves the second argument's leaves next to the first argument's.
  The model proves that exact order (`MergeColumnsForward`,
  `MergeColumnsBackward`). It proves that the order is unchanged for
  adjacent units (`MergeAdjacentKeepsOrder`), and that every merge is a
  permutation of the columns.
