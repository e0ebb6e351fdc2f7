# lucid-ordering: a Dafny model of the ordering mixin

lucid-ordering gives a Lucid model a contiguous integer `order` column. The
column is kept per partition. A partition is the set of rows that agree on
every declared order key, or the whole table when the model declares no keys.
This project models that sequence arithmetic as pure functions over a table,
`map<RowId, Row(cols, order)>`. It covers the service queries
(`getHighestOrder`, `syncOrder`), the mixin's moves (`setOrder` and the six
helpers built on it), `swapOrder`, `isFirst` and `isLast`, and the create and
delete hooks. Each database statement, or group of statements committed in
one transaction, becomes one transition of the table.

Modules:

- `Wrappers`: `Option` and `Result`.
- `Rows`: rows, the partition filter (one equality per order key), and the
  `Dense` invariant. `Dense` means the orders of a partition of N rows are
  unique and lie in 0..N-1. That is the same as "exactly 0..N-1":
  `DenseCovers` proves one direction and `RangeIsDense` the other.
- `OrderedModelService`: `GetHighestOrder`, the ascending listing the store
  returns (`ValidListing`, `ListOrdered`), and `SyncOrder`
  (src/Helpers/OrderedModelService.ts).
- `Ordered`: `SetOrder`, the move helpers, `SwapOrder`, `IsFirst`, `IsLast`,
  `PopulateOrder`/`Create` and `DeleteAndSync` (src/Mixins/Ordered.ts).
- `OrderedDensity`: which operations keep a partition dense. It also holds
  `SetOrderIntended`, the corrected `setOrder`, and the exact condition
  (`SafeMove`) under which the code as written keeps density.
- `OrderedPlacement`: where `moveBefore` and `moveAfter` leave the row
  relative to the other row, and corrected targets that keep the promised
  placement.
- `Scenarios`: the cases from the repository's test suite, plus the inputs
  behind the findings below, on concrete tables.

The mixin uses two filters. `getHighestOrder` and `syncOrder` select rows by
the order keys declared with `@orderKey`. The shift statements of `setOrder`
filter only by the mixin's `orderColumnName` option, and only when that
option is a non-empty string. The model keeps both filters (`Config`,
`ShiftKeys`). The density results assume `Aligned`, meaning the two filters
coincide. `Scenarios.MisalignedFiltersLeak` shows a move that shifts a row of
another partition when the filters differ.

Where the documentation and the code differ, the model follows the code:

- `setOrder` with a negative order throws; it does not clamp to 0 as the
  interface comment at adonis-typings/order.ts:21 says.
- The clamp tests `high` for truthiness, so a highest order of 0 does not
  clamp. It does not test for null.
- `syncOrder` writes every listed row, including rows whose order is
  unchanged. Those writes store the value the row already holds, so the
  resulting table is the same.
- `getHighestOrder` filters by order keys only. The second case of
  tests/Helpers/OrderedModelService/getHighestOrder.spec.ts gives only an
  order column and expects 1. The code answers 2 for that table
  (`Scenarios.HighestFollowsOrderKeysOnly`).

## Model

| member | source | states |
|---|---|---|
| Rows.Partition | src/Helpers/OrderedModelService.ts:11-17 | a row is in the partition exactly when every order-key column has the reference row's value; only rows of the table are in it |
| Rows.NoKeysWholeTable | src/Helpers/OrderedModelService.ts:51-54 | with no order keys the filter is skipped and the partition is the whole table |
| Rows.SameGroupSamePartition | src/Helpers/OrderedModelService.ts:13-17 | two rows that agree on the order keys select the same partition |
| Rows.DenseCovers | src/Helpers/OrderedModelService.ts:36-42 | a dense partition of N rows holds every order 0..N-1 |
| Rows.RangeIsDense | src/Helpers/OrderedModelService.ts:36-42 | conversely, a partition of N rows whose orders are exactly 0..N-1 is dense |
| Rows.PartitionsEqualOrDisjoint | src/Helpers/OrderedModelService.ts:11-17 | two partitions of the same table are either the same set of rows or share no row |
| OrderedModelService.GetHighestOrder | src/Helpers/OrderedModelService.ts:7-21 | null exactly for an empty partition; otherwise an order some row of the partition holds and no row exceeds |
| OrderedModelService.HighestIsMaximum | src/Helpers/OrderedModelService.ts:11-20 | a row that no sibling exceeds holds the highest order |
| OrderedModelService.DenseHighest | src/Helpers/OrderedModelService.ts:7-21 | on a dense partition of N rows the highest order is N-1 (the `[0,1]` gives 1 case) |
| OrderedModelService.ListOrdered | src/Helpers/OrderedModelService.ts:27-34 | every partition has an ascending listing: each member exactly once, orders never decreasing |
| OrderedModelService.InsertAscending | src/Helpers/OrderedModelService.ts:34 | inserting a row into an ascending listing keeps it ascending and duplicate-free and adds exactly that row |
| OrderedModelService.Renumber | src/Helpers/OrderedModelService.ts:36-42 | the i-th listed row gets next + i; rows not in the listing are untouched |
| OrderedModelService.SyncOrder | src/Helpers/OrderedModelService.ts:23-49 | afterwards the partition is dense, the i-th listed row holds i, strictly smaller orders stay strictly smaller, other rows are untouched |
| OrderedModelService.DistinctElementsSize | src/Helpers/OrderedModelService.ts:36-42 | a duplicate-free listing has as many entries as rows |
| OrderedModelService.ListingSize | src/Helpers/OrderedModelService.ts:27-34 | a listing has exactly as many entries as the partition has rows |
| OrderedModelService.SyncIsDense | src/Helpers/OrderedModelService.ts:36-42 | numbering a listing from 0 leaves the partition with orders 0..N-1 |
| OrderedModelService.SyncKeepsStrictOrder | src/Helpers/OrderedModelService.ts:34-42 | renumbering keeps relative order: a < b before gives a < b after |
| OrderedModelService.DenseListingPinned | src/Helpers/OrderedModelService.ts:36-42 | in any listing of a dense partition the i-th row already holds i |
| OrderedModelService.SyncOfDenseIsIdentity | src/Helpers/OrderedModelService.ts:36-47 | syncing a dense partition writes every row back with its own order, so the table is unchanged |
| OrderedModelService.SyncTwiceIsOnce | src/Helpers/OrderedModelService.ts:23-49 | a second sync, with any valid listing, changes nothing |
| Ordered.ShiftRange | src/Mixins/Ordered.ts:33-51 | the increment and decrement statements change only orders, never ids or columns |
| Ordered.SetOrder | src/Mixins/Ordered.ts:19-56 | throws exactly for a negative order; lands on the request, or on the highest order when that is truthy and smaller; moving up, every other row drops by one exactly when it is in the shift filter with 0 < order <= target, and is unchanged otherwise; moving down, every other row rises by one exactly when it is in the shift filter with target <= order < (high or 0), and is unchanged otherwise; rows outside the shift filter are unchanged; a move to the current order changes nothing |
| Ordered.ClampTarget | src/Mixins/Ordered.ts:30 | the target never exceeds the request, nor the highest order when that is truthy; it is either the request or that highest order |
| Ordered.IsFirst | src/Mixins/Ordered.ts:58-60 | the literal `order === 0` test; on a dense partition it holds exactly for the row no sibling precedes (`IsFirstIffLowest`) |
| Ordered.IsLast | src/Mixins/Ordered.ts:62-69 | the row is last exactly when no sibling holds a larger order |
| Ordered.IsFirstIffLowest | src/Mixins/Ordered.ts:58-60 | on a dense partition, `order === 0` holds exactly for the row that no sibling precedes |
| Ordered.IsLastIffTop | src/Mixins/Ordered.ts:62-69 | on a dense partition of N rows, the last row is the one at N-1 |
| Ordered.MoveToStart | src/Mixins/Ordered.ts:71-73 | never throws; a row with a non-negative order lands on 0 |
| Ordered.MoveToEnd | src/Mixins/Ordered.ts:75-81 | lands the row on the highest order its partition held |
| Ordered.MoveUp | src/Mixins/Ordered.ts:83-91 | the last row, including a lone row, is left as it is and so is the table; any other row goes up by exactly one |
| Ordered.MoveDown | src/Mixins/Ordered.ts:93-95 | never throws; a row at 0 leaves the table unchanged; any other row goes down by exactly one |
| Ordered.MoveBefore | src/Mixins/Ordered.ts:107-109 | never throws; the row takes over the order of a sibling with a non-negative order |
| Ordered.AfterTarget | src/Mixins/Ordered.ts:116 | with wanted = the other row's order, or 1 when that order is 0: the target never exceeds wanted nor a truthy highest order, and it is one of the two, so it is their minimum, or wanted itself when the highest order is falsy |
| Ordered.MoveAfter | src/Mixins/Ordered.ts:111-117 | throws when the other row's order is negative; succeeds whenever both orders are non-negative; after a sibling at 0 it lands on 1, after any other sibling on that sibling's order |
| Ordered.SwapOrder | src/Mixins/Ordered.ts:97-105 | the two rows exchange orders; every other row and every column is unchanged |
| Ordered.SyncSequence | src/Mixins/Ordered.ts:119-121 | the row's partition is dense afterwards and rows of other partitions are untouched |
| Ordered.PopulateOrder | src/Mixins/Ordered.ts:123-135 | a non-negative given order is kept; otherwise the new order is above every order in the partition, and 0 in an empty partition; in a non-empty partition it is exactly one above some row of the partition, so it is highest + 1 |
| Ordered.Create | src/Mixins/Ordered.ts:123-135 | exactly one row is added with the given columns and the order PopulateOrder picks, and every existing row is unchanged |
| Ordered.DeleteAndSync | src/Mixins/Ordered.ts:137-140 | the row is gone, its partition is dense, keeps its relative order and numbers the listed survivors by position, every survivor keeps its columns, and other partitions are untouched |
| OrderedPlacement.MoveBeforeFromAbove | src/Mixins/Ordered.ts:107-109 | moving down, moveBefore lands on the other row's order and the other row rises by one, so the row ends right in front of it |
| OrderedPlacement.MoveBeforeFromBelowLandsAfter | src/Mixins/Ordered.ts:107-109 | moving up, moveBefore lands on the other row's order and the other row drops by one, so the row ends after it |
| OrderedPlacement.MoveAfterFromBelow | src/Mixins/Ordered.ts:111-117 | moving up, moveAfter lands on the other row's order and the other row drops by one, so the row ends right behind it |
| OrderedPlacement.MoveAfterFromAboveLandsBefore | src/Mixins/Ordered.ts:111-117 | moving down after a row not at 0, moveAfter lands on the other row's order and the other row rises by one, so the row ends before it |
| OrderedPlacement.MoveBeforeIntended | src/Mixins/Ordered.ts:107-109 | corrected moveBefore: never throws, and for a sibling at a different order the row always ends before the other row |
| OrderedPlacement.MoveAfterIntended | src/Mixins/Ordered.ts:111-117 | corrected moveAfter: throws for a negative other order as the source does, and for a sibling at a different order the row always ends after the other row |
| OrderedDensity.UntouchedPartitionDense | src/Mixins/Ordered.ts:33-51 | a partition none of whose rows changed is exactly as dense as before |
| OrderedDensity.WrittenUp | src/Mixins/Ordered.ts:33-41 | when the clamped target is above the row's order, setOrder is the decrement of the shift-filter rows with 0 < order <= target followed by the write of the target |
| OrderedDensity.WrittenDown | src/Mixins/Ordered.ts:42-51 | when the clamped target is below the row's order, setOrder is the increment of the shift-filter rows with target <= order < (high or 0) followed by the write of the target |
| OrderedDensity.SetOrderIntended | src/Mixins/Ordered.ts:19-56 | corrected setOrder: throws exactly for a negative order and leaves rows outside the shift filter unchanged |
| OrderedDensity.IntendedKeepsDense | src/Mixins/Ordered.ts:19-56 | corrected setOrder keeps a dense partition dense for every request and lands on min(N-1, request) |
| OrderedDensity.WrittenAgreesWithIntended | src/Mixins/Ordered.ts:30-53 | when the move is a SafeMove, the code as written gives the same table as the corrected version |
| OrderedDensity.UpMoveFromAboveOneBreaksDensity | src/Mixins/Ordered.ts:33-41 | moving up from order 2 or more, short of the top, leaves a dense partition not dense |
| OrderedDensity.DownMoveFromBelowBreaksDensity | src/Mixins/Ordered.ts:42-51 | moving down from below N-2 leaves a dense partition not dense |
| OrderedDensity.LoneRowIsNotClamped | src/Mixins/Ordered.ts:30 | a lone row at 0 asked for a positive order lands on it, and its partition is then not dense |
| OrderedDensity.SetOrderKeepsDenseIff | src/Mixins/Ordered.ts:19-56 | on a dense partition, setOrder as written keeps it dense exactly when the move is a SafeMove |
| OrderedDensity.CreateAppends | src/Mixins/Ordered.ts:123-135 | a create without a usable order into a dense partition of N rows gets N, joins that partition, and leaves it dense |
| OrderedDensity.AppendedOrder | src/Mixins/Ordered.ts:129-134 | on a dense partition of N rows the hook's highest + 1, or 0, is N |
| OrderedDensity.AppendedPartition | src/Mixins/Ordered.ts:123-135 | the new row joins the partition its own columns select and no other row moves in or out |
| OrderedDensity.CreateLeavesOtherPartitions | src/Mixins/Ordered.ts:123-135 | creating a row in one partition leaves every other partition's rows and density as they were |
| OrderedDensity.SwapKeepsDense | src/Mixins/Ordered.ts:97-105 | swapping two rows that share their order-key values keeps every dense partition dense |
| OrderedDensity.SwapTwiceRestores | src/Mixins/Ordered.ts:97-105 | swapping the same two rows twice restores the table |
| OrderedDensity.DeletePartition | src/Mixins/Ordered.ts:137-140 | after a delete, the partition is the old one without the deleted row |
| OrderedDensity.SurvivorHolds | src/Mixins/Ordered.ts:137-140 | after a delete from a dense partition, every order except the deleted one is held by some listed survivor |
| OrderedDensity.DeleteListing | src/Helpers/OrderedModelService.ts:27-34 | the survivors' listing is one shorter than the partition, its orders strictly rise and skip the deleted order |
| OrderedDensity.BelowGapPinned | src/Helpers/OrderedModelService.ts:36-42 | after a delete, the k-th listed survivor below the gap holds k |
| OrderedDensity.AboveGapPinned | src/Helpers/OrderedModelService.ts:36-42 | after a delete, the k-th listed survivor above the gap holds k + 1 |
| OrderedDensity.DeleteClosesGap | src/Mixins/Ordered.ts:137-140 | after a delete from a dense partition, survivors below the deleted order keep it and those above move down by exactly one |
| Scenarios.HighestOfTwo | tests/Helpers/OrderedModelService/getHighestOrder.spec.ts:29-45 | rows at 0 and 1 give highest order 1 |
| Scenarios.HighestFollowsOrderKeysOnly | tests/Helpers/OrderedModelService/getHighestOrder.spec.ts:47-70 | with `test` as an order key the second group tops out at 1; with `test` only as the order column the query spans the table and gives 2 |
| Scenarios.SetLowerOrder | tests/Mixins/Ordered/setOrder.spec.ts:26-44 | 0,1,2 with the third row set to 1 becomes 0,2,1 |
| Scenarios.SetLowerOrderByColumn | tests/Mixins/Ordered/setOrder.spec.ts:46-73 | with an order column only the moved row's group is reordered |
| Scenarios.SetHigherOrder | tests/Mixins/Ordered/setOrder.spec.ts:75-93 | 0,1,2 with the first row set to 1 becomes 1,0,2 |
| Scenarios.SetHigherOrderByColumn | tests/Mixins/Ordered/setOrder.spec.ts:95-124 | moving up with an order column leaves the other group alone |
| Scenarios.SetOrderToLast | tests/Mixins/Ordered/setOrder.spec.ts:126-144 | 0,1,2 with the second row set to 2 becomes 0,2,1 |
| Scenarios.SetOrderToFirst | tests/Mixins/Ordered/setOrder.spec.ts:146-164 | 0,1,2 with the third row set to 0 becomes 1,2,0 |
| Scenarios.SetOrderPastEnd | tests/Mixins/Ordered/setOrder.spec.ts:166-186 | 0,1,2 with the first row set to 4 is clamped and becomes 2,0,1 |
| Scenarios.SetLastPastEnd | tests/Mixins/Ordered/setOrder.spec.ts:188-209 | the last row set past the end leaves the table unchanged |
| Scenarios.SetNegativeOrder | src/Mixins/Ordered.ts:22-24 | a negative request is refused with the requested value |
| Scenarios.UpMoveCounterexample | src/Mixins/Ordered.ts:33-41 | in 0,1,2,3, moving the row at 2 to 3 gives 0,0,3,2 |
| Scenarios.UpMoveIntended | src/Mixins/Ordered.ts:33-41 | the corrected move gives 0,1,3,2 on the same input |
| Scenarios.DownMoveCounterexample | src/Mixins/Ordered.ts:42-51 | in 0,1,2,3, moving the row at 1 to 0 gives 1,0,3,3 |
| Scenarios.DownMoveIntended | src/Mixins/Ordered.ts:42-51 | the corrected move gives 1,0,2,3 on the same input |
| Scenarios.LoneRowCounterexample | src/Mixins/Ordered.ts:30 | a lone row at 0 set to 3 lands on 3; the corrected move leaves it at 0 |
| Scenarios.MoveBeforeCounterexample | src/Mixins/Ordered.ts:107-109 | in 0,1,2, moving the row at 0 before the row at 2 gives 2,0,1, and before the row at 1 gives 1,0,2: both times the row ends after the other |
| Scenarios.MoveBeforeIntendedThree | src/Mixins/Ordered.ts:107-109 | the corrected moveBefore of the row at 0 before the row at 2 gives 1,0,2 |
| Scenarios.MoveAfterCounterexample | src/Mixins/Ordered.ts:111-117 | in 0,1,2, moving the row at 2 after the row at 1 gives 0,2,1: the row ends before the other |
| Scenarios.MoveAfterIntendedThree | src/Mixins/Ordered.ts:111-117 | the corrected moveAfter of the row at 2 after the row at 1 changes nothing, since it is already there |
| Scenarios.MoveUpMiddle | tests/Mixins/Ordered/moveUp.spec.ts:26-44 | moveUp on the middle of 0,1,2 gives 0,2,1 |
| Scenarios.MoveUpAtTop | tests/Mixins/Ordered/moveUp.spec.ts:46-78 | moveUp on the last row, or on a lone row, leaves the table unchanged |
| Scenarios.MoveFirstToEnd | tests/Mixins/Ordered/moveToEnd.spec.ts:26-44 | moveToEnd on the first of 0,1,2 gives 2,0,1 |
| Scenarios.LastOfThree | tests/Mixins/Ordered/isLast.spec.ts:26-41 | of 0,1,2 the row at 2 is last and the row at 1 is not |
| Scenarios.CreatesAppend | src/Mixins/Ordered.ts:123-135 | three creates without an order into an empty table get 0, 1 and 2 |
| Scenarios.CreateKeepsGivenOrder | src/Mixins/Ordered.ts:125-127 | a create with an order of its own keeps it |
| Scenarios.SyncSpreadsTies | tests/Mixins/Ordered/syncSequence.spec.ts:135-155 | three rows all at 0 are synced to 0, 1, 2 in listing order |
| Scenarios.DeleteFirstOfFour | tests/Mixins/Ordered/syncSequence.spec.ts:52-75 | deleting the first of 0,1,2,3 leaves 0,1,2 |
| Scenarios.DeleteMiddleOfFour | tests/Mixins/Ordered/syncSequence.spec.ts:27-50 | deleting the second of 0,1,2,3 leaves 0,1,2 |
| Scenarios.DeleteLastOfFour | tests/Mixins/Ordered/syncSequence.spec.ts:77-100 | deleting the last of 0,1,2,3 leaves 0,1,2 |
| Scenarios.DeleteKeepsOtherGroups | tests/Mixins/Ordered/syncSequence.spec.ts:102-133 | a delete in one key group closes its gap and leaves the other group's 0,2 as it was |
| Scenarios.DeleteWithTwoKeys | tests/Mixins/Ordered/syncSequence.spec.ts:157-191 | with two order keys a partition needs both to match; the other pair's 0,2 is untouched |
| Scenarios.SwapAcrossGroups | src/Mixins/Ordered.ts:97-105 | swapping rows of different partitions leaves a dense partition holding 0 twice |
| Scenarios.MisalignedFiltersLeak | src/Mixins/Ordered.ts:39-41 | with an order key but no order column, moving a row up also moves a row of another partition |

## Left out

- Transactions, `commit`, Lucid `save`, `refresh` and `useTransaction`. Each operation is one atomic transition of the table.
- Concurrency: `Promise.all` batched writes and racing moves. Isolation is the store's concern.
- The row running an operation is its stored row. Stale in-memory instances, and rows that were never saved, are not modelled.
- `validateOrderedColumnNameExists` (src/Mixins/Ordered.ts:20): src/Helpers/OrderedModelService.ts does not define it, so the call as written would fail at run time. The model assumes the call passes.
- `string.snakeCase` mapping of key names to columns: keys are used as column names directly.
- Non-integer, NaN and null orders, and the `typeof order !== 'number'` check: orders are integers. The create hook's "order is unset" is `given == None`.
- SQL NULL semantics in the key filter: a missing column compares equal to a missing column.
- `Infinity` in `moveAfter` is written as "no upper bound" (`Ordered.AfterTarget`).
- The order in which the store lists rows with equal orders is left open: `SyncOrder` takes any valid ascending listing as a parameter.
- `GetHighestOrder` and the operations that call it are ghost functions, because the maximum of a set is picked by a choice operator. The listing itself can be computed (`ListOrdered`).
- Decorators, the IoC provider, type declarations and the test harness (src/Decorators/orderKey.ts, providers/LucidOrderingProvider.ts, adonis-typings, bin/test): setup glue with no ordering logic.
- Ordered.MoveAfter: the landing is stated for siblings only; for a row of another partition the model promises only success or failure, because the target then relates to no order of this partition.
- Ordered.MoveBefore: the landing is stated for siblings only; a row of another partition gives a target that is not related to this partition.

## Findings

| source | as written | input that shows it | evidently intended | confidence | as-written member | corrected member |
|---|---|---|---|---|---|---|
| src/Mixins/Ordered.ts:30 | `high ? Math.min(high, order) : order` also skips the clamp when the highest order is 0 | a lone row at order 0 with `setOrder(3)` lands on 3, so its partition of one row holds 3 | clamp to the highest order whenever there is one, as the interface documentation says | not executed; high | OrderedDensity.LoneRowIsNotClamped | OrderedDensity.IntendedKeepsDense |
| src/Mixins/Ordered.ts:33-41 | a move up decrements every row with `0 < order <= target` | 0,1,2,3 with the row at 2 set to 3 gives 0,0,3,2 | decrement only rows with `old < order <= target` | not executed; high | OrderedDensity.UpMoveFromAboveOneBreaksDensity | OrderedDensity.IntendedKeepsDense |
| src/Mixins/Ordered.ts:42-51 | a move down increments every row with `target <= order < high` | 0,1,2,3 with the row at 1 set to 0 gives 1,0,3,3 | increment only rows with `target <= order < old` | not executed; high | OrderedDensity.DownMoveFromBelowBreaksDensity | OrderedDensity.IntendedKeepsDense |
| src/Mixins/Ordered.ts:107-109 | moveBefore asks for the other row's order, and a move up then shifts the other row down past the moved row | 0,1,2 with the row at 0 moved before the row at 2 gives 2,0,1 | end before the other row, as the interface documentation says | not executed; high | OrderedPlacement.MoveBeforeFromBelowLandsAfter | OrderedPlacement.MoveBeforeIntended |
| src/Mixins/Ordered.ts:111-117 | moveAfter asks for the other row's order, and a move down then shifts the other row up past the moved row | 0,1,2 with the row at 2 moved after the row at 1 gives 0,2,1 | end after the other row, as the interface documentation says | not executed; high | OrderedPlacement.MoveAfterFromAboveLandsBefore | OrderedPlacement.MoveAfterIntended |

`OrderedDensity.SetOrderKeepsDenseIff` states the exact condition under which
the code as written keeps a dense partition dense. The move helpers in
`Ordered` call the as-written `SetOrder`, because they model the source. For
example, `moveUp` from order 2 upward, short of the top, breaks density. The
corrected `SetOrderIntended` keeps every dense partition dense. The corrected
`MoveBeforeIntended` and `MoveAfterIntended` change only the target they ask
for and still call the as-written `SetOrder`, so they correct the placement,
not the density.
