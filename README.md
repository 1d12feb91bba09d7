# OData V4 list binding

A Dafny model of `sap.ui.model.odata.v4.ODataListBinding`, the list binding of the
OpenUI5 OData V4 model, with proofs about it.

The binding mirrors a server-side collection as a sparse array of row contexts,
`aContexts`. The array fills lazily as reads complete. Slot -1 holds at most one row
created on the client. Besides the array, the binding keeps:

- an upper bound on the collection's length, `iMaxLength`, which may be `Infinity`;
- the flag `bLengthFinal`;
- a table `mPreviousContextsByPath` of contexts parked by `reset` or `_delete`, which a later read reuses;
- the window last handed out, `iCurrentBegin` and `iCurrentEnd`;
- the pending change reason, the length of a pending extended-change-detection diff, and the refresh group;
- the binding parameters, the sorters, and the control and application filters;
- whether the binding has a cache of its own, and its parent context.

The modules follow the binding's parts:

- `Results`: the `Result` and `Outcome` datatypes. A thrown `Error` is a `Fail` or an `Err` with the error's message.
- `Paths`: row paths `path + "/" + i`, JavaScript's `parseInt`, `indexOf` and `lastIndexOf`, and the path split of `fetchAbsoluteValue`.
- `Projection`: the value the binding's state projects to. `Rows` holds the slots `0 .. length-1` as `seq<Option<Context>>`, with `None` for a hole, plus the created slot. It also holds the `Coherent` invariant, JavaScript's `slice`, and the window of `getContexts`.
- `Prefetch`: `getReadRange` and its `isDataMissing` loop.
- `Reconcile`: `createContexts` as a function on the projection, with its fill loop as `FillRange`.
- `Removal`: the callback of `_delete`, with its re-indexing loop as `ShiftLoop`.
- `Parking`: the `forEach` of `reset`.
- `Orderby`: `buildOrderbyOption`.
- `Filters`: `fetchFilter`, as a synchronous compiler to the `$filter` option of section 5.1.1 of OData Version 4.0 Part 2: URL Conventions. `CompileAsWritten` adds the TypeError the grouping by path throws as written.
- `QueryOptions`: `mergeQueryOptions`, the parameter updates of `changeParameters`, and the own-cache predicate and query options of `makeCache`.
- `Events`: the event whitelist of `attachEvent`.
- `Binding`: the class `ListBinding` with the binding's fields. Its methods change the fields step by step, as the source does. Each method is proved against the functions of the modules above.

Context objects are records `Context(id, path, index)`. The `id` stands for object identity and comes from a counter `nextId` held by the binding. Reusing a parked context therefore keeps its `id`, and a new context gets a fresh one.

A read in flight is a `PendingRead` token. It carries the range, the parent context at the time of the call, the change reason and the requested length. `CompleteRead` finishes it with the number of rows read. That is the `then` callback of `getContexts`, including its guard against a stale response.

Every `_fireChange` and `_fireRefresh` is appended to a ghost event log.

## Model

All sources are in `src/sap.ui.core/src/sap/ui/model/odata/v4/ODataListBinding.js`.

| member | source | states |
|---|---|---|
| Paths.NatToString | src/sap.ui.core/src/sap/ui/model/odata/v4/ODataListBinding.js:456 | the decimal form of an index is a non-empty string of digits |
| Paths.IndexString | src/sap.ui.core/src/sap/ui/model/odata/v4/ODataListBinding.js:456 | `String(i)` is non-empty and holds no slash, so it is one path segment |
| Paths.NatToStringValue | src/sap.ui.core/src/sap/ui/model/odata/v4/ODataListBinding.js:456 | reading back the digits of `String(n)` gives `n` |
| Paths.ParseIndexString | src/sap.ui.core/src/sap/ui/model/odata/v4/ODataListBinding.js:600 | `parseInt(String(i) + t, 10)` is `i` whenever `t` does not start with a digit, so the path after the number is ignored |
| Paths.ParseNegativeIndex | src/sap.ui.core/src/sap/ui/model/odata/v4/ODataListBinding.js:600 | `parseInt` of a minus sign, digits and a non-digit tail is the negated value |
| Paths.IndexStringInjective | src/sap.ui.core/src/sap/ui/model/odata/v4/ODataListBinding.js:456 | different indices have different string forms |
| Paths.RowPath | src/sap.ui.core/src/sap/ui/model/odata/v4/ODataListBinding.js:456 | the last segment of `base + "/" + i` is the string form of `i` |
| Paths.RowPathInjective | src/sap.ui.core/src/sap/ui/model/odata/v4/ODataListBinding.js:456-457 | two rows of one collection never share a path, so the table of previous contexts has one key per index |
| Paths.IndexOf | src/sap.ui.core/src/sap/ui/model/odata/v4/ODataListBinding.js:601 | `indexOf(c)` is the first position holding `c`, or -1 exactly when `c` does not occur |
| Paths.LastIndexOf | src/sap.ui.core/src/sap/ui/model/odata/v4/ODataListBinding.js:598 | `lastIndexOf(sub)` is the last position at which `sub` occurs, and -1 exactly when it occurs nowhere |
| Paths.AbsoluteValueOfRowPath | src/sap.ui.core/src/sap/ui/model/odata/v4/ODataListBinding.js:596-603 | for a path inside row `i` of a binding with a cache, the value is read from the own cache at index `i`, with the path after the row |
| Paths.AbsoluteValueOfRow | src/sap.ui.core/src/sap/ui/model/odata/v4/ODataListBinding.js:596-603 | the path of row `i` itself is read from the own cache at index `i` with the empty path |
| Paths.AbsoluteValueAsWrittenMissesRow | src/sap.ui.core/src/sap/ui/model/odata/v4/ODataListBinding.js:598 | as written, "/A/0/A/" under the collection "/A" goes to the parent context instead of row 0 of the own cache |
| Events.CheckEvent | src/sap.ui.core/src/sap/ui/model/odata/v4/ODataListBinding.js:254-259 | an event passes exactly when it is one of the four supported events; otherwise the error names it |
| Events.CheckEventAsWritten | src/sap.ui.core/src/sap/ui/model/odata/v4/ODataListBinding.js:255 | the `in` test also passes every name an object literal inherits |
| Events.CheckEventAgrees | src/sap.ui.core/src/sap/ui/model/odata/v4/ODataListBinding.js:255-257 | for any name that is not inherited from `Object.prototype`, the test as written and the whitelist agree |
| Events.AttachToStringPasses | src/sap.ui.core/src/sap/ui/model/odata/v4/ODataListBinding.js:255 | "toString" passes the test as written but is refused by the whitelist |
| Orderby.Items | src/sap.ui.core/src/sap/ui/model/odata/v4/ODataListBinding.js:319-325 | one item per sorter, in order, as `path` or `path desc`; a non-sorter fails with the message naming the first one |
| Orderby.BuildOrderby | src/sap.ui.core/src/sap/ui/model/odata/v4/ODataListBinding.js:315-330 | succeeds exactly when every element is a sorter; with no sorters the result is the static `$orderby` |
| Orderby.SplitJoin | src/sap.ui.core/src/sap/ui/model/odata/v4/ODataListBinding.js:329 | splitting `parts.join(",")` at commas gives back the parts when none holds a comma |
| Orderby.BuildOrderbyItems | src/sap.ui.core/src/sap/ui/model/odata/v4/ODataListBinding.js:319-329 | the comma-separated items of `$orderby` are the sorters' items in input order, then the static `$orderby` last |
| Projection.Decrement | src/sap.ui.core/src/sap/ui/model/odata/v4/ODataListBinding.js:184 | a finite bound drops by one and `Infinity` stays `Infinity` |
| Projection.CoherentPathsDistinct | src/sap.ui.core/src/sap/ui/model/odata/v4/ODataListBinding.js:456-462 | in a coherent projection, two slots with contexts of the same path are the same slot |
| Projection.JsSlice | src/sap.ui.core/src/sap/ui/model/odata/v4/ODataListBinding.js:988-991 | `slice(begin, end)` holds, in order, the elements from the clamped `begin` up to the clamped `end`, and nothing when `end` is not after `begin` |
| Projection.WindowIndices | src/sap.ui.core/src/sap/ui/model/odata/v4/ODataListBinding.js:985-992 | the window of `getContexts` holds at most `length` entries, and the context at position `k` has index `start + k` |
| Prefetch.ReadRange | src/sap.ui.core/src/sap/ui/model/odata/v4/ODataListBinding.js:1126-1153 | the range contains the requested one; its end grows by the prefetch size exactly when data is missing after it; its start moves back by the prefetch size, cut at 0, exactly when data is missing before it |
| Prefetch.ReadRangeNoPrefetch | src/sap.ui.core/src/sap/ui/model/odata/v4/ODataListBinding.js:1141-1152 | with prefetch 0 the requested range is returned unchanged |
| Prefetch.ReadRangeLoaded | src/sap.ui.core/src/sap/ui/model/odata/v4/ODataListBinding.js:1141-1151 | for an even prefetch size, when half of it before and after the range is loaded, the range is unchanged |
| Prefetch.ReadRangeWithinPrefetch | src/sap.ui.core/src/sap/ui/model/odata/v4/ODataListBinding.js:1141-1152 | the range never reaches more than the prefetch size beyond either end of the requested one |
| Prefetch.IsDataMissing | src/sap.ui.core/src/sap/ui/model/odata/v4/ODataListBinding.js:1131-1139 | the loop answers whether some slot in `[lo, hi)` is a hole |
| Prefetch.GetReadRange | src/sap.ui.core/src/sap/ui/model/odata/v4/ODataListBinding.js:1126-1153 | the method computes `ReadRange` |
| QueryOptions.Merge | src/sap.ui.core/src/sap/ui/model/odata/v4/ODataListBinding.js:1234-1249 | the merged options hold the original names plus `$orderby` and `$filter` when given; a given value replaces the original one and all other values stay |
| QueryOptions.MergeNoCopy | src/sap.ui.core/src/sap/ui/model/odata/v4/ODataListBinding.js:1237-1248 | when the options already hold the given values, the original map is returned |
| QueryOptions.MergeIdempotent | src/sap.ui.core/src/sap/ui/model/odata/v4/ODataListBinding.js:1234-1249 | merging twice gives the same as merging once |
| QueryOptions.FirstBindingParameter | src/sap.ui.core/src/sap/ui/model/odata/v4/ODataListBinding.js:285-289 | finds nothing exactly when no key starts with "$$"; otherwise it finds the first such key |
| QueryOptions.FirstBindingParameterAt | src/sap.ui.core/src/sap/ui/model/odata/v4/ODataListBinding.js:285-289 | the first "$$" key in input order is the one reported |
| QueryOptions.ApplyChangesEntries | src/sap.ui.core/src/sap/ui/model/odata/v4/ODataListBinding.js:290-296 | a parameter changed to `undefined` is removed, any other changed parameter gets its new value, and parameters not mentioned stay as they were |
| QueryOptions.NeedsOwnCacheRelative | src/sap.ui.core/src/sap/ui/model/odata/v4/ODataListBinding.js:1201-1212 | a relative binding with a V4 parent context needs its own cache exactly when it has parameters, sorters or filters; with another kind of parent it always does |
| QueryOptions.CacheOptionsSortOnly | src/sap.ui.core/src/sap/ui/model/odata/v4/ODataListBinding.js:1192-1198 | sorting by one property without filters adds exactly that `$orderby` and no `$filter` to the query options |
| QueryOptions.CacheOptionsFails | src/sap.ui.core/src/sap/ui/model/odata/v4/ODataListBinding.js:1192-1218 | the query options fail exactly when the `$filter` fails or a sorter is not a `Sorter`; a failing `$filter` is the error reported, since `buildOrderbyOption` runs only in the callback that receives the `$filter` |
| Filters.SingleValue | src/sap.ui.core/src/sap/ui/model/odata/v4/ODataListBinding.js:659-689 | a single filter fails exactly for an unsupported operator, with the error naming it |
| Filters.SamePath | src/sap.ui.core/src/sap/ui/model/odata/v4/ODataListBinding.js:704-707 | a group holds only single filters on its path |
| Filters.SamePathMembers | src/sap.ui.core/src/sap/ui/model/odata/v4/ODataListBinding.js:704-707 | a group holds exactly the single filters of the array on its path |
| Filters.GroupValues | src/sap.ui.core/src/sap/ui/model/odata/v4/ODataListBinding.js:757-759 | the values of a group fail exactly when one filter has an unsupported operator; otherwise there is one value per filter, the value of the filter at the same position |
| Filters.GroupFilterFails | src/sap.ui.core/src/sap/ui/model/odata/v4/ODataListBinding.js:742-762 | a group fails exactly when one of its filters is bad, that is when the path has no metadata or the operator is unsupported |
| Filters.ArrayFilterFails | src/sap.ui.core/src/sap/ui/model/odata/v4/ODataListBinding.js:700-731 | with the grouping by own keys (see Findings), an array of filters fails exactly when one of its filters, nested arrays included, is bad |
| Filters.PartsFail | src/sap.ui.core/src/sap/ui/model/odata/v4/ODataListBinding.js:708-726 | with the grouping by own keys (see Findings), the parts from index `i` fail exactly when a bad filter follows whose path group was not already emitted |
| Filters.GroupFilterOne | src/sap.ui.core/src/sap/ui/model/odata/v4/ODataListBinding.js:645-648 | a group of one filter is its value without parentheses |
| Filters.GroupFilterPair | src/sap.ui.core/src/sap/ui/model/odata/v4/ODataListBinding.js:645-648 | a group of two filters is their values joined with " or " in parentheses |
| Filters.ArrayFilterSamePath | src/sap.ui.core/src/sap/ui/model/odata/v4/ODataListBinding.js:700-731 | two filters on one path form one parenthesised " or " group, whatever the array's `bAnd` |
| Filters.ArrayFilterTwoPaths | src/sap.ui.core/src/sap/ui/model/odata/v4/ODataListBinding.js:700-731 | two filters on two paths are joined with " and " or " or " as the array says, without parentheses |
| Filters.ArrayFilterPairThenOne | src/sap.ui.core/src/sap/ui/model/odata/v4/ODataListBinding.js:700-731 | two filters on one path and one on another give the parenthesised group, then the joiner, then the single value |
| Filters.ExampleApplication | src/sap.ui.core/src/sap/ui/model/odata/v4/ODataListBinding.js:700-731 | A = x, A = y and B > z compile to "(A eq x or A eq y) and B gt z" |
| Filters.CompileFails | src/sap.ui.core/src/sap/ui/model/odata/v4/ODataListBinding.js:765-774 | with the grouping by own keys (see Findings), `$filter` fails exactly when an application or control filter is bad |
| Filters.CompileStaticOnly | src/sap.ui.core/src/sap/ui/model/odata/v4/ODataListBinding.js:765-774 | without dynamic filters the static `$filter` is used as it is; all-empty input gives "" |
| Filters.CompileWithStatic | src/sap.ui.core/src/sap/ui/model/odata/v4/ODataListBinding.js:765-774 | non-empty application filters and a static filter give "(application) and (static)" |
| Filters.GroupFilterAny | src/sap.ui.core/src/sap/ui/model/odata/v4/ODataListBinding.js:742-762 | a group of any number of supported filters on a path with metadata is its single value alone, or all values in their order joined with " or " and put in parentheses |
| Filters.LeadersFromExactly | src/sap.ui.core/src/sap/ui/model/odata/v4/ODataListBinding.js:708-726 | the positions that contribute a part are exactly the nested arrays and the first single filter on each path, in increasing order |
| Filters.PartValuesAt | src/sap.ui.core/src/sap/ui/model/odata/v4/ODataListBinding.js:708-731 | when the parts succeed there is one per contributing position, and each is that position's part |
| Filters.PartsLeaders | src/sap.ui.core/src/sap/ui/model/odata/v4/ODataListBinding.js:708-726 | the second loop yields exactly the parts of the contributing positions, in order, and fails with the first part that fails |
| Filters.ArrayFilterLeaders | src/sap.ui.core/src/sap/ui/model/odata/v4/ODataListBinding.js:700-731 | an array's `$filter` is the parts of its contributing positions joined with " and " or " or " as the array says; it fails with the first failing part |
| Filters.NestedPart | src/sap.ui.core/src/sap/ui/model/odata/v4/ODataListBinding.js:711-717 | a nested array always contributes its own `$filter` in parentheses, at its own position among the parts |
| Filters.CombineNonEmpty | src/sap.ui.core/src/sap/ui/model/odata/v4/ODataListBinding.js:645-648 | the non-empty ones of the application, control and static filters: none gives "", one is kept as it is, several are each parenthesised and joined with " and " |
| Filters.CompileCases | src/sap.ui.core/src/sap/ui/model/odata/v4/ODataListBinding.js:765-774 | the `$filter` value for every combination of empty and non-empty application, control and static filters |
| Filters.CompileAsWrittenFails | src/sap.ui.core/src/sap/ui/model/odata/v4/ODataListBinding.js:702-707 | as written, `fetchFilter` fails exactly when a filter is bad or a single filter at any depth is on a path named like an inherited member |
| Filters.InheritedPathThrows | src/sap.ui.core/src/sap/ui/model/odata/v4/ODataListBinding.js:702-707 | a single filter on "toString" compiles with the grouping by own keys but throws a TypeError as written |
| Parking.ParkKeys | src/sap.ui.core/src/sap/ui/model/odata/v4/ODataListBinding.js:1282-1286 | after parking, the table's keys are the old keys plus the paths of all contexts in the array; keys not among those paths keep their context |
| Parking.ParkContains | src/sap.ui.core/src/sap/ui/model/odata/v4/ODataListBinding.js:1283-1285 | every context of the array is parked under its path, when the paths are distinct |
| Parking.ParkFrom | src/sap.ui.core/src/sap/ui/model/odata/v4/ODataListBinding.js:1283-1285 | each parked entry was either already in the table or is a context of the array under its own path |
| Parking.Reset | src/sap.ui.core/src/sap/ui/model/odata/v4/ODataListBinding.js:1279-1293 | after `reset` the array and the created row are empty, the bound is `Infinity` and the length is not final |
| Parking.ResetParks | src/sap.ui.core/src/sap/ui/model/odata/v4/ODataListBinding.js:1283-1285 | every context of a coherent array is parked under its path by `reset` |
| Parking.ResetCoherent | src/sap.ui.core/src/sap/ui/model/odata/v4/ODataListBinding.js:1279-1293 | `reset` keeps the projection coherent |
| Reconcile.FillRangeSlots | src/sap.ui.core/src/sap/ui/model/odata/v4/ODataListBinding.js:453-465 | after the fill loop every index of the range holds a context; defined slots and slots outside the range keep theirs; the loop reports a change exactly when it met a hole; the array grows to the range's end |
| Reconcile.FillRangePrevious | src/sap.ui.core/src/sap/ui/model/odata/v4/ODataListBinding.js:457-459 | the fill loop removes from the table exactly the paths of the holes it filled |
| Reconcile.FillRangeReused | src/sap.ui.core/src/sap/ui/model/odata/v4/ODataListBinding.js:457-460 | a hole whose path is parked gets exactly the parked context |
| Reconcile.FillRangeFresh | src/sap.ui.core/src/sap/ui/model/odata/v4/ODataListBinding.js:461-462 | a hole whose path is not parked gets a new context with the row path, the index and a fresh identity |
| Reconcile.FillRangeCoherent | src/sap.ui.core/src/sap/ui/model/odata/v4/ODataListBinding.js:453-465 | the fill loop keeps the projection coherent |
| Reconcile.ReconcileFills | src/sap.ui.core/src/sap/ui/model/odata/v4/ODataListBinding.js:453-465 | after `createContexts(range, n)` every index of `[start, start+n)` holds a context; defined slots and slots outside that interval keep theirs |
| Reconcile.ReconcileReuse | src/sap.ui.core/src/sap/ui/model/odata/v4/ODataListBinding.js:456-463 | a filled hole's path leaves the table; the hole gets the parked context, or else a fresh one with path `resolvedPath + "/" + i` and index `i` |
| Reconcile.ReconcilePrevious | src/sap.ui.core/src/sap/ui/model/odata/v4/ODataListBinding.js:457-459 | `createContexts` removes from the table exactly the paths of the holes in the range |
| Reconcile.ReconcileBound | src/sap.ui.core/src/sap/ui/model/odata/v4/ODataListBinding.js:475-484 | a short read fixes the bound at `start + n` and cuts the array to it; otherwise an array grown past the bound resets it to `Infinity`; the array never exceeds a finite bound; `bLengthFinal` holds exactly when the length equals the bound |
| Reconcile.ReconcileChanged | src/sap.ui.core/src/sap/ui/model/odata/v4/ODataListBinding.js:444-489 | `createContexts` returns true exactly when a hole in the range was filled or `bLengthFinal` flipped |
| Reconcile.ReconcileCoherent | src/sap.ui.core/src/sap/ui/model/odata/v4/ODataListBinding.js:443-491 | `createContexts` keeps the projection coherent |
| Reconcile.ReconcileShortRead | src/sap.ui.core/src/sap/ui/model/odata/v4/ODataListBinding.js:478-484 | a short read that reaches the array makes the length final at exactly `start + n` |
| Reconcile.ReconcileIdempotent | src/sap.ui.core/src/sap/ui/model/odata/v4/ODataListBinding.js:443-491 | running `createContexts` again with the same range and result changes nothing and reports no change |
| Removal.ShiftStep | src/sap.ui.core/src/sap/ui/model/odata/v4/ODataListBinding.js:170-181 | one iteration changes only its own slot |
| Removal.ShiftLoopOutside | src/sap.ui.core/src/sap/ui/model/odata/v4/ODataListBinding.js:170 | the loop leaves the slots outside `[index, hi)` alone |
| Removal.ShiftLoopAt | src/sap.ui.core/src/sap/ui/model/odata/v4/ODataListBinding.js:170-182 | each slot of the loop ends up as its old content and its old successor dictate: a context before a hole becomes a hole, a hole before a context becomes a new context, anything else stays |
| Removal.ShiftLoopPreviousKeys | src/sap.ui.core/src/sap/ui/model/odata/v4/ODataListBinding.js:173-175 | the loop adds to the table exactly the paths of the contexts it parks |
| Removal.ShiftLoopPrevious | src/sap.ui.core/src/sap/ui/model/odata/v4/ODataListBinding.js:170-182 | table entries under other paths keep their context |
| Removal.ShiftLoopParks | src/sap.ui.core/src/sap/ui/model/odata/v4/ODataListBinding.js:173-175 | a context followed by a hole is parked under its path |
| Removal.ShiftLoopPreviousAt | src/sap.ui.core/src/sap/ui/model/odata/v4/ODataListBinding.js:173-175 | every entry of the table afterwards was there before or is a context the loop parked |
| Removal.Remove | src/sap.ui.core/src/sap/ui/model/odata/v4/ODataListBinding.js:165-168 | index -1 clears only the created row; `bLengthFinal` never changes |
| Removal.RemoveShifts | src/sap.ui.core/src/sap/ui/model/odata/v4/ODataListBinding.js:169-184 | for an index of at least 0: slots below the index are untouched; the others are re-indexed slot by slot; the length drops by one; the bound drops by one, with `Infinity` staying `Infinity` |
| Removal.RemoveParks | src/sap.ui.core/src/sap/ui/model/odata/v4/ODataListBinding.js:173-175 | a context followed by a hole lands in the table under its path, and no entry leaves the table |
| Removal.RemoveCoherent | src/sap.ui.core/src/sap/ui/model/odata/v4/ODataListBinding.js:162-185 | the callback keeps the projection coherent |
| Removal.ShiftStepAsWritten | src/sap.ui.core/src/sap/ui/model/odata/v4/ODataListBinding.js:171-181 | the iteration as written throws exactly at a hole followed by a hole; otherwise it is `ShiftStep` |
| Removal.ShiftLoopAsWrittenFails | src/sap.ui.core/src/sap/ui/model/odata/v4/ODataListBinding.js:170-182 | the loop as written throws exactly when two holes follow each other from the index on; otherwise it agrees with `ShiftLoop` |
| Removal.HolesExampleFirst | src/sap.ui.core/src/sap/ui/model/odata/v4/ODataListBinding.js:170-175 | deleting row 0 of [c0, hole, hole, c3] parks c0 at the first iteration |
| Removal.HolesExampleSecond | src/sap.ui.core/src/sap/ui/model/odata/v4/ODataListBinding.js:170-178 | at the third iteration the hole before c3 gets a new context |
| Removal.DeleteBeforeHolesThrows | src/sap.ui.core/src/sap/ui/model/odata/v4/ODataListBinding.js:170-182 | on [c0, hole, hole, c3] the loop as written throws; the corrected loop parks c0 and c3 and creates one context |
| Binding.LengthAfterShortRead | src/sap.ui.core/src/sap/ui/model/odata/v4/ODataListBinding.js:1098-1108 | after a short read reaching its end, `getLength` is exactly the fixed bound plus the created row, and the length is final |
| Binding.LengthAfterReset | src/sap.ui.core/src/sap/ui/model/odata/v4/ODataListBinding.js:1098-1108 | after `reset` `getLength` is 10 and the length is not final |
| Binding.CurrentContextsAt | src/sap.ui.core/src/sap/ui/model/odata/v4/ODataListBinding.js:1020-1036 | `getCurrentContexts` has as many entries as the window up to the bound; entry `k` is slot `begin + k` |
| Binding.Construction | src/sap.ui.core/src/sap/ui/model/odata/v4/ODataListBinding.js:108-110 | construction fails exactly for a path ending in "/", or for sorters or filters without an operation mode |
| Binding.DeleteRequest | src/sap.ui.core/src/sap/ui/model/odata/v4/ODataListBinding.js:514-527 | a delete passes exactly when the context is transient or no changes are pending (the check of `_delete` at 158-160), and then a binding with a cache uses the group "$auto" or "$direct" (else "Illegal update group ID" with the group), while a binding without one gives whatever the parent binding's own check gives |
| Binding.Response | src/sap.ui.core/src/sap/ui/model/odata/v4/ODataListBinding.js:993-998 | `getContexts` fails exactly when extended change detection holds a diff for another length |
| Binding.ResponseAfterRead | src/sap.ui.core/src/sap/ui/model/odata/v4/ODataListBinding.js:993-1002 | a diff recorded for the requested length makes no difference to the response |
| Binding.ListBinding.constructor | src/sap.ui.core/src/sap/ui/model/odata/v4/ODataListBinding.js:105-133 | a new binding is empty, with an unknown length and no window; only an absolute binding has a cache |
| Binding.ListBinding.FillContexts | src/sap.ui.core/src/sap/ui/model/odata/v4/ODataListBinding.js:453-465 | the loop leaves the array, the table and the counter as `FillRange` says |
| Binding.ListBinding.FillSlot | src/sap.ui.core/src/sap/ui/model/odata/v4/ODataListBinding.js:454-464 | one iteration of the loop does what `FillAt` says |
| Binding.ListBinding.CreateContexts | src/sap.ui.core/src/sap/ui/model/odata/v4/ODataListBinding.js:443-491 | the new state and the result are those of `Reconcile`, and the binding stays valid |
| Binding.ListBinding.Read | src/sap.ui.core/src/sap/ui/model/odata/v4/ODataListBinding.js:927-946 | the read covers `getReadRange`; with a cache the refresh group is consumed; a fulfilled read without a pending refresh creates the contexts at once, without a change event; any other read is returned as pending |
| Binding.ListBinding.GetContexts | src/sap.ui.core/src/sap/ui/model/odata/v4/ODataListBinding.js:884-1003 | with extended change detection a start other than 0 or a prefetch size is an error; an unresolved relative binding returns []; otherwise the reason is consumed, the window is remembered, the read happens unless a diff is pending, and the window is returned |
| Binding.ListBinding.FetchContexts | src/sap.ui.core/src/sap/ui/model/odata/v4/ODataListBinding.js:917-1003 | the resolved part of `getContexts`, in model coordinates |
| Binding.ListBinding.ReadUnlessDiff | src/sap.ui.core/src/sap/ui/model/odata/v4/ODataListBinding.js:927-984 | without a pending diff the read happens; with one nothing changes; the response is unaffected either way |
| Binding.ListBinding.Respond | src/sap.ui.core/src/sap/ui/model/odata/v4/ODataListBinding.js:985-1003 | the window is remembered; the response is the window, or the protocol error, which keeps the diff; otherwise the diff is consumed |
| Binding.ListBinding.CompleteRead | src/sap.ui.core/src/sap/ui/model/odata/v4/ODataListBinding.js:947-965 | a completion for a parent context that is no longer current changes nothing; otherwise the contexts are created, the diff records the length, and a change event with the read's reason follows exactly when something changed |
| Binding.ListBinding.GetCurrentContexts | src/sap.ui.core/src/sap/ui/model/odata/v4/ODataListBinding.js:1020-1036 | the padding loop computes `CurrentContexts` |
| Binding.ListBinding.Reindex | src/sap.ui.core/src/sap/ui/model/odata/v4/ODataListBinding.js:170-182 | the re-indexing loop does what `ShiftLoop` says |
| Binding.ListBinding.DeleteCallback | src/sap.ui.core/src/sap/ui/model/odata/v4/ODataListBinding.js:162-187 | the new state is `Remove` of the old one, a Remove change event follows, and the binding stays valid |
| Binding.ListBinding.Create | src/sap.ui.core/src/sap/ui/model/odata/v4/ODataListBinding.js:400-428 | a second create, or a create without a cache, fails and changes nothing; otherwise slot -1 holds a new context with index -1 and path `resolvedPath + "/-1"`, and an Add change event follows |
| Binding.ListBinding.CreatedDiscarded | src/sap.ui.core/src/sap/ui/model/odata/v4/ODataListBinding.js:415-418 | the cache's cancel callback clears slot -1 and fires a Remove change event |
| Binding.ListBinding.ParkContexts | src/sap.ui.core/src/sap/ui/model/odata/v4/ODataListBinding.js:1282-1286 | the `forEach` loop parks as `Park` says |
| Binding.ListBinding.Reset | src/sap.ui.core/src/sap/ui/model/odata/v4/ODataListBinding.js:1279-1298 | the state is `Parking.Reset` of the old one and the window is [0, 0); a given reason is remembered and fired as a refresh event |
| Binding.ListBinding.SetContext | src/sap.ui.core/src/sap/ui/model/odata/v4/ODataListBinding.js:1310-1322 | the same context changes nothing; a relative binding with a new context is reset, decides its cache anew and fires a Context change event; an absolute binding only remembers the context |
| Binding.ListBinding.RefreshInternal | src/sap.ui.core/src/sap/ui/model/odata/v4/ODataListBinding.js:1255-1261 | the group is remembered, a binding with a cache decides its cache anew, and the binding is reset with reason Refresh, which empties the window to [0, 0) |
| Binding.ListBinding.Sort | src/sap.ui.core/src/sap/ui/model/odata/v4/ODataListBinding.js:1379-1393 | outside the Server operation mode, or with pending changes, sort fails and changes nothing; otherwise the sorters are replaced, the cache is decided anew and the binding is reset with reason Sort, which empties the window to [0, 0) |
| Binding.ListBinding.Filter | src/sap.ui.core/src/sap/ui/model/odata/v4/ODataListBinding.js:835-853 | as `Sort`, but for the control or the application filters, with reason Filter; the window becomes [0, 0) |
| Binding.ListBinding.ApplyParameterChanges | src/sap.ui.core/src/sap/ui/model/odata/v4/ODataListBinding.js:290-296 | the loop leaves the parameters as `ApplyChanges` says |
| Binding.ListBinding.ChangeParameters | src/sap.ui.core/src/sap/ui/model/odata/v4/ODataListBinding.js:275-298 | a missing map fails; an empty map changes nothing; a "$$" key fails with its name before anything changes; otherwise the parameters are updated and the binding is reset with reason Change, which empties the window to [0, 0) |
| Binding.ListBinding.AttachEvent | src/sap.ui.core/src/sap/ui/model/odata/v4/ODataListBinding.js:254-260 | a handler is attached exactly when the event passes the whitelist |
| Binding.ListBinding.EnableExtendedChangeDetection | src/sap.ui.core/src/sap/ui/model/odata/v4/ODataListBinding.js:572-579 | a key is refused with its value in the message and changes nothing; otherwise extended change detection is on |
| Filters.Compile | src/sap.ui.core/src/sap/ui/model/odata/v4/ODataListBinding.js:632-774 | definition of `fetchFilter`; properties in `Filters.CompileFails`, `Filters.CompileCases`, `Filters.CompileStaticOnly` |
| Filters.ArrayFilter | src/sap.ui.core/src/sap/ui/model/odata/v4/ODataListBinding.js:700-731 | definition of `fetchArrayFilter`; properties in `Filters.ArrayFilterFails`, `Filters.ArrayFilterLeaders`, `Filters.NestedPart` |
| Filters.GroupFilter | src/sap.ui.core/src/sap/ui/model/odata/v4/ODataListBinding.js:742-762 | definition of `fetchGroupFilter`; properties in `Filters.GroupFilterFails`, `Filters.GroupFilterAny` |
| Filters.Combine | src/sap.ui.core/src/sap/ui/model/odata/v4/ODataListBinding.js:645-648 | definition of `combineFilterValues`; properties in `Filters.GroupFilterAny`, `Filters.CombineNonEmpty` |
| Filters.CompileAsWritten | src/sap.ui.core/src/sap/ui/model/odata/v4/ODataListBinding.js:702-707 | definition of `fetchFilter` with the grouping as written; properties in `Filters.CompileAsWrittenFails`, `Filters.InheritedPathThrows` |
| Reconcile.Reconcile | src/sap.ui.core/src/sap/ui/model/odata/v4/ODataListBinding.js:443-491 | definition of `createContexts`; properties in the `Reconcile.Reconcile*` lemmas |
| Reconcile.FillAt | src/sap.ui.core/src/sap/ui/model/odata/v4/ODataListBinding.js:453-464 | definition of one iteration of the fill loop; properties in `Reconcile.FillRangeReused`, `Reconcile.FillRangeFresh` |
| Reconcile.FillRange | src/sap.ui.core/src/sap/ui/model/odata/v4/ODataListBinding.js:453-465 | definition of the fill loop; properties in the `Reconcile.FillRange*` lemmas |
| Removal.ShiftLoop | src/sap.ui.core/src/sap/ui/model/odata/v4/ODataListBinding.js:170-182 | definition of the corrected re-indexing loop of `_delete`; properties in the `Removal.ShiftLoop*` and `Removal.Remove*` lemmas |
| Removal.ShiftLoopAsWritten | src/sap.ui.core/src/sap/ui/model/odata/v4/ODataListBinding.js:170-182 | definition of the loop as written; properties in `Removal.ShiftLoopAsWrittenFails`, `Removal.DeleteBeforeHolesThrows` |
| Parking.Park | src/sap.ui.core/src/sap/ui/model/odata/v4/ODataListBinding.js:1282-1286 | definition of the `forEach` of `reset`; properties in `Parking.ParkKeys`, `Parking.ParkContains`, `Parking.ParkFrom` |
| Projection.Window | src/sap.ui.core/src/sap/ui/model/odata/v4/ODataListBinding.js:985-992 | definition of the window of `getContexts`; properties in `Projection.WindowIndices` |
| QueryOptions.NeedsOwnCache | src/sap.ui.core/src/sap/ui/model/odata/v4/ODataListBinding.js:1201-1212 | definition of the own-cache test of `makeCache`; properties in `QueryOptions.NeedsOwnCacheRelative` |
| QueryOptions.CacheOptions | src/sap.ui.core/src/sap/ui/model/odata/v4/ODataListBinding.js:1188-1219 | definition of the query options of `makeCache`: the `$filter` first, then the `$orderby` in the callback; properties in `QueryOptions.CacheOptionsFails`, `QueryOptions.CacheOptionsSortOnly` |
| QueryOptions.ApplyChanges | src/sap.ui.core/src/sap/ui/model/odata/v4/ODataListBinding.js:290-296 | definition of the second loop of `changeParameters`; properties in `QueryOptions.ApplyChangesEntries` |
| Paths.AbsoluteValueSource | src/sap.ui.core/src/sap/ui/model/odata/v4/ODataListBinding.js:596-603 | definition of the corrected path split of `fetchAbsoluteValue`; properties in the `Paths.AbsoluteValueOf*` lemmas |
| Paths.AbsoluteValueSourceAsWritten | src/sap.ui.core/src/sap/ui/model/odata/v4/ODataListBinding.js:596-603 | definition of the path split as written; properties in `Paths.AbsoluteValueAsWrittenMissesRow` |
| Paths.ParseInt | src/sap.ui.core/src/sap/ui/model/odata/v4/ODataListBinding.js:600 | definition of `parseInt(s, 10)`; properties in `Paths.ParseIndexString`, `Paths.ParseNegativeIndex` |
| Prefetch.MissingAfter | src/sap.ui.core/src/sap/ui/model/odata/v4/ODataListBinding.js:1141-1143 | definition of the probe after the range; properties in `Prefetch.ReadRange` |
| Prefetch.MissingBefore | src/sap.ui.core/src/sap/ui/model/odata/v4/ODataListBinding.js:1144 | definition of the probe before the range; properties in `Prefetch.ReadRange` |
| Binding.LengthOf | src/sap.ui.core/src/sap/ui/model/odata/v4/ODataListBinding.js:1098-1108 | definition of `getLength`; properties in `Binding.LengthAfterShortRead`, `Binding.LengthAfterReset` |
| Binding.CurrentContexts | src/sap.ui.core/src/sap/ui/model/odata/v4/ODataListBinding.js:1020-1036 | definition of `getCurrentContexts`; properties in `Binding.CurrentContextsAt` |

## Left out

- Promise plumbing is not modelled:
  - the `dataRequested` and `dataReceived` events;
  - `reportError` for failed reads;
  - the asynchronous error path.

  A read either completes at once or stays pending as a `PendingRead`. The `Promise.resolve` re-wrap (943-946) shows only as "a pending refresh makes the read pending".
- The cache is only a flag. This leaves out:
  - its `read`, `create`, `_delete` and `deregisterChange` requests;
  - the group ids they carry;
  - `mCacheByContext`;
  - the cache's own query options, which `QueryOptions.CacheOptions` computes but the binding does not store.

  A read result is only its number of rows.
- Context objects are records. `checkUpdate`, `destroy` and the prerendering task that destroys unused parked contexts (467-474) are not modelled, so the table of previous contexts keeps those contexts.
- `getDiff` (1057-1070) relies on `JSON.stringify` and `jQuery.sap.arraySymbolDiff`. The diff is modelled only by the length it was computed for.
- Several functions are not part of this model: `checkUpdate`, `deregisterChange`, `destroy`, `fetchValue`, `getDistinctValues` and `toString`. The text of `toString` is a `bindingText` parameter.
- `refreshInternal` also refreshes the dependent bindings, which are not part of this model.
- `setParameters` and the collaborators are not modelled:
  - `setParameters` calls `buildBindingParameters` and `buildQueryOptions` of the model, and sets the group ids. Its operation-mode check is part of `Construction`.
  - `_Helper.formatLiteral` and `decodeURIComponent` are the total functions `fmt` and `decode` of `Filters.Env`. Their throws are not modelled: an error of `formatLiteral`, or the `URIError` of `decodeURIComponent` on a path such as "A%". `Filters.CompileFails` therefore holds only for values and paths they accept.
  - The metadata lookup is a map from path to Edm type, read synchronously.
  - `oModel.resolve` is the concatenation of the context path, "/" and the relative path.
- `fetchAbsoluteValue` is modelled as the choice of where the value comes from. The reads themselves are not modelled.
- JavaScript numbers are unbounded integers. NaN lengths, fractional lengths and `undefined` arguments other than the prefetch size are not modelled. An odd prefetch size is modelled as written: the probe before the range starts at a fractional index and therefore always finds a hole.
- Binding.ListBinding.GetContexts: requires a start of at least 0, as view coordinates do. The index property of the window it returns is stated by `Projection.WindowIndices` rather than in the method's own contract.
- Binding.ListBinding.SetContext: `Binding#setContext`'s data-state handling is not modelled.
- Reads from the created slot: `createContexts` as written accepts a read from -1 that returns no row. A short read then sets `iMaxLength` to -1, and `this.aContexts.length = -1` throws a RangeError that leaves the bound at -1 (478-482). The members below instead require at least one row from -1, that is `start + n >= 0`, on the grounds that the cache returns the created row first. They also exclude a read from -1 of length 0 with no row, which the source handles without error. The model does not show the RangeError or the state it leaves.
- Reconcile.Reconcile: requires `range.start + n >= 0`, as the previous line says.
- Binding.ListBinding.CreateContexts: requires `range.start + n >= 0`, as the reads-from-the-created-slot line says.
- Binding.ListBinding.CompleteRead: requires `read.range.start + n >= 0`, as the reads-from-the-created-slot line says.
- Binding.ListBinding.Read: requires at least one available row when the read starts at -1, as the reads-from-the-created-slot line says.
- Binding.ListBinding.GetContexts: requires at least one available row when a created row shifts the start to -1, as the reads-from-the-created-slot line says.
- Binding.ListBinding.FetchContexts: requires at least one available row when the read starts at -1, as the reads-from-the-created-slot line says.
- Binding.ListBinding.ReadUnlessDiff: requires at least one available row when the read starts at -1, as the reads-from-the-created-slot line says.
- Binding.DeleteRequest: the parent binding's own check is a parameter; the parent binding is not part of this model.
- Binding.ListBinding.Filter: the binding follows the corrected grouping of the Findings. As written, `filter` with a single filter on a path such as "toString" throws a TypeError out of `makeCache` after the filters are replaced and before the reset; later `sort` and `refresh` calls throw the same way, as do the constructor of an absolute binding given such application filters and `setContext` of a relative binding that makes a cache of its own. The model does not show that throw.
- Filters.SamePath: a single filter on the literal path "undefined" in an array that also holds nested arrays is not grouped as the source groups it. The source files the nested arrays, whose `sPath` is `undefined`, under the same key.

## Findings

| source | as written | input that shows it | evidently intended | confidence | as-written member | corrected member |
|---|---|---|---|---|---|---|
| src/sap.ui.core/src/sap/ui/model/odata/v4/ODataListBinding.js:170-181 | at a hole followed by a hole the loop reaches `oContext.checkUpdate()` with `oContext` undefined, a TypeError | deleting row 0 of [c0, hole, hole, c3], as after two reads with a gap between them | two holes in a row stay holes; `Removal.RemoveShifts` and `Removal.RemoveCoherent` prove the corrected loop | high, not executed | Removal.DeleteBeforeHolesThrows | Removal.ShiftLoop |
| src/sap.ui.core/src/sap/ui/model/odata/v4/ODataListBinding.js:255 | `sEventId in mSupportedEvents` also holds for names the object literal inherits | `attachEvent("toString")` passes | only the four own keys pass | high, not executed | Events.AttachToStringPasses | Events.CheckEvent |
| src/sap.ui.core/src/sap/ui/model/odata/v4/ODataListBinding.js:598 | `sPath.lastIndexOf(sResolvedPath) === 0` looks for the last occurrence of the prefix | "/A/0/A/" with the collection "/A": the prefix occurs again at 4, so the value is fetched through the parent context | a prefix test (`lastIndexOf(sResolvedPath, 0) === 0`); `Paths.AbsoluteValueOfRowPath` proves it | medium, not executed | Paths.AbsoluteValueAsWrittenMissesRow | Paths.AbsoluteValueSource |
| src/sap.ui.core/src/sap/ui/model/odata/v4/ODataListBinding.js:702-707 | `fetchArrayFilter` groups the filters by path in an object literal `{}`, so for a path named like an inherited member the lookup finds that member and `push` on it throws a TypeError | `filter(new Filter("toString", "EQ", 1))` on an entity type with a property "toString" | group by own keys only, for instance with `Object.create(null)`; `Filters.CompileFails` proves the intended failure condition | high, not executed | Filters.InheritedPathThrows | Filters.Compile |
