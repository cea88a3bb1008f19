# better-pivottable aggregation engine, in Dafny

This project models the data side of the pivot table in `src/pivot.js`:

- how a record is turned into a composite row key and column key;
- how those keys are serialised with the NUL character and split back;
- the `PivotData` object;
- the count aggregator;
- the `spanSize` helper the renderer uses to merge header cells;
- the renderer's key filter and the interface's record filter.

`PivotData` keeps four stores:

- a nested map `tree` from row key to column key to aggregator;
- the row margins `rowTotals`;
- the column margins `colTotals`;
- the grand total `allTotal`.

`processData` walks the input once. It keeps each record the filter accepts and pushes it into its cell, its row margin, its column margin and the grand total, creating a slot the first time it is needed. `getAggregator` answers a query from one of the four stores. JavaScript truthiness decides which: an empty key string counts as "no key". `getRowKeys` and `getColKeys` list the margin keys and sort them with a natural, digit-aware comparator, reversed for the `value_z_to_a` policy.

## Modules

- `values.dfy` (`Values`): JavaScript values with truthiness, and records as maps from attribute names.
- `keys.dfy` (`Keys`): key derivation (`record[attr] || 'null'`), `join` and `split` on NUL, and the round trip between them.
- `aggregators.dfy` (`Aggregators`): the count aggregator as a value with `Push`, `Value` and `Format`.
- `natural_order.dfy` (`NaturalOrder`): the comparator; `sorting.dfy` (`Sorting`): `sortKeys` as an in-place insertion sort plus an in-place reverse.
- `grouping.dfy` (`Grouping`): which accepted records belong to which slot, and the counting facts behind "the margins add up".
- `pivot_data.dfy` (`Pivot`): the `PivotData` class. Its fields are the four stores and the options it keeps. A ghost field keeps the accepted records, and the object invariant `Valid` ties every slot to them.
- `spans.dfy` (`Spans`): `spanSize` with the source's nested loops, proved against a specification function, and the tiling theorem.
- `filters.dfy` (`Filters`): the key filter of the renderer (lines 145-150) and the record filter of `refresh` (lines 642-647).

Behaviour reproduced on purpose:

- Every falsy attribute value (`undefined`, `null`, `false`, `0`, `""`) becomes the component `"null"`, so it groups with the string `"null"`. The renderer drops a key only when every component is `"null"` or blank (`Filters.AllFalsyKeyDropped`). A key with one visible component is kept, and all its components are shown, `"null"` included (`Filters.NullComponentStillShown`).
- With no attributes the key is `""`. It splits back to `[""]`, not `[]`. `getAggregator` treats `""` as an absent key, so the cell `("", c)` is never consulted and the column margin `c` answers.
- `key_a_to_z`, `value_a_to_z` and unknown policies all sort ascending by key text. Only `value_z_to_a` reverses.
- The collator ignores the NUL separator, so a multi-attribute key sorts as if its components were run together (`NaturalOrder.JoinedKeysCompareRunTogether`).
- The constructor creates the grand total with `opts.aggregator([])`, not `this.aggregator([])`. A call without an aggregator factory therefore fails, so the model's constructor requires one. The default at line 7 (`countAggregator()`, an aggregator object rather than a factory) is never usable.
- A value that contains NUL breaks the injectivity of the serialised key (`Keys.SeparatorCollision`).

## Model

| member | source | states |
|---|---|---|
| `Values.Get` | src/pivot.js:22-23 | `record[attr]`: a missing attribute reads as `undefined`, which `Keys.KeyPart` turns into "null" (`Keys.FalsyGroupsAsNull`) |
| `Values.Truthy` | src/pivot.js:22-23 | JavaScript truthiness; a truthy value never renders as "" (`Values.TruthyRendersNonEmpty`), so no key component is empty |
| `Values.ValueString` | src/pivot.js:25-26 | how `join` renders one component; an integer renders as the decimal string that `NaturalOrder.NumbersCompareByValue` and `Keys.NumberGroupsWithItsString` rely on |
| `Keys.KeyPart` | src/pivot.js:22-23 | a key component is the attribute value itself when truthy and the string "null" otherwise, so it is always truthy |
| `Keys.DeriveKey` | src/pivot.js:22-23 | one component per grouping attribute, in order; position i comes from attribute i |
| `Keys.Render` | src/pivot.js:25-26 | one string per component, in order, each as `join` renders it |
| `Keys.Join` | src/pivot.js:25-26 | `join` on NUL; its partner `Keys.Split` inverts it (`Keys.SplitJoin`, `Keys.JoinSplit`) |
| `Keys.KeyString` | src/pivot.js:22-26 | the serialised key; it gives back the components under NUL-free values (`Keys.KeyRoundTrip`) and is equal for two records exactly when their components are (`Keys.KeyStringInjective`) |
| `Keys.KeyPartsNonEmpty` | src/pivot.js:22-23 | no rendered component of a derived key is the empty string |
| `Keys.FalsyGroupsAsNull` | src/pivot.js:22-23 | a record whose attribute is falsy gets the same key as one holding the string "null" there |
| `Keys.NumberGroupsWithItsString` | src/pivot.js:22-26 | for every attribute list, a non-zero number and its decimal string give the same components and the same serialised key |
| `Keys.Split` | src/pivot.js:146 | `split` on NUL always yields at least one piece |
| `Keys.SplitPieces` | src/pivot.js:146 | the pieces contain no NUL, and there is one more piece than there are separators |
| `Keys.JoinSplit` | src/pivot.js:146 | joining the pieces of any string restores the string |
| `Keys.SplitJoin` | src/pivot.js:25-26 | splitting a join of at least one NUL-free component returns exactly those components |
| `Keys.JoinInjective` | src/pivot.js:25-26 | two NUL-free component lists, each non-empty, with the same serialisation are equal |
| `Keys.KeyRoundTrip` | src/pivot.js:22-26 | for a non-empty attribute list and NUL-free values, splitting a record's serialised key gives back its rendered components |
| `Keys.KeyStringInjective` | src/pivot.js:22-26 | under the same conditions two records share a serialised key exactly when they share the rendered components |
| `Keys.KeyStringNonEmpty` | src/pivot.js:25-26 | with at least one attribute the serialised key is never "" |
| `Keys.EmptyAttributeListKey` | src/pivot.js:25-26 | with no attributes the key is "" and splits back to [""] |
| `Keys.SeparatorCollision` | src/pivot.js:25-26 | two records whose values contain NUL can have different components and the same serialised key |
| `Aggregators.NewCount` | src/pivot.js:92-94 | a fresh count aggregator has value 0 |
| `Aggregators.CountAggregator.Push` | src/pivot.js:95 | a push adds one to the value, whatever the record |
| `Aggregators.CountAggregator.Value` | src/pivot.js:96 | `value()`: the number of pushes so far (`Aggregators.PushAllCounts`) |
| `Aggregators.CountAggregator.Format` | src/pivot.js:97 | a count is displayed unchanged |
| `Aggregators.PushAllCounts` | src/pivot.js:92-98 | after pushing a list of records the value has grown by the length of the list |
| `Aggregators.PushAllIgnoresRecords` | src/pivot.js:95 | the outcome depends only on how many records were pushed, not on which |
| `NaturalOrder.Compare` | src/pivot.js:72-76 | the comparator returns -1, 0 or 1 |
| `NaturalOrder.CompareAntisymmetric` | src/pivot.js:72-76 | swapping the arguments negates the comparison |
| `NaturalOrder.LeReflexive` | src/pivot.js:72-76 | every key may precede itself |
| `NaturalOrder.LeTotal` | src/pivot.js:72-76 | of any two keys, one may precede the other |
| `NaturalOrder.LeTransitive` | src/pivot.js:72-76 | the induced order is transitive, so the sort is well defined |
| `NaturalOrder.CompareZeroIffSameTokens` | src/pivot.js:74 | two keys tie exactly when they read as the same digit runs and case-folded characters, NUL separators ignored |
| `NaturalOrder.NumbersCompareByValue` | src/pivot.js:74 | numeric keys compare by numeric value ("2" before "10") |
| `NaturalOrder.TiesOfTheComparator` | src/pivot.js:74 | "a" ties with "A", and "01" ties with "1" |
| `NaturalOrder.SampleKeysAscend` | src/pivot.js:74 | "2" < "10" < "a" < "a2" < "b" |
| `NaturalOrder.SeparatorIgnored` | src/pivot.js:74 | a NUL separator contributes nothing to the comparison |
| `NaturalOrder.JoinedKeysCompareRunTogether` | src/pivot.js:74 | multi-attribute keys compare as if their components were run together: the key of ["ab","c"] sorts before the key of ["a","zz"] |
| `Sorting.SortInPlace` | src/pivot.js:62 | the array ends sorted by the comparator and is a permutation of its old contents |
| `Sorting.ReverseInPlace` | src/pivot.js:67 | the array ends as the reverse of its old contents |
| `Sorting.ReverseOfSorted` | src/pivot.js:67 | reversing an ascending list gives a descending permutation of it |
| `Sorting.SortKeys` | src/pivot.js:60-70 | every policy sorts ascending to a permutation of the input; `value_z_to_a` then yields the reverse of that ascending result |
| `Grouping.ExactlyFourSlots` | src/pivot.js:28-45 | a record reaches exactly its cell, its row margin, its column margin and the grand total |
| `Grouping.Accepted` | src/pivot.js:20-21 | the records the filter passes, in input order, never more than the input; see `Grouping.AcceptedElements` and `Grouping.AcceptedAppend` |
| `Grouping.AcceptedElements` | src/pivot.js:21 | every record processed is accepted by the filter and comes from the input |
| `Grouping.AcceptedAppend` | src/pivot.js:20-21 | one more input record adds itself to the accepted records exactly when the filter accepts it |
| `Grouping.MatchingElements` | src/pivot.js:28-45 | a slot holds only accepted records whose keys lead to it |
| `Grouping.MatchingAppend` | src/pivot.js:28-45 | one more accepted record joins exactly the slots its keys lead to |
| `Grouping.MatchingGrand` | src/pivot.js:45 | the grand total holds every accepted record |
| `Grouping.MatchedRecordIsHeld` | src/pivot.js:28-45 | every accepted record is held by each slot its keys lead to |
| `Grouping.EmptyRowKey` | src/pivot.js:79-84 | with no row attributes the cell ("", c) holds what column margin c holds; otherwise no record has row key "" |
| `Grouping.PermutationKeepsDistinct` | src/pivot.js:50-51 | reordering a duplicate-free key list keeps it duplicate-free |
| `Grouping.Partition` | src/pivot.js:28-45 | a family's member counts sum to the parent's count, over a duplicate-free list covering the parent's records |
| `Pivot.AttrsOr` | src/pivot.js:4-5 | a missing attribute list reads as `[]`, a given one is kept (an array is always truthy) |
| `Pivot.FilterOr` | src/pivot.js:8 | a given filter is kept; a missing one accepts every record |
| `Pivot.OrderOr` | src/pivot.js:10-11 | the ordering policy is never "": a given non-empty policy is kept, anything else reads as `key_a_to_z` |
| `Pivot.Find` | src/pivot.js:80-84 | the aggregator stored under a key, if any; `Pivot.LookupAfterPush` says how a push changes what it finds |
| `Pivot.ValueOr` | src/pivot.js:80-84 | the aggregator found, or a fresh `this.aggregator([])` whose value is 0 |
| `Pivot.Query` | src/pivot.js:78-88 | the four-way dispatch of `getAggregator`, in both directions: both keys non-empty, only the row key, only the column key, neither |
| `Pivot.PushCell` | src/pivot.js:28-34 | afterwards the record's row key is present and no other row key is added |
| `Pivot.PushMargin` | src/pivot.js:36-44 | afterwards the record's key is present in the margin map and no other key is added |
| `Pivot.LookupAfterPush` | src/pivot.js:28-45 | after one push, the four slots the record belongs to hold the old aggregator (or a fresh one) pushed once; every other slot is unchanged |
| `Pivot.SlotCountAfterPush` | src/pivot.js:28-45 | after one push a slot's count goes up by one exactly when the record belongs to it, so it still counts the matching accepted records |
| `Pivot.SlotPresenceAfterPush` | src/pivot.js:28-45 | after one push a slot exists exactly when it is the grand total or an accepted record belongs to it; no slot disappears |
| `Pivot.ConsistentAfterPush` | src/pivot.js:20-46 | one ingestion step keeps the stores consistent with the accepted records; it adds one to exactly the slots the record belongs to and removes no slot |
| `Pivot.ConsistentGrand` | src/pivot.js:45 | in consistent stores the grand total equals the number of accepted records |
| `Pivot.ObjectKeys` | src/pivot.js:51 | `Object.keys` lists every key of the map exactly once |
| `Pivot.SortedKeys` | src/pivot.js:60-70 | sorting keeps the keys distinct and a permutation, descending for `value_z_to_a` and ascending otherwise |
| `Pivot.PivotData.constructor` | src/pivot.js:3-17 | the options are read with their defaults; all input is processed; the invariant holds; the grand total counts the accepted records |
| `Pivot.PivotData.ProcessData` | src/pivot.js:19-48 | the accepted records grow by exactly the input's records the filter accepts, in order, and the invariant is kept |
| `Pivot.PivotData.Ingest` | src/pivot.js:21-46 | a rejected record changes no store; an accepted one adds one to its cell, row margin, column margin and grand total and to no other slot |
| `Pivot.PivotData.GetAggregator` | src/pivot.js:78-88 | returns the stored aggregator of the queried slot, or a fresh one with value 0; its value is the number of accepted records of that slot |
| `Pivot.PivotData.GetRowKeys` | src/pivot.js:50-53 | returns each key of `rowTotals` exactly once, sorted by the row policy |
| `Pivot.PivotData.GetColKeys` | src/pivot.js:55-58 | returns each key of `colTotals` exactly once, sorted by the column policy |
| `Pivot.PivotData.GrandTotalCountsAccepted` | src/pivot.js:45 | `allTotal.value()` is the number of accepted records |
| `Pivot.PivotData.StoredIffSomeRecord` | src/pivot.js:28-44 | a cell or margin exists exactly when some accepted record belongs to it |
| `Pivot.PivotData.RowKeysAreRecordKeys` | src/pivot.js:28-37 | the keys of `rowTotals` are the row keys of the accepted records, and `tree` has the same keys |
| `Pivot.PivotData.ColKeysAreRecordKeys` | src/pivot.js:41-42 | the keys of `colTotals` are the column keys of the accepted records |
| `Pivot.PivotData.MembersAddUp` | src/pivot.js:28-45 | the members of a family sum to the slot it subdivides |
| `Pivot.PivotData.CellsAddUpToRowTotal` | src/pivot.js:28-39 | the cell counts of `tree[r]` sum to `rowTotals[r].value()` |
| `Pivot.PivotData.RowTotalsAddUp` | src/pivot.js:36-45 | the row margins sum to `allTotal.value()` |
| `Pivot.PivotData.ColTotalsAddUp` | src/pivot.js:41-45 | the column margins sum to `allTotal.value()` |
| `Spans.SpanSize` | src/pivot.js:102-128 | its loops compute the span the specification function `Span` defines |
| `Spans.SpanCharacterized` | src/pivot.js:102-128 | -1 exactly when the row repeats the previous row on 0..j; otherwise a run of at least one row inside the table, all agreeing with row i, ended by a disagreeing row or the end |
| `Spans.RunFromCharacterized` | src/pivot.js:115-127 | the counting loop stops at the first row that disagrees with row i, or at the end |
| `Spans.SpansTile` | src/pivot.js:102-128 | at any depth the non-negative spans sum to the number of rows |
| `Spans.SampleSpans` | src/pivot.js:102-128 | spans 2, -1, 1 at depth 0 and 1, 1, 1 at depth 1 for keys [a,x], [a,y], [b,y] |
| `Filters.TrimStartRemovesBlankPrefix` | src/pivot.js:147 | `trim` drops a blank prefix and stops at a character that is not white space |
| `Filters.TrimEndRemovesBlankSuffix` | src/pivot.js:147 | `trim` drops a blank suffix and stops at a character that is not white space |
| `Filters.Trim` | src/pivot.js:147 | `trim()`; it gives "" exactly for an all-white-space string (`Filters.TrimEmptyIffBlank`) |
| `Filters.TrimEmptyIffBlank` | src/pivot.js:147 | a trimmed string is empty exactly when the string is all white space |
| `Filters.KeepKey` | src/pivot.js:147 | a split key is kept exactly when some component is neither "null" nor blank |
| `Filters.HeaderKeys` | src/pivot.js:145-150 | the split keys worth a header, never more than the keys; `Filters.HeaderKeysSound`, `Filters.HeaderKeysComplete`, `Filters.HeaderKeysInOrder` and `Filters.HeaderPositionsExact` pin it down |
| `Filters.HeaderKeysSound` | src/pivot.js:145-147 | every header is the split of a sorted key and has something to show |
| `Filters.HeaderKeysComplete` | src/pivot.js:145-147 | every key whose split has something to show becomes a header |
| `Filters.HeaderKeysInOrder` | src/pivot.js:145-150 | the headers are the splits of the sorted keys at strictly increasing positions, so `spanSize` sees them in the sorted order |
| `Filters.HeaderPositionsExact` | src/pivot.js:145-150 | those positions are exactly the keys whose split has something to show |
| `Filters.AllFalsyKeyDropped` | src/pivot.js:147 | a key whose grouping values are all falsy is dropped |
| `Filters.VisibleValueKeepsKey` | src/pivot.js:147 | a key with a string component that is neither "null" nor blank is kept |
| `Filters.BlankValueIsGroupedButHidden` | src/pivot.js:147 | a white-space value forms its own group, yet its key is dropped |
| `Filters.EmptyAttributeListHasNoHeaders` | src/pivot.js:147 | with no attributes the only key, "", is dropped |
| `Filters.NullComponentStillShown` | src/pivot.js:147 | a key with one visible component is kept with its "null" component: a record missing `x` with `y` = "x" gives the labels "null" and "x" |
| `Filters.Admits` | src/pivot.js:643-645 | a record passes when every filtered attribute holds an allowed value; a missing attribute reads as `undefined` |
| `Filters.Includes` | src/pivot.js:645 | `includes` finds a value exactly when it is in the list |
| `Filters.FilterRecords` | src/pivot.js:642 | the filtered input is no longer than the input |
| `Filters.FilterRecordsCounts` | src/pivot.js:642-647 | each admitted record is kept as often as it occurs in the input, and no other record is kept |
| `Filters.FilterRecordsInOrder` | src/pivot.js:642-647 | the kept records are the input's records at strictly increasing positions |
| `Filters.NoFiltersKeepAll` | src/pivot.js:643 | with no filters every record is kept, in order |
| `Filters.EmptyAllowListKeepsNothing` | src/pivot.js:644-645 | an attribute with an empty allowed list rejects every record |
| `Filters.NumberDoesNotMatchItsString` | src/pivot.js:645 | matching is strict: the number 5 does not pass a filter allowing "5" |

## Left out

- The DOM construction of `pivotTableRenderer` and all of `pivotUI`: elements, drag and drop, filter boxes and positioning. Only `spanSize` and the two filters there are logic, and they are modelled.
- The second copy of `spanSize` at src/pivot.js:176-202 is identical to the first and is not modelled separately.
- `localeCompare` with ICU collation is a foreign library call. `NaturalOrder.Compare` is a simplified stand-in for the root collation: it compares maximal digit runs by numeric value and other characters after ASCII case folding, with digits before other characters, and ignores the NUL separator entirely (NUL still ends a digit run, since it is not a digit). Other completely ignorable characters, non-ASCII decimal digits (read by ICU as numbers, by the model as ordinary characters), the weights of white space, punctuation and symbols (ICU puts them before digits, so "a 1" sorts before "a1"; the model puts every non-digit character after digits), accents, Unicode case folding and locale tailorings are not modelled.
- `Array.prototype.sort` is given no stability or algorithm. The model sorts with an insertion sort and specifies only the result's order and contents, so keys that tie under the comparator may end in either relative order. The order of `Object.keys` is left open; `Pivot.ObjectKeys` only promises each key once.
- Numbers are integers. Floating point, `NaN`, `-0` and their printing are not modelled; so SameValueZero in `includes` is plain equality.
- Serialised keys that name a property inherited from `Object.prototype` are not modelled. Such a key comes from a record value such as `"toString"`, `"constructor"`, `"valueOf"`, `"hasOwnProperty"` or `"__proto__"`. In the source, for such a row key, `this.tree[k]` and `this.rowTotals[k]` already find a truthy inherited value, so lines 28 and 36 create nothing. Line 32 then writes into that inherited object (for `"__proto__"`, into `Object.prototype` itself), and the `.push` at line 39 throws a TypeError. For such a column key, `{}[k]` at line 31 finds the inherited value, line 32 creates nothing, and the `.push` at line 34 throws. The model starts every map empty and ingests such a record like any other.
- Values.Get: a missing attribute always reads as `undefined`. In the source, `record[attr]` at lines 22-23 finds an inherited `Object.prototype` member when the attribute is named `"constructor"`, `"toString"`, `"valueOf"` and so on. That function is truthy, so the key component is its source text (such as `"function Object() { [native code] }"`) rather than `"null"`. The model has no prototype chain.
- Filters.Admits: for the same reason, a filtered attribute named after an `Object.prototype` member that the record lacks reads the inherited function at line 645 in the source, not `undefined`. In the model it reads as `undefined`.
- `vals` and `sorters` are stored by the constructor but never read by the core. They are not modelled.
- Aggregators are modelled as values. The store keeps the aggregator and a push replaces it with its successor, so the in-place mutation of a shared aggregator object is not captured. `getAggregator` in the source returns the live object, which a caller could push into; the model returns a copy.
- Only the count aggregator exists in the code; sum, average and other aggregators, and `format` beyond the identity, are not modelled.
- Pivot.PivotData.constructor: requires an aggregator factory. Calling the source without one throws at line 15; the model does not represent the exception.
- The renderer's row and column label loops that call `spanSize` are DOM code and are not modelled; `Spans.SpansTile` states the property those loops rely on.
