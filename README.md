# Queried-data cache of Gutenberg's core-data store, in Dafny

This project models the "queried data" part of the `core-data` package.
The cache keeps a normalized store of items keyed by id. For every query,
minus its pagination, it also keeps the ordered list of ids that query
returned. Pages fetched one at a time are merged into that list, which may
have holes for pages not fetched yet.

The behaviour modelled is the one the package's test suite,
`packages/core-data/src/queried-data/test/reducer.js`, asserts of the
reducer and of `getMergedItemIds`. The model has these parts.

- `merged_ids.dfy`, module `MergedIds`: `getMergedItemIds` as `Merge`. A
  list slot is `Option<Id>`, and `None` is a hole. With a positive page
  size, the ids of page `page` overwrite positions
  `[(page-1)*perPage, (page-1)*perPage + |incoming|)`. The list is padded
  with holes if it is shorter, and every other slot is kept. With the page
  size `AllPages` (-1), the result is a copy of the incoming ids.
- `queried_data.dfy`, module `QueriedData`: the reducer as `Reduce`. The
  state is `{items, queries}`. `ReceiveItems` upserts the items by id and,
  when a query is given, merges their ids into the list under the query's
  key. `RemoveItems` deletes the ids from the store and filters them out of
  every query list, which closes up. A missing state (`None`) stands for
  `undefined` and is replaced by the default state `{items: {}, queries: {}}`;
  an unrecognised action leaves a state as it is.
- `scenarios.dfy`, module `Scenarios`: each concrete case of the suite,
  stated over the model.
- `wrappers.dfy`: the `Option` datatype.

Every operation is a function from values to values. The suite freezes its
inputs and expects new arrays and objects, and Dafny values cannot be
mutated, so "no input is mutated" holds by construction.

The query-string serializer that turns a query into its key is not part of
this model. `Reduce` takes it as a parameter, `stableKey`, applied to the
query's filters only. A `Query` carries `page` and `perPage` apart from its
filters, so two queries that differ only in pagination share a key. The
suite's one example of the serializer, `{s: 'a', page: 1, per_page: 3}`
keyed as `'s=a'`, is a precondition of `Scenarios.ReceiveQueriedPage`.

## Model

| member | source | states |
|---|---|---|
| MergedIds.Merge | packages/core-data/src/queried-data/test/reducer.js:12-66 | full-replace mode yields exactly the incoming ids; otherwise the length is max(old length, page start + page length), the page's range holds the incoming ids in order, other positions keep their old slot, and positions past the old end outside the page are holes |
| MergedIds.MergeWritesPage | packages/core-data/src/queried-data/test/reducer.js:40-45 | the slice of the result at the page's range is exactly the incoming ids |
| MergedIds.MergeKeepsOutside | packages/core-data/src/queried-data/test/reducer.js:26-37 | every old position outside the page's range keeps its slot, holes included, and the list never shrinks |
| MergedIds.MergeGapIsHole | packages/core-data/src/queried-data/test/reducer.js:13-23 | positions between the old end and the page's start become holes |
| MergedIds.MergeAllReplaces | packages/core-data/src/queried-data/test/reducer.js:54-66 | in full-replace mode the result is the incoming ids, whatever the old list and the page number |
| MergedIds.MergeIdempotent | packages/core-data/src/queried-data/test/reducer.js:40-45 | merging the same page twice gives the list of merging it once |
| MergedIds.MergeLastWriteWins | packages/core-data/src/queried-data/test/reducer.js:40-45 | re-fetching a page with content at least as long leaves no trace of its earlier content |
| MergedIds.MergePagesCommute | packages/core-data/src/queried-data/test/reducer.js:13-37 | two distinct pages of at most perPage ids assemble the same list in either order of arrival |
| MergedIds.MergeAtCommute | packages/core-data/src/queried-data/test/reducer.js:13-37 | writes of ids to disjoint ranges of a list give the same list in either order |
| MergedIds.MergeNextPageAppends | packages/core-data/src/queried-data/test/reducer.js:47-52 | when the list holds exactly the earlier pages, the next page is appended, and a hole-free list stays hole-free |
| QueriedData.Upsert | packages/core-data/src/queried-data/test/reducer.js:84-92 | the store's ids become the old ids plus the batch's; each batch id holds the batch's last item with that id; every other item is unchanged |
| QueriedData.Compact | packages/core-data/src/queried-data/test/reducer.js:133-145 | a filtered list is no longer than before and holds no removed id; KeptIndices and KeptIndicesExact complete this to the order-preserving filter that keeps exactly the slots not holding a removed id |
| QueriedData.KeptIndices | packages/core-data/src/queried-data/test/reducer.js:133-145 | the filtered list is the old list's slots at strictly increasing positions, so relative order is kept |
| QueriedData.KeptIndicesExact | packages/core-data/src/queried-data/test/reducer.js:133-145 | a position survives filtering if and only if its slot is not a removed id (holes survive) |
| QueriedData.ReceiveQuery | packages/core-data/src/queried-data/test/reducer.js:84-97 | without a query the lists are unchanged; with one, only the key of its filters is added or changed, a new key gets the merge of the ids into an empty list, and every other list is kept (ReceiveItemsIndexes gives the merged list for an existing key) |
| QueriedData.RemoveFromQueries | packages/core-data/src/queried-data/test/reducer.js:133-145 | every query key stays, no list grows, and no list holds a removed id (RemoveItemsEffect: each list is its compaction) |
| QueriedData.Reduce | packages/core-data/src/queried-data/test/reducer.js:69-146 | an unrecognised action returns the current state (the default one when undefined); receiving adds the batch's ids to the store and, without a query, keeps the lists; removing takes the ids out of the store and keeps every query key. The full contract is carried by ReduceDefault, ReceiveItemsStores, ReceiveItemsIndexes, RemoveItemsEffect and ReducePreservesConsistent |
| QueriedData.ReduceDefault | packages/core-data/src/queried-data/test/reducer.js:70-77 | an undefined state under an unrecognised action gives the default state {items: {}, queries: {}}; an unrecognised action leaves any other state as it is |
| QueriedData.ReceiveItemsStores | packages/core-data/src/queried-data/test/reducer.js:79-116 | receiving items adds exactly the batch's ids to the store, each holding its last item, and keeps every other item |
| QueriedData.ReceiveItemsIndexes | packages/core-data/src/queried-data/test/reducer.js:79-116 | with a query, only the list under the key of the query's filters changes, to the merge of the batch's ids as that page; without one, no list changes |
| QueriedData.RemoveItemsEffect | packages/core-data/src/queried-data/test/reducer.js:118-146 | removed ids leave the store and every query list; other items stay; no query key disappears; each list becomes its compaction |
| QueriedData.UpsertIdempotent | packages/core-data/src/queried-data/test/reducer.js:84-92 | upserting the same batch twice gives the store of upserting it once |
| QueriedData.CompactIdempotent | packages/core-data/src/queried-data/test/reducer.js:133-145 | filtering the same ids twice gives the list of filtering once |
| QueriedData.ReceiveIdempotent | packages/core-data/src/queried-data/test/reducer.js:84-97 | applying the same receive action twice gives the state of applying it once |
| QueriedData.RemoveIdempotent | packages/core-data/src/queried-data/test/reducer.js:133-145 | applying the same removal twice gives the state of applying it once |
| QueriedData.ReceivePreservesConsistent | packages/core-data/src/queried-data/test/reducer.js:79-116 | receiving items keeps each item under its own id and indexes only ids that are stored |
| QueriedData.RemovePreservesConsistent | packages/core-data/src/queried-data/test/reducer.js:118-146 | a removal takes out of every list each id it takes out of the store |
| QueriedData.ReducePreservesConsistent | packages/core-data/src/queried-data/test/reducer.js:69-146 | from the default state, every action keeps each item under its own id and every indexed id present in the store |
| Scenarios.ReceivePageIntoEmpty | packages/core-data/src/queried-data/test/reducer.js:13-24 | page 2 of size 3 into [] gives three holes then 4, 5, 6 |
| Scenarios.MergeIntoExisting | packages/core-data/src/queried-data/test/reducer.js:26-38 | page 1 fills the three leading holes of [_, _, _, 4, 5, 6] |
| Scenarios.ReplaceWithNewPage | packages/core-data/src/queried-data/test/reducer.js:40-45 | re-fetching page 2 as ['replaced', 5, 6] overwrites positions 3 to 5 |
| Scenarios.AppendPartialPage | packages/core-data/src/queried-data/test/reducer.js:47-52 | page 3 holding only 7 extends [1..6] to length 7 |
| Scenarios.ReceiveAllIds | packages/core-data/src/queried-data/test/reducer.js:54-66 | with perPage -1 and old list [1, 2, 3] the result is [1, 3], and [1, 3, 4] |
| Scenarios.DefaultValue | packages/core-data/src/queried-data/test/reducer.js:70-77 | the reducer's default value is {items: {}, queries: {}} |
| Scenarios.ReceiveQueriedPage | packages/core-data/src/queried-data/test/reducer.js:79-98 | item 1 is stored and its id indexed as ['s=a'] = [1] |
| Scenarios.ReceiveUnqueriedPage | packages/core-data/src/queried-data/test/reducer.js:100-116 | item 1 is stored and no query list is created |
| Scenarios.DeleteItem | packages/core-data/src/queried-data/test/reducer.js:118-146 | deleting 3 drops it from the store and turns [1, 2, 3, 4] into [1, 2, 4] and [1, 3] into [1] |

## Left out

- The reducer's implementation file (`../reducer`) and the `removeItems` action creator are not part of this model; the behaviour is taken from what the suite asserts about them.
- The query-string serializer is a parameter of `Reduce`, constrained only by the `'s=a'` example; its canonical ordering and escaping are not modelled.
- Default values of `page` and `per_page` when a query omits them are not modelled: a `Query` always carries both.
- `page < 1`, a page size of 0 and page sizes below -1 are excluded by `ValidPagination`; the suite covers none of them.
- In full-replace mode (`perPage == -1`) the result ignores the page number. The titles of the suite's two full-replace cases (reducer.js:54 and :61) name `page=1 and perPage=-1` as the condition, so the implementation may require page 1 as well; with another page the model's answer is not confirmed by the source.
- The `kind` and `name` arguments of the removal action are routing fields and are dropped; `RemoveItems` carries only the ids.
- Entities always carry an id (it is a field of `Entity`), so an item without one is not modelled.
- Entity payloads are opaque and stored as received; a field-by-field merge of an item with its earlier version is not modelled.
- Ids are generic values compared by equality; the coercion of numeric ids to object keys in JavaScript is not modelled.
