/**
 * The queried-data reducer of the core-data cache: a normalized store of
 * items keyed by id, and for each query (minus its pagination) the ordered,
 * possibly sparse list of the ids it returned.
 */
module QueriedData {
  import opened Wrappers
  import opened MergedIds

  /** A received item: its id and an opaque payload stored verbatim. */
  datatype Entity<Id, P> = Entity(id: Id, fields: P)

  /** A query as the reducer sees it: its filter parameters, and its pagination apart. */
  datatype Query = Query(filters: map<string, string>, page: int, perPage: int)

  datatype Action<Id, P> =
    | ReceiveItems(query: Option<Query>, items: seq<Entity<Id, P>>)
    | RemoveItems(itemIds: seq<Id>)
    | Unrecognized

  /** The state snapshot: items by id, and id lists by query key. */
  datatype State<Id, P> = State(items: map<Id, Entity<Id, P>>, queries: map<string, seq<Slot<Id>>>)

  /** The state before any action: no items and no queries. */
  function Default<Id(==), P>(): State<Id, P> {
    State(map[], map[])
  }

  /** A received query names a page from 1 on and a positive page size or `AllPages`. */
  predicate WellFormed<Id(==), P>(action: Action<Id, P>) {
    action.ReceiveItems? && action.query.Some? ==> ValidPagination(action.query.value.page, action.query.value.perPage)
  }

  /** The set of ids of a batch of items. */
  function IdSet<Id(==), P>(items: seq<Entity<Id, P>>): set<Id> {
    set i | 0 <= i < |items| :: items[i].id
  }

  /** The ids of a batch of items, in order. */
  function IdsOf<Id(==), P>(items: seq<Entity<Id, P>>): (r: seq<Id>)
    ensures |r| == |items|
    ensures forall i :: 0 <= i < |items| ==> r[i] == items[i].id
  {
    if items == [] then [] else [items[0].id] + IdsOf(items[1..])
  }

  /** `items[i]` is the last item of the batch that carries its id. */
  predicate IsLast<Id(==), P>(items: seq<Entity<Id, P>>, i: int)
    requires 0 <= i < |items|
  {
    forall j :: i < j < |items| ==> items[j].id != items[i].id
  }

  /**
   * Upserting a batch into the item store: every id of the batch ends up
   * holding the batch's last item with that id; every other stored item is
   * left as it was.
   */
  function Upsert<Id(==), P>(store: map<Id, Entity<Id, P>>, items: seq<Entity<Id, P>>): (r: map<Id, Entity<Id, P>>)
    ensures r.Keys == store.Keys + IdSet(items)
    ensures forall i :: 0 <= i < |items| && IsLast(items, i) ==> r[items[i].id] == items[i]
    ensures forall id :: id in store && id !in IdSet(items) ==> r[id] == store[id]
    decreases |items|
  {
    if items == [] then store
    else
      var r := Upsert(store[items[0].id := items[0]], items[1..]);
      UpsertStep(store, items, r);
      r
  }

  /** Upserting the first item and then the rest of the batch upserts the whole batch. */
  lemma UpsertStep<Id, P>(store: map<Id, Entity<Id, P>>, items: seq<Entity<Id, P>>, r: map<Id, Entity<Id, P>>)
    requires items != []
    requires var first := store[items[0].id := items[0]];
      && r.Keys == first.Keys + IdSet(items[1..])
      && (forall i :: 0 <= i < |items[1..]| && IsLast(items[1..], i) ==> r[items[1..][i].id] == items[1..][i])
      && (forall id :: id in first && id !in IdSet(items[1..]) ==> r[id] == first[id])
    ensures r.Keys == store.Keys + IdSet(items)
    ensures forall i :: 0 <= i < |items| && IsLast(items, i) ==> r[items[i].id] == items[i]
    ensures forall id :: id in store && id !in IdSet(items) ==> r[id] == store[id]
  {
    var rest := items[1..];
    assert IdSet(items) == {items[0].id} + IdSet(rest) by {
      forall id | id in IdSet(items) ensures id == items[0].id || id in IdSet(rest) {
        var i :| 0 <= i < |items| && items[i].id == id;
        if i > 0 { assert rest[i - 1].id == id; }
      }
      forall id | id in IdSet(rest) ensures id in IdSet(items) {
        var i :| 0 <= i < |rest| && rest[i].id == id;
        assert items[i + 1].id == id;
      }
    }
    forall i | 0 <= i < |items| && IsLast(items, i)
      ensures r[items[i].id] == items[i]
    {
      if i > 0 {
        assert rest[i - 1] == items[i];
        assert IsLast(rest, i - 1) by {
          forall j | i - 1 < j < |rest| ensures rest[j].id != rest[i - 1].id {
            assert rest[j] == items[j + 1];
          }
        }
      }
    }
  }

  /** A slot holds one of the removed ids. */
  predicate IsRemoved<Id(==)>(slot: Slot<Id>, removed: set<Id>) {
    slot.Some? && slot.value in removed
  }

  /**
   * Filtering removed ids out of a query's list: the list closes up, and
   * holes are kept.
   */
  function Compact<Id(==)>(slots: seq<Slot<Id>>, removed: set<Id>): (r: seq<Slot<Id>>)
    ensures |r| <= |slots|
    ensures forall j :: 0 <= j < |r| ==> !IsRemoved(r[j], removed)
  {
    if slots == [] then []
    else if IsRemoved(slots[0], removed) then Compact(slots[1..], removed)
    else [slots[0]] + Compact(slots[1..], removed)
  }

  function Shift(idx: seq<nat>): (r: seq<nat>)
    ensures |r| == |idx|
    ensures forall j :: 0 <= j < |idx| ==> r[j] == idx[j] + 1
  {
    if idx == [] then [] else [idx[0] + 1] + Shift(idx[1..])
  }

  /** Positions listed in strictly increasing order. */
  predicate Increasing(idx: seq<nat>) {
    forall j, k :: 0 <= j < k < |idx| ==> idx[j] < idx[k]
  }

  /**
   * The positions of `slots` that survive `Compact`, in increasing order:
   * the compacted list is the slots at these positions, in this order.
   */
  ghost function KeptIndices<Id>(slots: seq<Slot<Id>>, removed: set<Id>): (idx: seq<nat>)
    ensures |idx| == |Compact(slots, removed)|
    ensures forall j :: 0 <= j < |idx| ==> idx[j] < |slots| && Compact(slots, removed)[j] == slots[idx[j]]
    ensures Increasing(idx)
  {
    if slots == [] then []
    else
      var tail := KeptIndices(slots[1..], removed);
      ShiftedIndices(slots, tail, Compact(slots[1..], removed));
      if IsRemoved(slots[0], removed) then Shift(tail)
      else [0] + Shift(tail)
  }

  /** Positions into `slots[1..]` shifted by one are the same slots' positions in `slots`. */
  lemma ShiftedIndices<Id>(slots: seq<Slot<Id>>, tail: seq<nat>, kept: seq<Slot<Id>>)
    requires |slots| > 0 && |tail| == |kept| && Increasing(tail)
    requires forall j :: 0 <= j < |tail| ==> tail[j] < |slots| - 1 && kept[j] == slots[1..][tail[j]]
    ensures forall j :: 0 <= j < |tail| ==> Shift(tail)[j] < |slots| && kept[j] == slots[Shift(tail)[j]]
    ensures Increasing(Shift(tail)) && Increasing([0] + Shift(tail))
  {
    var rest := Shift(tail);
    forall j | 0 <= j < |tail|
      ensures rest[j] < |slots| && kept[j] == slots[rest[j]]
    {
      assert rest[j] == tail[j] + 1;
      assert slots[1..][tail[j]] == slots[tail[j] + 1];
    }
    ShiftIncreasing(tail);
  }

  /** Shifting keeps positions increasing, and leaves room for position 0 in front. */
  lemma ShiftIncreasing(tail: seq<nat>)
    requires Increasing(tail)
    ensures Increasing(Shift(tail)) && Increasing([0] + Shift(tail))
  {
    var rest := Shift(tail);
    var withZero := [0] + rest;
    forall j, k | 0 <= j < k < |withZero|
      ensures withZero[j] < withZero[k]
    {
      assert withZero[k] == tail[k - 1] + 1;
      if j > 0 {
        assert withZero[j] == tail[j - 1] + 1;
      }
    }
  }

  /**
   * Compaction drops exactly the removed ids: a position's slot is kept if
   * and only if it does not hold a removed id.
   */
  lemma {:induction false} KeptIndicesExact<Id>(slots: seq<Slot<Id>>, removed: set<Id>, i: int)
    requires 0 <= i < |slots|
    ensures i in KeptIndices(slots, removed) <==> !IsRemoved(slots[i], removed)
  {
    var tail := KeptIndices(slots[1..], removed);
    var idx := KeptIndices(slots, removed);
    ShiftMembership(tail, i);
    if IsRemoved(slots[0], removed) {
      assert idx == Shift(tail);
    } else {
      assert idx == [0] + Shift(tail);
      assert i in idx <==> i == 0 || i in Shift(tail);
    }
    if i > 0 {
      KeptIndicesExact(slots[1..], removed, i - 1);
      assert slots[1..][i - 1] == slots[i];
    }
  }

  /** `i` is among the shifted positions exactly when `i - 1` was among the original ones. */
  lemma ShiftMembership(idx: seq<nat>, i: int)
    ensures i in Shift(idx) <==> i >= 1 && i - 1 in idx
  {
    var shifted := Shift(idx);
    if i in shifted {
      var j :| 0 <= j < |shifted| && shifted[j] == i;
      assert idx[j] == i - 1;
    }
    if i >= 1 && i - 1 in idx {
      var j :| 0 <= j < |idx| && idx[j] == i - 1;
      assert shifted[j] == i;
    }
  }

  /**
   * The query lists after receiving `ids`: unchanged without a query;
   * otherwise the ids are merged as the query's page into the list under
   * the key of its filters, created empty when the query is new.
   */
  function ReceiveQuery<Id>(queries: map<string, seq<Slot<Id>>>, query: Option<Query>, ids: seq<Id>, stableKey: map<string, string> -> string): (r: map<string, seq<Slot<Id>>>)
    requires query.Some? ==> ValidPagination(query.value.page, query.value.perPage)
    ensures query.None? ==> r == queries
    ensures query.Some? ==>
      var key := stableKey(query.value.filters);
      && r.Keys == queries.Keys + {key}
      && (key !in queries ==> r[key] == Merge([], ids, query.value.page, query.value.perPage))
      && (forall other :: other in queries && other != key ==> r[other] == queries[other])
  {
    if query.None? then queries
    else
      var key := stableKey(query.value.filters);
      queries[key := Merge(if key in queries then queries[key] else [], ids, query.value.page, query.value.perPage)]
  }

  /** The state an action applies to: the default one before the first action. */
  function Current<Id, P>(state: Option<State<Id, P>>): State<Id, P> {
    if state.Some? then state.value else Default()
  }

  /** The removal action's ids as a set. */
  function RemovedSet<Id(==)>(itemIds: seq<Id>): set<Id> {
    set id | id in itemIds
  }

  /** Filtering the removed ids out of the list of every query. */
  function RemoveFromQueries<Id(==)>(queries: map<string, seq<Slot<Id>>>, removed: set<Id>): (r: map<string, seq<Slot<Id>>>)
    ensures r.Keys == queries.Keys
    ensures forall key :: key in queries ==> |r[key]| <= |queries[key]|
    ensures forall key, j :: key in r && 0 <= j < |r[key]| ==> !IsRemoved(r[key][j], removed)
  {
    map key | key in queries :: Compact(queries[key], removed)
  }

  /**
   * The reducer. `state` is `None` before the first action; `stableKey` is
   * the query-string serializer that turns a query's filters into its key.
   */
  function Reduce<Id(==), P>(state: Option<State<Id, P>>, action: Action<Id, P>, stableKey: map<string, string> -> string): (r: State<Id, P>)
    requires WellFormed(action)
    ensures action.Unrecognized? ==> r == Current(state)
    ensures action.ReceiveItems? ==> r.items.Keys == Current(state).items.Keys + IdSet(action.items)
    ensures action.ReceiveItems? && action.query.None? ==> r.queries == Current(state).queries
    ensures action.RemoveItems? ==>
      && r.items.Keys == Current(state).items.Keys - RemovedSet(action.itemIds)
      && r.queries.Keys == Current(state).queries.Keys
  {
    var s := Current(state);
    match action
    case ReceiveItems(query, items) =>
      State(Upsert(s.items, items), ReceiveQuery(s.queries, query, IdsOf(items), stableKey))
    case RemoveItems(itemIds) =>
      State(s.items - RemovedSet(itemIds), RemoveFromQueries(s.queries, RemovedSet(itemIds)))
    case Unrecognized => s
  }

  /** Before the first action the reducer yields the default state; an action it does not recognise leaves a state as it is. */
  lemma ReduceDefault<Id, P>(s: State<Id, P>, stableKey: map<string, string> -> string)
    ensures Reduce<Id, P>(None, Unrecognized, stableKey) == Default()
    ensures Reduce(Some(s), Unrecognized, stableKey) == s
  {
  }

  /**
   * Receiving items stores each under its id (the batch's last item for an
   * id wins) and leaves every other item alone, with or without a query.
   */
  lemma ReceiveItemsStores<Id, P>(s: State<Id, P>, query: Option<Query>, items: seq<Entity<Id, P>>, stableKey: map<string, string> -> string)
    requires WellFormed(ReceiveItems(query, items))
    ensures var r := Reduce(Some(s), ReceiveItems(query, items), stableKey);
      && r.items.Keys == s.items.Keys + IdSet(items)
      && (forall i :: 0 <= i < |items| && IsLast(items, i) ==> r.items[items[i].id] == items[i])
      && (forall id :: id in s.items && id !in IdSet(items) ==> r.items[id] == s.items[id])
  {
    var r := Reduce(Some(s), ReceiveItems(query, items), stableKey);
    assert r.items == Upsert(s.items, items);
  }

  /**
   * Receiving items with a query changes only the list under the key of the
   * query's filters (pagination plays no part in the key), by merging the
   * batch's ids as that page; without a query the lists are untouched.
   */
  lemma ReceiveItemsIndexes<Id, P>(s: State<Id, P>, query: Option<Query>, items: seq<Entity<Id, P>>, stableKey: map<string, string> -> string)
    requires WellFormed(ReceiveItems(query, items))
    ensures var r := Reduce(Some(s), ReceiveItems(query, items), stableKey);
      && (query.None? ==> r.queries == s.queries)
      && (query.Some? ==>
            var key := stableKey(query.value.filters);
            && r.queries.Keys == s.queries.Keys + {key}
            && r.queries[key] == Merge(if key in s.queries then s.queries[key] else [], IdsOf(items), query.value.page, query.value.perPage)
            && forall other :: other in s.queries && other != key ==> r.queries[other] == s.queries[other])
  {
    var r := Reduce(Some(s), ReceiveItems(query, items), stableKey);
    if query.Some? {
      var key := stableKey(query.value.filters);
    }
  }

  /**
   * Removing ids deletes them from the item store and from every query's
   * list; every other item stays, no query key disappears, and each list is
   * its compaction (the surviving slots in their old order, see KeptIndices).
   */
  lemma RemoveItemsEffect<Id, P>(s: State<Id, P>, itemIds: seq<Id>, stableKey: map<string, string> -> string)
    ensures var r := Reduce(Some(s), RemoveItems(itemIds), stableKey);
      && (forall id :: id in itemIds ==> id !in r.items)
      && (forall id :: id in itemIds ==> forall key, j :: key in r.queries && 0 <= j < |r.queries[key]| ==> r.queries[key][j] != Some(id))
      && r.items.Keys == s.items.Keys - RemovedSet(itemIds)
      && (forall id :: id in r.items ==> r.items[id] == s.items[id])
      && r.queries.Keys == s.queries.Keys
      && (forall key :: key in s.queries ==> r.queries[key] == Compact(s.queries[key], RemovedSet(itemIds)))
  {
    var r := Reduce(Some(s), RemoveItems(itemIds), stableKey);
    forall id, key, j | id in itemIds && key in r.queries && 0 <= j < |r.queries[key]|
      ensures r.queries[key][j] != Some(id)
    {
      assert !IsRemoved(r.queries[key][j], RemovedSet(itemIds));
    }
  }

  /** Every id of a batch has a last item carrying it. */
  lemma {:induction false} LastExists<Id, P>(items: seq<Entity<Id, P>>, id: Id)
    requires id in IdSet(items)
    ensures exists i :: 0 <= i < |items| && items[i].id == id && IsLast(items, i)
  {
    var n := |items| - 1;
    if items[n].id == id {
      assert IsLast(items, n);
    } else {
      var prefix := items[..n];
      var k :| 0 <= k < |items| && items[k].id == id;
      assert prefix[k].id == id;
      LastExists(prefix, id);
      var i :| 0 <= i < |prefix| && prefix[i].id == id && IsLast(prefix, i);
      assert items[i].id == id && IsLast(items, i);
    }
  }

  /** Upserting the same batch twice leaves the store as upserting it once. */
  lemma UpsertIdempotent<Id, P>(store: map<Id, Entity<Id, P>>, items: seq<Entity<Id, P>>)
    ensures Upsert(Upsert(store, items), items) == Upsert(store, items)
  {
    var once := Upsert(store, items);
    var twice := Upsert(once, items);
    assert twice.Keys == once.Keys;
    forall id | id in once
      ensures twice[id] == once[id]
    {
      if id in IdSet(items) {
        LastExists(items, id);
      }
    }
  }

  /** Compacting an already compacted list changes nothing. */
  lemma {:induction false} CompactIdempotent<Id>(slots: seq<Slot<Id>>, removed: set<Id>)
    ensures Compact(Compact(slots, removed), removed) == Compact(slots, removed)
  {
    if slots != [] {
      CompactIdempotent(slots[1..], removed);
    }
  }

  /** Receiving the same ids for the same query twice leaves the lists as receiving them once. */
  lemma ReceiveQueryIdempotent<Id>(queries: map<string, seq<Slot<Id>>>, query: Option<Query>, ids: seq<Id>, stableKey: map<string, string> -> string)
    requires query.Some? ==> ValidPagination(query.value.page, query.value.perPage)
    ensures var once := ReceiveQuery(queries, query, ids, stableKey);
      ReceiveQuery(once, query, ids, stableKey) == once
  {
    if query.Some? {
      var key := stableKey(query.value.filters);
      MergeIdempotent(if key in queries then queries[key] else [], ids, query.value.page, query.value.perPage);
    }
  }

  /** Applying the same item-receiving action twice yields the state of applying it once. */
  lemma ReceiveIdempotent<Id, P>(s: State<Id, P>, query: Option<Query>, items: seq<Entity<Id, P>>, stableKey: map<string, string> -> string)
    requires WellFormed(ReceiveItems(query, items))
    ensures var once := Reduce(Some(s), ReceiveItems(query, items), stableKey);
      Reduce(Some(once), ReceiveItems(query, items), stableKey) == once
  {
    UpsertIdempotent(s.items, items);
    ReceiveQueryIdempotent(s.queries, query, IdsOf(items), stableKey);
  }

  /** Applying the same removal twice yields the state of applying it once. */
  lemma RemoveIdempotent<Id, P>(s: State<Id, P>, itemIds: seq<Id>, stableKey: map<string, string> -> string)
    ensures var once := Reduce(Some(s), RemoveItems(itemIds), stableKey);
      Reduce(Some(once), RemoveItems(itemIds), stableKey) == once
  {
    var once := Reduce(Some(s), RemoveItems(itemIds), stableKey);
    var twice := Reduce(Some(once), RemoveItems(itemIds), stableKey);
    forall key | key in once.queries
      ensures twice.queries[key] == once.queries[key]
    {
      CompactIdempotent(s.queries[key], RemovedSet(itemIds));
    }
  }

  /**
   * The cache's consistency: each item is stored under its own id, and
   * every id in a query's list names a stored item.
   */
  ghost predicate Consistent<Id, P>(s: State<Id, P>) {
    && (forall id :: id in s.items ==> s.items[id].id == id)
    && (forall key, j :: key in s.queries && 0 <= j < |s.queries[key]| && s.queries[key][j].Some? ==>
          s.queries[key][j].value in s.items)
  }

  /** Every id in `slots` belongs to `stored`. */
  ghost predicate AllStored<Id>(slots: seq<Slot<Id>>, stored: set<Id>) {
    forall j :: 0 <= j < |slots| && slots[j].Some? ==> slots[j].value in stored
  }

  /** A merge brings in no id beyond those of the old list and of the page. */
  lemma MergeKeepsStored<Id>(existing: seq<Slot<Id>>, incoming: seq<Id>, page: int, perPage: int, stored: set<Id>)
    requires ValidPagination(page, perPage)
    requires AllStored(existing, stored)
    requires forall k :: 0 <= k < |incoming| ==> incoming[k] in stored
    ensures AllStored(Merge(existing, incoming, page, perPage), stored)
  {
    var r := Merge(existing, incoming, page, perPage);
    forall j | 0 <= j < |r| && r[j].Some?
      ensures r[j].value in stored
    {
      if perPage != AllPages {
        assert r[j] == MergedSlot(existing, incoming, PageStart(page, perPage), j);
      }
    }
  }

  /** Receiving items keeps the cache consistent: the received ids are all stored. */
  lemma ReceivePreservesConsistent<Id, P>(s: State<Id, P>, query: Option<Query>, items: seq<Entity<Id, P>>, stableKey: map<string, string> -> string)
    requires WellFormed(ReceiveItems(query, items))
    requires Consistent(s)
    ensures Consistent(Reduce(Some(s), ReceiveItems(query, items), stableKey))
  {
    var r := Reduce(Some(s), ReceiveItems(query, items), stableKey);
    forall id | id in r.items
      ensures r.items[id].id == id
    {
      if id in IdSet(items) {
        LastExists(items, id);
      }
    }
    if query.Some? {
      var q := query.value;
      var key := stableKey(q.filters);
      var existing := if key in s.queries then s.queries[key] else [];
      var ids := IdsOf(items);
      assert forall k :: 0 <= k < |ids| ==> ids[k] in r.items by {
        forall k | 0 <= k < |ids| ensures ids[k] in r.items {
          assert ids[k] == items[k].id;
        }
      }
      MergeKeepsStored(existing, ids, q.page, q.perPage, r.items.Keys);
      assert r.queries == s.queries[key := Merge(existing, ids, q.page, q.perPage)];
      forall other, j | other in r.queries && 0 <= j < |r.queries[other]| && r.queries[other][j].Some?
        ensures r.queries[other][j].value in r.items
      {
        if other == key {
          assert AllStored(r.queries[key], r.items.Keys);
        }
      }
    }
  }

  /** Removing ids keeps the cache consistent: the lists lose every id the store loses. */
  lemma RemovePreservesConsistent<Id, P>(s: State<Id, P>, itemIds: seq<Id>, stableKey: map<string, string> -> string)
    requires Consistent(s)
    ensures Consistent(Reduce(Some(s), RemoveItems(itemIds), stableKey))
  {
    var r := Reduce(Some(s), RemoveItems(itemIds), stableKey);
    var removed := RemovedSet(itemIds);
    assert r.items == s.items - removed;
    forall key, j | key in r.queries && 0 <= j < |r.queries[key]| && r.queries[key][j].Some?
      ensures r.queries[key][j].value in r.items
    {
      var idx := KeptIndices(s.queries[key], removed);
      assert r.queries[key] == Compact(s.queries[key], removed);
      assert r.queries[key][j] == s.queries[key][idx[j]];
      assert !IsRemoved(r.queries[key][j], removed);
    }
  }

  /** The default state is consistent, and every action keeps the cache consistent. */
  lemma ReducePreservesConsistent<Id, P>(state: Option<State<Id, P>>, action: Action<Id, P>, stableKey: map<string, string> -> string)
    requires WellFormed(action)
    requires state.Some? ==> Consistent(state.value)
    ensures Consistent(Reduce(state, action, stableKey))
  {
    var s := Current(state);
    assert Reduce(state, action, stableKey) == Reduce(Some(s), action, stableKey);
    match action
    case ReceiveItems(query, items) => ReceivePreservesConsistent(s, query, items, stableKey);
    case RemoveItems(itemIds) => RemovePreservesConsistent(s, itemIds, stableKey);
    case Unrecognized =>
  }
}
