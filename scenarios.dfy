/**
 * The concrete cases the queried-data test suite asserts, stated over the
 * model: merges of pages into id lists, and reducer transitions.
 */
module Scenarios {
  import opened Wrappers
  import opened MergedIds
  import opened QueriedData

  /** An id as a script value: the suite mixes numbers with a string id. */
  datatype ScriptId = Num(n: int) | Str(s: string)

  /** Page 2 of size 3 into an empty list: three holes, then the page. */
  lemma ReceivePageIntoEmpty()
    ensures Merge([], [4, 5, 6], 2, 3) == [None, None, None, Some(4), Some(5), Some(6)]
  {
  }

  /** Page 1 fills the leading holes and keeps page 2. */
  lemma MergeIntoExisting()
    ensures Merge([None, None, None, Some(4), Some(5), Some(6)], [1, 2, 3], 1, 3)
         == [Some(1), Some(2), Some(3), Some(4), Some(5), Some(6)]
  {
  }

  /** A re-fetched page 2 overwrites its range. */
  lemma ReplaceWithNewPage()
    ensures Merge([Some(Num(1)), Some(Num(2)), Some(Num(3)), Some(Num(4)), Some(Num(5)), Some(Num(6))],
                  [Str("replaced"), Num(5), Num(6)], 2, 3)
         == [Some(Num(1)), Some(Num(2)), Some(Num(3)), Some(Str("replaced")), Some(Num(5)), Some(Num(6))]
  {
  }

  /** A short third page extends the list by its one id. */
  lemma AppendPartialPage()
    ensures Merge([Some(1), Some(2), Some(3), Some(4), Some(5), Some(6)], [7], 3, 3)
         == [Some(1), Some(2), Some(3), Some(4), Some(5), Some(6), Some(7)]
  {
  }

  /** With every id at once, the result is a copy of the incoming ids: one dropped, or one dropped and one added. */
  lemma ReceiveAllIds()
    ensures Merge([Some(1), Some(2), Some(3)], [1, 3], 1, AllPages) == [Some(1), Some(3)]
    ensures Merge([Some(1), Some(2), Some(3)], [1, 3, 4], 1, AllPages) == [Some(1), Some(3), Some(4)]
  {
  }

  /** The reducer's default value: no items and no queries. */
  lemma DefaultValue(stableKey: map<string, string> -> string)
    ensures Reduce<int, string>(None, Unrecognized, stableKey) == Default()
  {
  }

  /** A page of a query with filter s=a: the item is stored and its id indexed under "s=a". */
  lemma ReceiveQueriedPage(stableKey: map<string, string> -> string)
    requires stableKey(map["s" := "a"]) == "s=a"
    ensures Reduce(Some(State(map[], map[])), ReceiveItems(Some(Query(map["s" := "a"], 1, 3)), [Entity(1, "abc")]), stableKey)
         == State(map[1 := Entity(1, "abc")], map["s=a" := [Some(1)]])
  {
    var items := [Entity(1, "abc")];
    assert IdsOf(items) == [1];
    assert Upsert(map[], items) == Upsert(map[1 := Entity(1, "abc")], []);
    var merged := Merge([], [1], 1, 3);
    assert |merged| == 1 && merged[0] == Some(1);
    assert merged == [Some(1)];
    var r := Reduce(Some(State(map[], map[])), ReceiveItems(Some(Query(map["s" := "a"], 1, 3)), items), stableKey);
    assert r.items == map[1 := Entity(1, "abc")];
    assert r.queries == map["s=a" := merged];
  }

  /** Items received without a query are stored and not indexed. */
  lemma ReceiveUnqueriedPage(stableKey: map<string, string> -> string)
    ensures Reduce(Some(State(map[], map[])), ReceiveItems(None, [Entity(1, "abc")]), stableKey)
         == State(map[1 := Entity(1, "abc")], map[])
  {
  }

  /** Filtering id 3 out of the two lists of the deletion case. */
  lemma CompactDeletionLists()
    ensures Compact([Some(1), Some(2), Some(3), Some(4)], {3}) == [Some(1), Some(2), Some(4)]
    ensures Compact([Some(1), Some(3)], {3}) == [Some(1)]
  {
    var all: seq<Slot<int>> := [Some(1), Some(2), Some(3), Some(4)];
    assert all[1..] == [Some(2), Some(3), Some(4)];
    assert all[1..][1..] == [Some(3), Some(4)];
    assert all[1..][1..][1..] == [Some(4)];
    assert Compact([Some(4)], {3}) == [Some(4)] + Compact([], {3});
    var filtered: seq<Slot<int>> := [Some(1), Some(3)];
    assert filtered[1..] == [Some(3)];
    assert Compact([Some(3)], {3}) == Compact([], {3});
  }

  /** Deleting item 3 removes it from the store and closes up both query lists. */
  lemma DeleteItem(stableKey: map<string, string> -> string)
    ensures
      var s := State(
        map[1 := Entity(1, "abc"), 2 := Entity(2, "def"), 3 := Entity(3, "ghi"), 4 := Entity(4, "klm")],
        map["" := [Some(1), Some(2), Some(3), Some(4)], "s=a" := [Some(1), Some(3)]]);
      Reduce(Some(s), RemoveItems([3]), stableKey)
        == State(
             map[1 := Entity(1, "abc"), 2 := Entity(2, "def"), 4 := Entity(4, "klm")],
             map["" := [Some(1), Some(2), Some(4)], "s=a" := [Some(1)]])
  {
    var s := State(
      map[1 := Entity(1, "abc"), 2 := Entity(2, "def"), 3 := Entity(3, "ghi"), 4 := Entity(4, "klm")],
      map["" := [Some(1), Some(2), Some(3), Some(4)], "s=a" := [Some(1), Some(3)]]);
    var removed := RemovedSet([3]);
    assert removed == {3};
    CompactDeletionLists();
    var queries := RemoveFromQueries(s.queries, removed);
    assert queries.Keys == {"", "s=a"};
    assert queries == map["" := [Some(1), Some(2), Some(4)], "s=a" := [Some(1)]];
    assert s.items - removed == map[1 := Entity(1, "abc"), 2 := Entity(2, "def"), 4 := Entity(4, "klm")];
    assert Reduce(Some(s), RemoveItems([3]), stableKey) == State(s.items - removed, queries);
  }
}
