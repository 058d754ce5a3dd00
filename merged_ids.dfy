/**
 * Merging one fetched page of ids into the (possibly sparse) id list that
 * the queried-data cache keeps for one query: `getMergedItemIds`.
 */
module MergedIds {
  import opened Wrappers

  /** One position of a query's id list: an id, or a hole (`None`) where no page has supplied one yet. */
  type Slot<Id> = Option<Id>

  /** The page size that means "no pagination: this batch is the whole result set". */
  const AllPages: int := -1

  /** Pages are numbered from 1; a page size is positive or `AllPages`. */
  predicate ValidPagination(page: int, perPage: int) {
    page >= 1 && (perPage >= 1 || perPage == AllPages)
  }

  function Max(a: int, b: int): int {
    if a < b then b else a
  }

  /** Position, in the whole result list, of the first id of page `page`. */
  function PageStart(page: int, perPage: int): nat
    requires page >= 1 && perPage >= 1
  {
    (page - 1) * perPage
  }

  /** `n` holes. */
  function Holes<Id>(n: nat): (r: seq<Slot<Id>>)
    ensures |r| == n
    ensures forall i :: 0 <= i < n ==> r[i] == None
  {
    seq(n, _ => None)
  }

  /** The ids of a page as filled slots, in order. */
  function Present<Id>(ids: seq<Id>): (r: seq<Slot<Id>>)
    ensures |r| == |ids|
    ensures forall i :: 0 <= i < |ids| ==> r[i] == Some(ids[i])
  {
    if ids == [] then [] else [Some(ids[0])] + Present(ids[1..])
  }

  /** True when no position of `slots` is a hole. */
  predicate NoHoles<Id>(slots: seq<Slot<Id>>) {
    forall i :: 0 <= i < |slots| ==> slots[i].Some?
  }

  /**
   * Reference definition of one position of a paginated merge: inside the
   * page's range the incoming id, elsewhere the old slot, and a hole past
   * the end of the old list.
   */
  function MergedSlot<Id>(existing: seq<Slot<Id>>, incoming: seq<Id>, start: nat, i: nat): Slot<Id> {
    if start <= i < start + |incoming| then Some(incoming[i - start])
    else if i < |existing| then existing[i]
    else None
  }

  /**
   * Writing `incoming` into `existing` from position `start` on: the list is
   * padded with holes up to the end of the written range if it is shorter,
   * and every position outside that range keeps its old slot.
   */
  function MergeAt<Id>(existing: seq<Slot<Id>>, incoming: seq<Id>, start: nat): (r: seq<Slot<Id>>)
    ensures |r| == Max(|existing|, start + |incoming|)
    ensures forall i :: 0 <= i < |r| ==> r[i] == MergedSlot(existing, incoming, start, i)
  {
    var end := start + |incoming|;
    var padded := existing + Holes(if |existing| < end then end - |existing| else 0);
    padded[..start] + Present(incoming) + padded[end..]
  }

  /**
   * getMergedItemIds(existing, incoming, page, perPage). With `AllPages` the
   * result is a copy of `incoming`. Otherwise the incoming ids are written
   * over the page's range, as MergeAt describes.
   */
  function Merge<Id>(existing: seq<Slot<Id>>, incoming: seq<Id>, page: int, perPage: int): (r: seq<Slot<Id>>)
    requires ValidPagination(page, perPage)
    ensures perPage == AllPages ==>
      |r| == |incoming| && forall i :: 0 <= i < |r| ==> r[i] == Some(incoming[i])
    ensures perPage != AllPages ==>
      |r| == Max(|existing|, PageStart(page, perPage) + |incoming|)
    ensures perPage != AllPages ==>
      forall i :: 0 <= i < |r| ==> r[i] == MergedSlot(existing, incoming, PageStart(page, perPage), i)
  {
    if perPage == AllPages then Present(incoming)
    else MergeAt(existing, incoming, PageStart(page, perPage))
  }

  /** A paginated merge writes exactly the page's range: the incoming ids, in order. */
  lemma MergeWritesPage<Id>(existing: seq<Slot<Id>>, incoming: seq<Id>, page: int, perPage: int)
    requires page >= 1 && perPage >= 1
    ensures var r := Merge(existing, incoming, page, perPage);
      var start := PageStart(page, perPage);
      start + |incoming| <= |r| && r[start..start + |incoming|] == Present(incoming)
  {
    var r := Merge(existing, incoming, page, perPage);
    var start := PageStart(page, perPage);
    forall k | 0 <= k < |incoming|
      ensures r[start..start + |incoming|][k] == Present(incoming)[k]
    {
      assert r[start + k] == MergedSlot(existing, incoming, start, start + k);
    }
  }

  /** Outside the page's range a paginated merge keeps every old slot, holes included, and never shrinks the list. */
  lemma MergeKeepsOutside<Id>(existing: seq<Slot<Id>>, incoming: seq<Id>, page: int, perPage: int, i: nat)
    requires page >= 1 && perPage >= 1
    requires i < |existing|
    requires i < PageStart(page, perPage) || PageStart(page, perPage) + |incoming| <= i
    ensures |existing| <= |Merge(existing, incoming, page, perPage)|
    ensures Merge(existing, incoming, page, perPage)[i] == existing[i]
  {
  }

  /** Positions that neither the old list nor the page supplied are holes. */
  lemma MergeGapIsHole<Id>(existing: seq<Slot<Id>>, incoming: seq<Id>, page: int, perPage: int, i: nat)
    requires page >= 1 && perPage >= 1
    requires |existing| <= i < PageStart(page, perPage)
    ensures Merge(existing, incoming, page, perPage)[i] == None
  {
  }

  /** In full-replace mode the result is the incoming ids, whatever the old list and the page number. */
  lemma MergeAllReplaces<Id>(existing: seq<Slot<Id>>, other: seq<Slot<Id>>, incoming: seq<Id>, page: int, page': int)
    requires page >= 1 && page' >= 1
    ensures Merge(existing, incoming, page, AllPages) == Present(incoming)
    ensures Merge(existing, incoming, page, AllPages) == Merge(other, incoming, page', AllPages)
  {
  }

  /** Receiving the same page twice gives the same list as receiving it once. */
  lemma MergeIdempotent<Id>(existing: seq<Slot<Id>>, incoming: seq<Id>, page: int, perPage: int)
    requires ValidPagination(page, perPage)
    ensures var once := Merge(existing, incoming, page, perPage);
      Merge(once, incoming, page, perPage) == once
  {
    var once := Merge(existing, incoming, page, perPage);
    var twice := Merge(once, incoming, page, perPage);
    if perPage != AllPages {
      var start := PageStart(page, perPage);
      forall i | 0 <= i < |twice|
        ensures twice[i] == once[i]
      {
        assert twice[i] == MergedSlot(once, incoming, start, i);
      }
    }
  }

  /**
   * Last write wins: re-fetching a page whose new content is at least as
   * long as before leaves no trace of the earlier content of that page.
   */
  lemma MergeLastWriteWins<Id>(existing: seq<Slot<Id>>, first: seq<Id>, second: seq<Id>, page: int, perPage: int)
    requires ValidPagination(page, perPage)
    requires |first| <= |second|
    ensures Merge(Merge(existing, first, page, perPage), second, page, perPage) == Merge(existing, second, page, perPage)
  {
    var mid := Merge(existing, first, page, perPage);
    var lhs := Merge(mid, second, page, perPage);
    var rhs := Merge(existing, second, page, perPage);
    if perPage != AllPages {
      var start := PageStart(page, perPage);
      assert |lhs| == |rhs|;
      forall i | 0 <= i < |lhs|
        ensures lhs[i] == rhs[i]
      {
        assert lhs[i] == MergedSlot(mid, second, start, i);
        assert rhs[i] == MergedSlot(existing, second, start, i);
      }
    }
  }

  /** Pages `p` < `q` of the same size occupy disjoint ranges. */
  lemma PagesDisjoint(p: int, q: int, perPage: int)
    requires 1 <= p < q && perPage >= 1
    ensures PageStart(p, perPage) + perPage <= PageStart(q, perPage)
  {
    assert PageStart(q, perPage) - PageStart(p, perPage) == (q - p) * perPage;
    assert (q - p) * perPage >= perPage;
  }

  /** Writes to disjoint ranges can be applied in either order. */
  lemma MergeAtCommute<Id>(existing: seq<Slot<Id>>, a: seq<Id>, sa: nat, b: seq<Id>, sb: nat)
    requires sa + |a| <= sb || sb + |b| <= sa
    ensures MergeAt(MergeAt(existing, a, sa), b, sb) == MergeAt(MergeAt(existing, b, sb), a, sa)
  {
    var ea, eb := MergeAt(existing, a, sa), MergeAt(existing, b, sb);
    var ab, ba := MergeAt(ea, b, sb), MergeAt(eb, a, sa);
    assert |ab| == |ba|;
    forall i | 0 <= i < |ab|
      ensures ab[i] == ba[i]
    {
      assert ab[i] == MergedSlot(ea, b, sb, i);
      assert ba[i] == MergedSlot(eb, a, sa, i);
      if i < |ea| {
        assert ea[i] == MergedSlot(existing, a, sa, i);
      }
      if i < |eb| {
        assert eb[i] == MergedSlot(existing, b, sb, i);
      }
    }
  }

  /**
   * Distinct pages of at most `perPage` ids can be received in either order:
   * the assembled list is the same.
   */
  lemma MergePagesCommute<Id>(existing: seq<Slot<Id>>, a: seq<Id>, p: int, b: seq<Id>, q: int, perPage: int)
    requires p >= 1 && q >= 1 && p != q && perPage >= 1
    requires |a| <= perPage && |b| <= perPage
    ensures Merge(Merge(existing, a, p, perPage), b, q, perPage)
         == Merge(Merge(existing, b, q, perPage), a, p, perPage)
  {
    if p < q { PagesDisjoint(p, q, perPage); } else { PagesDisjoint(q, p, perPage); }
    MergeAtCommute(existing, a, PageStart(p, perPage), b, PageStart(q, perPage));
  }

  /**
   * Fetching pages in sequence assembles one ordered list: when the list
   * holds exactly the pages before `page`, merging the next page appends it.
   */
  lemma MergeNextPageAppends<Id>(existing: seq<Slot<Id>>, incoming: seq<Id>, page: int, perPage: int)
    requires page >= 1 && perPage >= 1
    requires |existing| == PageStart(page, perPage)
    ensures Merge(existing, incoming, page, perPage) == existing + Present(incoming)
    ensures NoHoles(existing) ==> NoHoles(Merge(existing, incoming, page, perPage))
  {
    var r := Merge(existing, incoming, page, perPage);
    assert |r| == |existing + Present(incoming)|;
    forall i | 0 <= i < |r|
      ensures r[i] == (existing + Present(incoming))[i]
    {
      assert r[i] == MergedSlot(existing, incoming, |existing|, i);
    }
  }
}
