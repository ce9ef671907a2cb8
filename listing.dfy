/** The read side of the list handlers: `find(filter).sort(order)`, then optionally
    `.skip(skip).limit(limit)` with `countDocuments(filter)` beside it. MongoDB's sort is
    modelled as a stable sort of the collection in natural order. */
module Listing {
  import opened Common
  import opened Lists
  import opened Sorting
  import opened Paging
  import opened Store

  /** `find(filter).sort(order)`: the documents `keep` accepts, ordered by `le`. */
  function Query<T>(m: map<Id, T>, keep: T -> bool, le: (T, T) -> bool): seq<T>
  {
    SortBy(Filter(Rows(m), keep), le)
  }

  /** The query returns the documents the filter keeps, read in natural order, reordered: each
      matching document appears, nothing but matching documents appears, there are as many as
      `countDocuments` counts, and they are in the requested order. */
  lemma QueryFacts<T(!new)>(m: map<Id, T>, keep: T -> bool, le: (T, T) -> bool)
    requires TotalPreorder(le)
    ensures var r := Query(m, keep, le);
      && multiset(r) == multiset(Filter(Rows(m), keep))
      && |r| == |Matching(m, keep)|
      && (forall id :: id in m && keep(m[id]) ==> m[id] in r)
      && (forall k :: 0 <= k < |r| ==> keep(r[k]) && r[k] in m.Values)
      && SortedBy(r, le)
  {
    var matching := Filter(Rows(m), keep);
    var r := SortBy(matching, le);
    CountMatches(m, keep);
    SortByIsSorted(matching, le);
    RowsAreDocuments(m);
    forall id | id in m && keep(m[id]) ensures m[id] in r {
      assert m[id] in matching;
      assert m[id] in multiset(r);
    }
    forall k | 0 <= k < |r| ensures keep(r[k]) && r[k] in m.Values {
      assert r[k] in multiset(r);
      assert r[k] in multiset(matching);
      var j :| 0 <= j < |matching| && matching[j] == r[k];
    }
  }

  /** One page of the query, with the pagination block. */
  function PageOf<T>(m: map<Id, T>, keep: T -> bool, le: (T, T) -> bool, page: int, limit: int): Option<Page<T>>
  {
    Paginate(Query(m, keep, le), page, limit)
  }

  /** A page is the stretch of the query that starts at `skip` and holds `PageSize` documents;
      so it holds only matching documents, in order; its total counts every matching document;
      `pages` is `Math.ceil(total / limit)`; and only a negative skip fails. */
  lemma PageFacts<T(!new)>(m: map<Id, T>, keep: T -> bool, le: (T, T) -> bool, page: int, limit: int)
    requires TotalPreorder(le)
    ensures var r := PageOf(m, keep, le, page, limit);
      && (r.None? <==> Skip(page, limit) < 0)
      && (r.Some? ==>
        && r.value.total == |Matching(m, keep)|
        && r.value.pages == PageCount(r.value.total, limit)
        && |r.value.items| == PageSize(r.value.total, Skip(page, limit), limit)
        && (forall k :: 0 <= k < |r.value.items| ==> r.value.items[k] == Query(m, keep, le)[Skip(page, limit) + k])
        && (forall k :: 0 <= k < |r.value.items| ==> keep(r.value.items[k]) && r.value.items[k] in m.Values)
        && SortedBy(r.value.items, le))
  {
    QueryFacts(m, keep, le);
    PaginateKeepsOrder(Query(m, keep, le), le, page, limit);
  }

  /** A page of an ordered list is itself ordered. */
  lemma PaginateKeepsOrder<T>(all: seq<T>, le: (T, T) -> bool, page: int, limit: int)
    requires SortedBy(all, le)
    ensures var r := Paginate(all, page, limit);
      r.Some? ==> SortedBy(r.value.items, le)
  {
    var r := Paginate(all, page, limit);
    if r.Some? {
      var s := Skip(page, limit);
      var items := r.value.items;
      forall i, j | 0 <= i < j < |items| ensures le(items[i], items[j]) {
        assert items[i] == all[s + i] && items[j] == all[s + j];
      }
    }
  }
}
