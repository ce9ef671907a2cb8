/** The pagination arithmetic shared by the list handlers: `skip = (page - 1) * limit`,
    `.skip(skip).limit(limit)` on the ordered result, and `pages = Math.ceil(total / limit)`. */
module Paging {
  import opened Common

  function Min(a: int, b: int): int
  {
    if a <= b then a else b
  }

  /** A numeric query parameter, or the default that `const { page = 1 } = req.query` gives it. */
  function OrDefault(o: Option<int>, d: int): int
  {
    if o.Some? then o.value else d
  }

  /** `(page - 1) * limit`. */
  function Skip(page: int, limit: int): int
  {
    (page - 1) * limit
  }

  /** `Math.ceil(total / limit)`. With a zero limit the quotient is Infinity or NaN, both of
      which JSON renders as null; that is `None` here. */
  function PageCount(total: nat, limit: int): (r: Option<int>)
    ensures r.None? <==> limit == 0
    ensures limit > 0 ==> r.Some? && r.value >= 0 && r.value * limit >= total && (r.value - 1) * limit < total
    ensures limit < 0 ==> r.Some? && r.value <= 0 && r.value * limit <= total && (r.value - 1) * limit > total
  {
    if limit > 0 then
      var q := (total + limit - 1) / limit;
      assert q * limit >= total && (q - 1) * limit < total by { CeilBounds(total, limit, q); }
      Some(q)
    else if limit < 0 then
      var q := total / -limit;
      assert -q * limit <= total && (-q - 1) * limit > total by { FloorBounds(total, -limit, q); }
      Some(-q)
    else None
  }

  lemma CeilBounds(total: nat, limit: int, q: int)
    requires limit > 0 && q == (total + limit - 1) / limit
    ensures q * limit >= total && (q - 1) * limit < total
  {
    var r := (total + limit - 1) % limit;
    assert total + limit - 1 == q * limit + r;
  }

  lemma FloorBounds(total: nat, m: int, q: int)
    requires m > 0 && q == total / m
    ensures q * m <= total && (q + 1) * m > total
  {
    var r := total % m;
    assert total == q * m + r;
  }

  /** How many of `n` ordered documents `.skip(skip).limit(limit)` returns: none past the end,
      all the rest for a zero limit, and otherwise at most `|limit|`. */
  function PageSize(n: nat, skip: int, limit: int): nat
  {
    if skip < 0 || skip >= n then 0
    else if limit == 0 then n - skip
    else Min(n - skip, if limit > 0 then limit else -limit)
  }

  /** What `.skip(skip).limit(limit)` returns from an ordered result. The database refuses a
      negative skip (`None`); a zero limit means no limit, and a negative limit returns at most
      `-limit` documents. */
  function Window<T>(items: seq<T>, skip: int, limit: int): (r: Option<seq<T>>)
    ensures r.None? <==> skip < 0
    ensures r.Some? ==> forall k :: 0 <= k < |r.value| ==> skip + k < |items| && r.value[k] == items[skip + k]
    ensures r.Some? ==> |r.value| == PageSize(|items|, skip, limit)
  {
    if skip < 0 then None
    else if skip >= |items| then Some([])
    else
      var n := if limit > 0 then limit else -limit;
      var end := if limit == 0 then |items| else Min(|items|, skip + n);
      Some(items[skip..end])
  }

  /** A list handler's reply: the page of documents and its `pagination` block. */
  datatype Page<T> = Page(items: seq<T>, total: nat, page: int, limit: int, pages: Option<int>)

  /** `find(filter).sort(...).skip(skip).limit(limit)` with `countDocuments(filter)` beside it,
      given the ordered matches; `None` is the database refusing a negative skip (a 500). */
  function Paginate<T>(ordered: seq<T>, page: int, limit: int): (r: Option<Page<T>>)
    ensures r.None? <==> Skip(page, limit) < 0
    ensures r.Some? ==> r.value.total == |ordered| && r.value.page == page && r.value.limit == limit
    ensures r.Some? ==> r.value.pages == PageCount(|ordered|, limit)
    ensures r.Some? ==> |r.value.items| == PageSize(|ordered|, Skip(page, limit), limit)
    ensures r.Some? ==> forall k :: 0 <= k < |r.value.items| ==>
      Skip(page, limit) + k < |ordered| && r.value.items[k] == ordered[Skip(page, limit) + k]
  {
    var w := Window(ordered, Skip(page, limit), limit);
    if w.None? then None else Some(Page(w.value, |ordered|, page, limit, PageCount(|ordered|, limit)))
  }

  /** The items of pages 1..p, one after another. */
  function PagesUpTo<T>(items: seq<T>, limit: int, p: nat): seq<T>
    requires limit > 0
  {
    if p == 0 then [] else PagesUpTo(items, limit, p - 1) + Window(items, Skip(p, limit), limit).value
  }

  /** The first p pages together are the first p * limit items. */
  lemma {:induction false} PagesUpToIsPrefix<T>(items: seq<T>, limit: int, p: nat)
    requires limit > 0
    ensures PagesUpTo(items, limit, p) == items[..Min(p * limit, |items|)]
  {
    if p > 0 {
      PagesUpToIsPrefix(items, limit, p - 1);
      var a := Min((p - 1) * limit, |items|);
      var b := Min(p * limit, |items|);
      assert p * limit == (p - 1) * limit + limit;
      assert items[..b] == items[..a] + items[a..b];
    }
  }

  /** Reading pages 1 to `pages` lists every item exactly once, in order. */
  lemma AllPagesListEveryItemOnce<T>(items: seq<T>, limit: int)
    requires limit > 0
    ensures PagesUpTo(items, limit, PageCount(|items|, limit).value) == items
  {
    var pages := PageCount(|items|, limit).value;
    PagesUpToIsPrefix(items, limit, pages);
  }
}
