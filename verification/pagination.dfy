/**
 * The pagination block every listing handler returns: `page` and `limit` taken
 * from the query string (defaults 1 and 10), `skip = (page - 1) * limit`, and
 * `pages = Math.ceil(total / limit)`.
 */
module Pagination {
  import opened Wrappers

  const DefaultPage: int := 1
  const DefaultLimit: int := 10

  /**
   * `pages` as it reaches the client. For limit 0 the division yields Infinity
   * or NaN, which JSON serialises as null: that is `None` here.
   */
  datatype PageInfo = PageInfo(page: int, limit: int, total: nat, pages: Option<int>)

  /** `Math.ceil(total / limit)`: the least integer n with total / limit <= n. */
  function PageCount(total: nat, limit: int): (n: Option<int>)
    ensures n.None? <==> limit == 0
    ensures limit > 0 ==> (n.value - 1) * limit < total <= n.value * limit
    ensures limit < 0 ==> n.value * limit <= total < (n.value - 1) * limit
  {
    if limit == 0 then None
    else if limit > 0 then
      var q := (total + limit - 1) / limit;
      CeilPositive(total, limit, q);
      Some(q)
    else
      var q := total / (-limit);
      CeilNegative(total, limit, q);
      Some(-q)
  }

  lemma CeilPositive(total: nat, limit: int, q: int)
    requires limit > 0 && q == (total + limit - 1) / limit
    ensures (q - 1) * limit < total <= q * limit
  {
    var r := (total + limit - 1) % limit;
    assert total + limit - 1 == q * limit + r;
    assert (q - 1) * limit == q * limit - limit;
  }

  lemma CeilNegative(total: nat, limit: int, q: int)
    requires limit < 0 && q == total / (-limit)
    ensures (-q) * limit <= total < (-q - 1) * limit
  {
    var m := -limit;
    var r := total % m;
    assert total == q * m + r;
    assert (-q) * limit == q * m;
    assert (-q - 1) * limit == q * m + m;
  }

  /** `(Number(page) - 1) * Number(limit)`: how many matches precede the page. */
  function Skip(page: int, limit: int): int {
    (page - 1) * limit
  }

  /** The pagination block for `total` matches and the two optional query values. */
  function Paginate(pageParam: Option<int>, limitParam: Option<int>, total: nat): (p: PageInfo)
    ensures p.total == total
    ensures pageParam.None? ==> p.page == 1
    ensures limitParam.None? ==> p.limit == 10 && p.pages.Some?
    ensures p.pages.None? <==> p.limit == 0
    ensures p.limit > 0 ==> p.pages.Some? && (p.pages.value - 1) * p.limit < total <= p.pages.value * p.limit
  {
    var page := pageParam.GetOr(DefaultPage);
    var limit := limitParam.GetOr(DefaultLimit);
    PageInfo(page, limit, total, PageCount(total, limit))
  }

  /**
   * The matches `.sort(...).skip(skip).limit(limit)` returns from the sorted
   * list. The database refuses a negative skip, which is `None` here; a zero
   * limit means no limit, and a negative one returns at most its absolute
   * value in a single batch.
   */
  function Window<T>(xs: seq<T>, pageParam: Option<int>, limitParam: Option<int>): (w: Option<seq<T>>)
    ensures w.None? <==> SkipOf(pageParam, limitParam) < 0
    ensures w.Some? ==>
      var skip, limit := SkipOf(pageParam, limitParam), limitParam.GetOr(DefaultLimit);
      && |w.value| <= |xs|
      && (skip >= |xs| ==> w.value == [])
      && (skip < |xs| && limit == 0 ==> |w.value| == |xs| - skip)
      && (skip < |xs| && limit != 0 ==> |w.value| == Min(|xs| - skip, Abs(limit)))
      && forall i :: 0 <= i < |w.value| ==> w.value[i] == xs[skip + i]
  {
    var skip, limit := SkipOf(pageParam, limitParam), limitParam.GetOr(DefaultLimit);
    if skip < 0 then None
    else if skip >= |xs| then Some([])
    else if limit == 0 then Some(xs[skip..])
    else Some(xs[skip..skip + Min(|xs| - skip, Abs(limit))])
  }

  /** The skip of the two optional query values, after their defaults. */
  function SkipOf(pageParam: Option<int>, limitParam: Option<int>): int {
    Skip(pageParam.GetOr(DefaultPage), limitParam.GetOr(DefaultLimit))
  }

  function Min(a: int, b: int): int {
    if a <= b then a else b
  }

  function Abs(a: int): nat {
    if a < 0 then -a else a
  }

  /**
   * With a positive limit the pages tile the list: the match at position `i`
   * is on page `i / limit + 1`, at position `i % limit`.
   */
  lemma {:induction false} EveryMatchOnItsPage<T>(xs: seq<T>, limit: int, i: int)
    requires limit > 0 && 0 <= i < |xs|
    ensures var w := Window(xs, Some(i / limit + 1), Some(limit));
            w.Some? && i % limit < |w.value| && w.value[i % limit] == xs[i]
  {
    var skip := SkipOf(Some(i / limit + 1), Some(limit));
    assert skip == (i / limit) * limit;
    assert i == (i / limit) * limit + i % limit;
    MulMonotone(0, i / limit, limit);
  }

  /** The first page is the head of the list, whatever the limit; with the defaults, the first ten. */
  lemma FirstPageIsHead<T>(xs: seq<T>, limitParam: Option<int>)
    ensures Window(xs, None, limitParam) == Window(xs, Some(1), limitParam)
    ensures Window(xs, None, limitParam).Some?
    ensures xs != [] ==> |Window(xs, None, limitParam).value| > 0 && Window(xs, None, limitParam).value[0] == xs[0]
    ensures Window(xs, None, None).value == xs[..Min(|xs|, 10)]
  {
  }

  /** No matches means no pages, for a positive limit. */
  lemma {:induction false} EmptyHasNoPages(limit: int)
    requires limit > 0
    ensures PageCount(0, limit) == Some(0)
  {
    var n := PageCount(0, limit).value;
    if n > 0 { MulMonotone(1, n, limit); }
    if n < 0 { MulMonotone(n, -1, limit); }
  }

  /** Every page between 1 and `pages` starts at an existing match. */
  lemma {:induction false} PageStartsInside(page: int, limit: int, total: nat)
    requires limit > 0 && total > 0
    requires 1 <= page <= PageCount(total, limit).value
    ensures 0 <= Skip(page, limit) < total
  {
    var n := PageCount(total, limit).value;
    assert (page - 1) * limit <= (n - 1) * limit by {
      MulMonotone(page - 1, n - 1, limit);
    }
    assert 0 <= (page - 1) * limit by {
      MulMonotone(0, page - 1, limit);
    }
  }

  /** The page after the last one starts past every match. */
  lemma {:induction false} PageAfterLastIsEmpty(limit: int, total: nat)
    requires limit > 0
    ensures Skip(PageCount(total, limit).value + 1, limit) >= total
  {
  }

  lemma MulMonotone(a: int, b: int, c: int)
    requires a <= b && c >= 0
    ensures a * c <= b * c
  {
    assert b * c - a * c == (b - a) * c;
  }
}
