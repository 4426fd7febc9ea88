/** Pages of a sorted list of matches. */
module Paging {

  /** `Math.ceil(total / limit)`. */
  function TotalPages(total: nat, limit: nat): nat
    requires limit >= 1
  {
    if total % limit == 0 then total / limit else total / limit + 1
  }

  function Min(a: nat, b: nat): nat { if a < b then a else b }

  /** `skip((page - 1) * limit)` and then `limit(limit)`. */
  function Page<T>(matches: seq<T>, page: nat, limit: nat): seq<T>
    requires page >= 1 && limit >= 1
  {
    var skip := (page - 1) * limit;
    matches[Min(skip, |matches|)..Min(skip + limit, |matches|)]
  }

  function Pages<T>(matches: seq<T>, n: nat, limit: nat): seq<T>
    requires limit >= 1
  {
    if n == 0 then [] else Pages(matches, n - 1, limit) + Page(matches, n, limit)
  }

  lemma {:induction false} FirstPages<T>(matches: seq<T>, n: nat, limit: nat)
    requires limit >= 1
    ensures Pages(matches, n, limit) == matches[..Min(n * limit, |matches|)]
  {
    if n > 0 {
      FirstPages(matches, n - 1, limit);
      assert n * limit == (n - 1) * limit + limit;
    } else {
      assert 0 * limit == 0;
    }
  }

  lemma CeilingBounds(total: nat, limit: nat)
    requires limit >= 1
    ensures total <= TotalPages(total, limit) * limit < total + limit
  {
    var q, r := total / limit, total % limit;
    assert total == q * limit + r;
    assert (q + 1) * limit == q * limit + limit;
  }

  lemma {:induction false} MultipleOrder(a: nat, b: nat, limit: nat)
    requires a < b
    ensures a * limit + limit <= b * limit
  {
    assert b * limit == (b - 1) * limit + limit;
    if a < b - 1 {
      MultipleOrder(a, b - 1, limit);
    }
  }

  /**
   Paging partitions the matches: pages 1 to totalPages put together are the whole list, every page but the last is
   full, the last one is not empty, later pages are empty, and no smaller number of pages would hold the list.
   */
  lemma PagesPartition<T>(matches: seq<T>, limit: nat, page: nat)
    requires limit >= 1 && page >= 1
    ensures var pages := TotalPages(|matches|, limit);
            && Pages(matches, pages, limit) == matches
            && (page < pages ==> |Page(matches, page, limit)| == limit)
            && (page == pages ==> 1 <= |Page(matches, page, limit)| <= limit)
            && (page > pages ==> Page(matches, page, limit) == [])
            && forall n: nat :: Pages(matches, n, limit) == matches ==> n >= pages
  {
    var pages := TotalPages(|matches|, limit);
    CeilingBounds(|matches|, limit);
    FirstPages(matches, pages, limit);
    assert page * limit == (page - 1) * limit + limit;
    if page < pages {
      MultipleOrder(page, pages, limit);
    } else if page > pages {
      if page - 1 > pages {
        MultipleOrder(pages, page - 1, limit);
      }
    }
    forall n: nat | Pages(matches, n, limit) == matches ensures n >= pages {
      FirstPages(matches, n, limit);
      if n < pages {
        MultipleOrder(n, pages, limit);
      }
    }
  }
}
