/** `paginate` of frontend/src/utils/paginate.ts: one page of a list, as an array `slice`. */
module Paginate {
  import Seqs

  function Min(a: int, b: int): int { if a <= b then a else b }
  function Max(a: int, b: int): int { if a >= b then a else b }

  /** `items.slice((page - 1) * perPage, (page - 1) * perPage + perPage)`. */
  function Paginate<T>(items: seq<T>, page: int, perPage: int): (r: seq<T>)
    ensures |r| <= |items|
    ensures forall x <- r :: x in items
  {
    var start := (page - 1) * perPage;
    Seqs.JsSlice(items, start, start + perPage)
  }

  /** Where page `page` starts and ends in a list of `len` items, once clamped to the list. */
  function PageStart(len: nat, page: int, perPage: int): nat
    requires page >= 1 && perPage >= 1
  {
    Min(len, (page - 1) * perPage)
  }

  function PageEnd(len: nat, page: int, perPage: int): nat
    requires page >= 1 && perPage >= 1
  {
    Min(len, page * perPage)
  }

  /**
   * For a page and a page size of at least one, the page is the slice of the items from
   * `(page - 1) * perPage` to `page * perPage`, cut at the end of the list: it holds
   * `max(0, min(perPage, len - (page - 1) * perPage))` items and is empty once its start
   * is past the end.
   */
  lemma PageIsSlice<T>(items: seq<T>, page: int, perPage: int)
    requires page >= 1 && perPage >= 1
    ensures PageStart(|items|, page, perPage) <= PageEnd(|items|, page, perPage)
    ensures Paginate(items, page, perPage) == items[PageStart(|items|, page, perPage)..PageEnd(|items|, page, perPage)]
    ensures |Paginate(items, page, perPage)| == Max(0, Min(perPage, |items| - (page - 1) * perPage))
    ensures (page - 1) * perPage >= |items| ==> Paginate(items, page, perPage) == []
  {
    assert page * perPage == (page - 1) * perPage + perPage;
    assert (page - 1) * perPage >= 0;
  }

  /** Pages 1 to `k`, one after the other. */
  function Pages<T>(items: seq<T>, k: nat, perPage: int): seq<T> {
    if k == 0 then [] else Pages(items, k - 1, perPage) + Paginate(items, k, perPage)
  }

  /** Reading pages 1 to `k` in turn gives the first `min(len, k * perPage)` items, in order. */
  lemma {:induction false} PagesConcat<T>(items: seq<T>, k: nat, perPage: int)
    requires perPage >= 1
    ensures Pages(items, k, perPage) == items[..Min(|items|, k * perPage)]
  {
    if k > 0 {
      PagesConcat(items, k - 1, perPage);
      PageIsSlice(items, k, perPage);
      var a := Min(|items|, (k - 1) * perPage);
      var b := Min(|items|, k * perPage);
      assert items[..a] + items[a..b] == items[..b];
    }
  }

  /** A page ends no later than any later page starts, so distinct pages never share a position. */
  lemma PagesDisjoint(len: nat, p: int, q: int, perPage: int)
    requires 1 <= p < q && perPage >= 1
    ensures PageEnd(len, p, perPage) <= PageStart(len, q, perPage)
  {
    assert (q - 1) * perPage - p * perPage == (q - 1 - p) * perPage;
    assert (q - 1 - p) * perPage >= 0;
  }
}
