/**
 * Paging as both list screens do it: page p of a list shows
 * `list.slice((p - 1) * perPage, (p - 1) * perPage + perPage)`, and the pager
 * offers `Math.ceil(list.length / perPage)` pages.
 */
module Paging {
  import opened JsBuiltins

  /** The rows of page `page`: `xs.slice((page - 1) * perPage, (page - 1) * perPage + perPage)`. */
  function PageSlice<T>(xs: seq<T>, page: int, perPage: int): (rows: seq<T>) {
    var start := (page - 1) * perPage;
    Slice(xs, start, start + perPage)
  }

  /** `xs.slice(start, start + len)` for a non-negative start: at most len
    * elements, those of xs from index start on, in order. */
  lemma SliceFrom<T>(xs: seq<T>, start: int, len: int)
    requires start >= 0 && len > 0
    ensures var shown := Slice(xs, start, start + len);
            && |shown| <= len
            && (forall i :: 0 <= i < |shown| ==> start + i < |xs| && shown[i] == xs[start + i])
            && |shown| == if start >= |xs| then 0 else Min(len, |xs| - start)
  {
  }

  /** Page p (p >= 1) holds at most perPage rows: the rows from index
    * (p - 1) * perPage on, in order. */
  lemma PageContents<T>(xs: seq<T>, page: int, perPage: int)
    requires page >= 1 && perPage > 0
    ensures var shown, start := PageSlice(xs, page, perPage), (page - 1) * perPage;
            && |shown| <= perPage
            && (forall i :: 0 <= i < |shown| ==> start + i < |xs| && shown[i] == xs[start + i])
            && |shown| == if start >= |xs| then 0 else Min(perPage, |xs| - start)
  {
    AtLeastMultiple(page - 1, 0, perPage);
    SliceFrom(xs, (page - 1) * perPage, perPage);
  }

  /** Every row of a page is an element of the list. */
  lemma PageSliceMembers<T>(xs: seq<T>, page: int, perPage: int)
    ensures forall i :: 0 <= i < |PageSlice(xs, page, perPage)| ==> PageSlice(xs, page, perPage)[i] in xs
  {
    var start := (page - 1) * perPage;
    var lo, hi := RelativeIndex(start, |xs|), RelativeIndex(start + perPage, |xs|);
    var shown := PageSlice(xs, page, perPage);
    forall i | 0 <= i < |shown| ensures shown[i] in xs {
      assert shown[i] == xs[lo + i];
    }
  }

  /** Row m of page p is the element at index (p - 1) * perPage + m. */
  lemma PageRowAt<T>(xs: seq<T>, page: int, perPage: int, m: int)
    requires page >= 1 && 0 <= m < perPage && (page - 1) * perPage + m < |xs|
    ensures m < |PageSlice(xs, page, perPage)|
    ensures PageSlice(xs, page, perPage)[m] == xs[(page - 1) * perPage + m]
  {
    PageContents(xs, page, perPage);
  }

  /** k == (k / d) * d + k % d, the remainder below d. */
  lemma DivMod(k: int, d: int)
    requires d > 0
    ensures k == (k / d) * d + k % d && 0 <= k % d < d
  {
  }

  /** Every result appears on one of the pages the pager offers, at the
    * position its index gives. */
  lemma EveryResultOnItsPage<T>(xs: seq<T>, perPage: int, k: int)
    requires perPage > 0 && 0 <= k < |xs|
    ensures var p := k / perPage + 1;
            && 1 <= p <= CeilDiv(|xs|, perPage)
            && k % perPage < |PageSlice(xs, p, perPage)|
            && PageSlice(xs, p, perPage)[k % perPage] == xs[k]
  {
    var q, m := k / perPage, k % perPage;
    DivMod(k, perPage);
    var total := CeilDiv(|xs|, perPage);
    assert q * perPage <= k < |xs| <= total * perPage;
    LessMultiple(q, total, perPage);
    PageRowAt(xs, q + 1, perPage, m);
  }

  /** a * d < b * d with d positive gives a < b. */
  lemma LessMultiple(a: int, b: int, d: int)
    requires d > 0 && a * d < b * d
    ensures a < b
  {
    assert (b - a) * d == b * d - a * d;
  }

  /** A page number past the page count shows nothing. */
  lemma PageBeyondTotalEmpty<T>(xs: seq<T>, page: int, perPage: int)
    requires perPage > 0 && page > CeilDiv(|xs|, perPage)
    ensures PageSlice(xs, page, perPage) == []
  {
    var total := CeilDiv(|xs|, perPage);
    AtLeastMultiple(page - 1, total, perPage);
    var start := (page - 1) * perPage;
    assert start >= |xs|;
    assert RelativeIndex(start, |xs|) == |xs|;
  }

  /** a >= b with d positive gives a * d >= b * d. */
  lemma AtLeastMultiple(a: int, b: int, d: int)
    requires d > 0 && a >= b
    ensures a * d >= b * d
  {
    assert a * d - b * d == (a - b) * d;
  }
}
