/**
 * The page-number window of the pagination component
 * (src/components/Pagination.js), and the same window drawn by the older
 * list view.
 *
 * The window lists every page when there are at most `threshold` of them.
 * Otherwise it shows page 1, the pages within two of the current one
 * (clipped to 2..total-1), page `total`, and an ellipsis wherever pages are
 * skipped. Pagination.js uses `threshold = maxVisible + 2`; the older list
 * view uses 5.
 */
module PaginationComponent {
  import opened Wrappers
  import opened JsBuiltins

  /** One entry of the window: a page button or the '...' marker. */
  datatype Entry = Page(n: int) | Ellipsis

  /** The page buttons lo, lo+1, ..., hi (none when lo > hi). */
  function PageRun(lo: int, hi: int): (r: seq<Entry>)
    ensures |r| == if lo <= hi then hi - lo + 1 else 0
    decreases hi - lo
  {
    if lo > hi then [] else [Page(lo)] + PageRun(lo + 1, hi)
  }

  /** The k-th button of a run is page lo + k. */
  lemma {:induction false} PageRunEntries(lo: int, hi: int)
    ensures forall k :: 0 <= k < |PageRun(lo, hi)| ==> PageRun(lo, hi)[k] == Page(lo + k)
    decreases hi - lo
  {
    if lo <= hi {
      PageRunEntries(lo + 1, hi);
      assert forall k :: 1 <= k < |PageRun(lo, hi)| ==> PageRun(lo, hi)[k] == PageRun(lo + 1, hi)[k - 1];
    }
  }

  /** A run grows by one button at its upper end. */
  lemma PageRunSnoc(lo: int, hi: int)
    requires lo <= hi + 1
    ensures PageRun(lo, hi + 1) == PageRun(lo, hi) + [Page(hi + 1)]
  {
    PageRunEntries(lo, hi);
    PageRunEntries(lo, hi + 1);
    var longer, shorter := PageRun(lo, hi + 1), PageRun(lo, hi) + [Page(hi + 1)];
    assert |longer| == |shorter|;
    forall k | 0 <= k < |longer| ensures longer[k] == shorter[k] {
      if k < |longer| - 1 {
        assert shorter[k] == PageRun(lo, hi)[k];
      }
    }
  }

  function WindowStart(current: int): (start: int) { Max(2, current - 2) }

  function WindowEnd(current: int, total: int): (end: int) { Min(total - 1, current + 2) }

  /** The marker after page 1 in a wide window, if pages 2.. are skipped. */
  function Lead(current: int): (marker: seq<Entry>) {
    if WindowStart(current) > 2 then [Ellipsis] else []
  }

  /** The marker before page total in a wide window, if pages ..total-1 are skipped. */
  function Trail(current: int, total: int): (marker: seq<Entry>) {
    if WindowEnd(current, total) < total - 1 then [Ellipsis] else []
  }

  /** The window, as the source's loops build it. */
  function Window(current: int, total: int, threshold: int): (w: seq<Entry>) {
    if total <= threshold then PageRun(1, total)
    else
      [Page(1)] + Lead(current) + PageRun(WindowStart(current), WindowEnd(current, total))
      + Trail(current, total) + [Page(total)]
  }

  /** Every page number in w lies in 1..total. */
  ghost predicate PagesInRange(w: seq<Entry>, total: int) {
    forall k :: 0 <= k < |w| && w[k].Page? ==> 1 <= w[k].n <= total
  }

  /** w starts and ends with a page, never shows two markers side by side,
    * numbers adjacent pages consecutively, and puts a marker exactly where
    * pages are skipped. So its numbers strictly increase. */
  ghost predicate GapsMarked(w: seq<Entry>) {
    && (|w| > 0 ==> w[0].Page? && w[|w| - 1].Page?)
    && (forall k :: 0 <= k < |w| - 1 && w[k].Page? && w[k + 1].Page? ==> w[k + 1].n == w[k].n + 1)
    && (forall k :: 0 < k < |w| - 1 && w[k].Ellipsis? ==>
          w[k - 1].Page? && w[k + 1].Page? && w[k + 1].n > w[k - 1].n + 1)
  }

  /** When the pages fit, the window is exactly 1..total with no marker. */
  lemma CompactWindow(current: int, total: int, threshold: int)
    requires total <= threshold
    ensures Window(current, total, threshold) == PageRun(1, total)
    ensures Ellipsis !in Window(current, total, threshold)
  {
    PageRunEntries(1, total);
  }

  /** Otherwise the window starts with page 1 and ends with page total; a
    * marker follows 1 iff the run starts above 2, and one precedes total iff
    * the run ends below total-1. */
  lemma WideWindowShape(current: int, total: int, threshold: int)
    requires total > threshold
    requires 1 <= current <= total && total >= 3
    ensures var w, start, end := Window(current, total, threshold), WindowStart(current), WindowEnd(current, total);
            && w[0] == Page(1) && w[|w| - 1] == Page(total)
            && (w[1] == Ellipsis <==> start > 2)
            && (w[|w| - 2] == Ellipsis <==> end < total - 1)
            && start <= end
  {
    PageRunEntries(WindowStart(current), WindowEnd(current, total));
    var w, start, end := Window(current, total, threshold), WindowStart(current), WindowEnd(current, total);
    var lead := Lead(current);
    var run := PageRun(start, end);
    var trail := Trail(current, total);
    assert w == [Page(1)] + lead + run + trail + [Page(total)];
    assert |run| > 0;
    assert w[1] == if start > 2 then Ellipsis else run[0];
    assert w[|w| - 2] == if end < total - 1 then Ellipsis else run[|run| - 1];
  }

  /** A run of consecutive pages has its gaps marked (there are none). */
  lemma PageRunGapsMarked(lo: int, hi: int)
    ensures GapsMarked(PageRun(lo, hi))
  {
    PageRunEntries(lo, hi);
  }

  /** The number of markers after page 1 (0 or 1) in a wide window. */
  function LeadLen(current: int): (n: int) { if WindowStart(current) > 2 then 1 else 0 }

  /** The number of markers before page total (0 or 1) in a wide window. */
  function TrailLen(current: int, total: int): (n: int) { if WindowEnd(current, total) < total - 1 then 1 else 0 }

  /** The number of page buttons between the two ends of a wide window. */
  function RunLen(current: int, total: int): (n: int) {
    Max(0, WindowEnd(current, total) - WindowStart(current) + 1)
  }

  /** A wide window, entry by entry. */
  lemma WideEntries(current: int, total: int, threshold: int)
    requires total > threshold
    ensures var w, lead, run := Window(current, total, threshold), LeadLen(current), RunLen(current, total);
            && |w| == 2 + lead + run + TrailLen(current, total)
            && w[0] == Page(1) && w[|w| - 1] == Page(total)
            && (lead == 1 ==> w[1] == Ellipsis)
            && (forall k :: 1 + lead <= k < 1 + lead + run ==> w[k] == Page(WindowStart(current) + k - 1 - lead))
            && (TrailLen(current, total) == 1 ==> w[1 + lead + run] == Ellipsis)
  {
    PageRunEntries(WindowStart(current), WindowEnd(current, total));
    var start, end := WindowStart(current), WindowEnd(current, total);
    var w := Window(current, total, threshold);
    var lead := Lead(current);
    var run := PageRun(start, end);
    var trail := Trail(current, total);
    assert w == [Page(1)] + lead + run + trail + [Page(total)];
    forall k | 1 + |lead| <= k < 1 + |lead| + |run| ensures w[k] == Page(start + k - 1 - |lead|) {
      assert w[k] == run[k - 1 - |lead|];
    }
  }

  /** Every page number of the window lies in 1..total. */
  lemma WindowInRange(current: int, total: int, threshold: int)
    requires threshold >= 2
    ensures PagesInRange(Window(current, total, threshold), total)
  {
    PageRunEntries(1, total);
    if total > threshold {
      WideEntries(current, total, threshold);
      var w, lead, run := Window(current, total, threshold), LeadLen(current), RunLen(current, total);
      forall k | 0 <= k < |w| && w[k].Page? ensures 1 <= w[k].n <= total {
        if 0 < k < |w| - 1 {
          assert 1 + lead <= k < 1 + lead + run;
          assert w[k] == w[1 + lead + (k - 1 - lead)];
        }
      }
    }
  }

  /** Each marker of the window sits between two pages that are not adjacent numbers. */
  lemma WindowMarkersBetween(current: int, total: int, threshold: int)
    requires threshold >= 2
    ensures var w := Window(current, total, threshold);
            forall k :: 0 < k < |w| - 1 && w[k].Ellipsis? ==>
              w[k - 1].Page? && w[k + 1].Page? && w[k + 1].n > w[k - 1].n + 1
  {
    PageRunEntries(1, total);
    if total > threshold {
      WideEntries(current, total, threshold);
      var w, lead, run, trail := Window(current, total, threshold), LeadLen(current), RunLen(current, total), TrailLen(current, total);
      forall k | 0 < k < |w| - 1 && w[k].Ellipsis?
        ensures w[k - 1].Page? && w[k + 1].Page? && w[k + 1].n > w[k - 1].n + 1
      {
        if k == 1 && lead == 1 {
          if run > 0 {
            assert w[k + 1] == Page(WindowStart(current));
          }
        } else {
          assert k == 1 + lead + run && trail == 1;
          if run > 0 {
            assert w[k - 1] == Page(WindowStart(current) + run - 1);
          }
        }
      }
    }
  }

  /** Two neighbouring pages of the window carry consecutive numbers. */
  lemma WindowConsecutive(current: int, total: int, threshold: int)
    requires threshold >= 2
    ensures var w := Window(current, total, threshold);
            forall k :: 0 <= k < |w| - 1 && w[k].Page? && w[k + 1].Page? ==> w[k + 1].n == w[k].n + 1
  {
    PageRunEntries(1, total);
    if total > threshold {
      WideEntries(current, total, threshold);
      var w, lead, run, trail := Window(current, total, threshold), LeadLen(current), RunLen(current, total), TrailLen(current, total);
      forall k | 0 <= k < |w| - 1 && w[k].Page? && w[k + 1].Page?
        ensures w[k + 1].n == w[k].n + 1
      {
        if k == 0 {
          assert lead == 0 && run > 0;
          assert w[k + 1] == Page(WindowStart(current));
        } else if k == |w| - 2 {
          assert trail == 0 && run > 0;
          assert w[k] == Page(WindowStart(current) + run - 1);
        } else {
          assert 1 + lead <= k && k + 1 < 1 + lead + run;
        }
      }
    }
  }

  /** Of any two pages of the window, the earlier one has the smaller number. */
  lemma WindowIncreasing(current: int, total: int, threshold: int)
    requires threshold >= 2
    ensures var w := Window(current, total, threshold);
            forall i, j :: 0 <= i < j < |w| && w[i].Page? && w[j].Page? ==> w[i].n < w[j].n
  {
    PageRunEntries(1, total);
    if total > threshold {
      WideEntries(current, total, threshold);
      var w, lead, run, trail := Window(current, total, threshold), LeadLen(current), RunLen(current, total), TrailLen(current, total);
      var start, end := WindowStart(current), WindowEnd(current, total);
      forall i, j | 0 <= i < j < |w| && w[i].Page? && w[j].Page? ensures w[i].n < w[j].n {
        if i > 0 {
          assert 1 + lead <= i < 1 + lead + run;
          assert w[i].n == start + i - 1 - lead <= end;
        }
        if j < |w| - 1 {
          assert 1 + lead <= j < 1 + lead + run;
          assert w[j].n == start + j - 1 - lead >= start;
        }
      }
    }
  }

  /** The window's page numbers lie in 1..total, strictly increase, and an
    * ellipsis stands exactly where pages are skipped. The bound on threshold
    * holds for every window the application draws (maxVisible >= 0). */
  lemma WindowWellFormed(current: int, total: int, threshold: int)
    requires threshold >= 2
    ensures PagesInRange(Window(current, total, threshold), total)
    ensures GapsMarked(Window(current, total, threshold))
    ensures var w := Window(current, total, threshold);
            forall i, j :: 0 <= i < j < |w| && w[i].Page? && w[j].Page? ==> w[i].n < w[j].n
  {
    PageRunEntries(1, total);
    WindowIncreasing(current, total, threshold);
    WindowInRange(current, total, threshold);
    WindowMarkersBetween(current, total, threshold);
    WindowConsecutive(current, total, threshold);
    if total > threshold {
      WideEntries(current, total, threshold);
    }
  }

  /** A current page inside 1..total always has its own button. */
  lemma CurrentPageShown(current: int, total: int, threshold: int)
    requires 1 <= current <= total
    ensures Page(current) in Window(current, total, threshold)
  {
    var w := Window(current, total, threshold);
    if total <= threshold {
      PageRunEntries(1, total);
      assert w[current - 1] == Page(current);
    } else {
      WideEntries(current, total, threshold);
      var lead := LeadLen(current);
      if current == 1 {
        assert w[0] == Page(1);
      } else if current == total {
        assert w[|w| - 1] == Page(total);
      } else {
        var k := 1 + lead + current - WindowStart(current);
        assert 1 + lead <= k < 1 + lead + RunLen(current, total);
        assert w[k] == Page(current);
      }
    }
  }

  /** The example drawn with current = 5, total = 10, maxVisible = 5. */
  lemma WindowExample()
    ensures Window(5, 10, 5 + 2) ==
            [Page(1), Ellipsis, Page(3), Page(4), Page(5), Page(6), Page(7), Ellipsis, Page(10)]
  {
    assert PageRun(3, 7) == [Page(3), Page(4), Page(5), Page(6), Page(7)];
  }

  /** `for (let i = lo; i <= hi; i++) pages.push(i)`. */
  method PushRun(pages: seq<Entry>, lo: int, hi: int) returns (r: seq<Entry>)
    ensures r == pages + PageRun(lo, hi)
  {
    r := pages;
    var i := lo;
    while i <= hi
      invariant lo <= i && (i <= hi + 1 || i == lo)
      invariant r == pages + PageRun(lo, i - 1)
    {
      PageRunSnoc(lo, i - 1);
      r := r + [Page(i)];
      i := i + 1;
    }
  }

  /** The loops of `_getPages` (and of the older list view's pager): the
    * window built one entry at a time. */
  method BuildWindow(current: int, total: int, threshold: int) returns (pages: seq<Entry>)
    ensures pages == Window(current, total, threshold)
  {
    pages := [];
    if total <= threshold {
      pages := PushRun(pages, 1, total);
      assert pages == PageRun(1, total);
    } else {
      pages := pages + [Page(1)];
      var start := Max(2, current - 2);
      var end := Min(total - 1, current + 2);
      if start > 2 {
        pages := pages + [Ellipsis];
      }
      assert pages == [Page(1)] + Lead(current);
      pages := PushRun(pages, start, end);
      if end < total - 1 {
        pages := pages + [Ellipsis];
      }
      assert pages == [Page(1)] + Lead(current) + PageRun(start, end) + Trail(current, total);
      pages := pages + [Page(total)];
    }
  }

  /** The component's page-number buttons and its '<' / '>' buttons. */
  class Pagination {
    var current: int
    var total: int
    var maxVisible: int

    /** The defaults: page 1 of 1, up to five pages around the current one. */
    constructor ()
      ensures current == 1 && total == 1 && maxVisible == 5
      ensures Window(current, total, maxVisible + 2) == [Page(1)]
    {
      current, total, maxVisible := 1, 1, 5;
    }

    /** `_getPages`: the window with threshold maxVisible + 2. */
    method GetPages() returns (pages: seq<Entry>)
      ensures pages == Window(current, total, maxVisible + 2)
    {
      pages := BuildWindow(current, total, maxVisible + 2);
    }

    /** `_goTo(page)`: a page-change event carrying the page, unless the entry
      * is the ellipsis or the page already shown. */
    method GoTo(target: Entry) returns (event: Option<int>)
      ensures event.Some? <==> target.Page? && target.n != current
      ensures event.Some? ==> event.value == target.n
    {
      if target.Page? && target.n != current {
        event := Some(target.n);
      } else {
        event := None;
      }
    }

    /** The '<' button is disabled on page 1. */
    predicate PrevDisabled()
      reads this
    {
      current == 1
    }

    /** The '>' button is disabled on the last page. */
    predicate NextDisabled()
      reads this
    {
      current == total
    }

    /** A click on '<': nothing when disabled, else a request for the page before. */
    method ClickPrev() returns (event: Option<int>)
      ensures event.None? <==> current == 1
      ensures event.Some? ==> event.value == current - 1
    {
      if PrevDisabled() {
        event := None;
      } else {
        event := GoTo(Page(current - 1));
      }
    }

    /** A click on '>': nothing when disabled, else a request for the page after. */
    method ClickNext() returns (event: Option<int>)
      ensures event.None? <==> current == total
      ensures event.Some? ==> event.value == current + 1
    {
      if NextDisabled() {
        event := None;
      } else {
        event := GoTo(Page(current + 1));
      }
    }
  }
}
