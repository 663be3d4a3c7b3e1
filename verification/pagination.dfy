/**
 * The pagination control (client/src/components/DealsList/Pagination.jsx):
 * the window of page buttons `getPageNumbers` builds, and the conditions for
 * the first/last shortcuts, the ellipses and the disabled Previous/Next
 * buttons.
 */
module Pagination {

  /** `maxVisiblePages` */
  const MaxVisiblePages: int := 5

  function Max(a: int, b: int): int { if a >= b then a else b }
  function Min(a: int, b: int): int { if a <= b then a else b }

  /** `[lo, lo + 1, ..., hi]`, empty when `hi < lo`: what a
      `for (i = lo; i <= hi; i++) pages.push(i)` loop leaves. */
  function Range(lo: int, hi: int): (r: seq<int>)
    ensures |r| == if hi < lo then 0 else hi - lo + 1
    ensures forall i :: 0 <= i < |r| ==> r[i] == lo + i
    decreases hi - lo
  {
    if hi < lo then [] else Range(lo, hi - 1) + [hi]
  }

  /** The first and last page of the window for more than five pages: at
      most two pages either side of the current one, clamped to the valid
      pages, then widened to five at whichever end was clamped. */
  function WindowBounds(currentPage: int, totalPages: int): (bounds: (int, int))
    requires totalPages > MaxVisiblePages
    ensures bounds.1 - bounds.0 + 1 == MaxVisiblePages
    ensures 1 <= bounds.0 && bounds.1 <= totalPages
  {
    var halfVisible := MaxVisiblePages / 2;
    var start := Max(1, currentPage - halfVisible);
    var end := Min(totalPages, currentPage + halfVisible);
    if end - start + 1 < MaxVisiblePages then
      if start == 1 then (start, Min(totalPages, start + MaxVisiblePages - 1))
      else (Max(1, end - MaxVisiblePages + 1), end)
    else (start, end)
  }

  /** The page numbers shown: every page when there are at most five,
      otherwise five consecutive valid pages around the current one. */
  function PageNumbers(currentPage: int, totalPages: int): (pages: seq<int>)
    ensures totalPages <= MaxVisiblePages ==>
      |pages| == Max(totalPages, 0) && forall i :: 0 <= i < |pages| ==> pages[i] == i + 1
    ensures totalPages > MaxVisiblePages ==>
      |pages| == MaxVisiblePages && 1 <= pages[0] && pages[|pages| - 1] <= totalPages
    ensures forall i :: 0 <= i < |pages| ==> pages[i] == pages[0] + i
    ensures currentPage in pages <==> 1 <= currentPage <= totalPages
    ensures totalPages > MaxVisiblePages && 3 <= currentPage <= totalPages - 2 ==>
      pages[0] == currentPage - 2
    ensures totalPages > MaxVisiblePages && currentPage <= 3 ==> pages[0] == 1
    ensures totalPages > MaxVisiblePages && currentPage >= totalPages - 2 ==>
      pages[|pages| - 1] == totalPages
  {
    var first := if totalPages <= MaxVisiblePages then 1 else WindowBounds(currentPage, totalPages).0;
    var last := if totalPages <= MaxVisiblePages then totalPages else WindowBounds(currentPage, totalPages).1;
    var pages := Range(first, last);
    assert currentPage in pages <==> first <= currentPage <= last by {
      if first <= currentPage <= last {
        assert pages[currentPage - first] == currentPage;
      }
    }
    pages
  }

  /** `getPageNumbers`, with its loops. */
  method GetPageNumbers(currentPage: int, totalPages: int) returns (pages: seq<int>)
    ensures pages == PageNumbers(currentPage, totalPages)
  {
    pages := [];
    if totalPages <= MaxVisiblePages {
      var i := 1;
      while i <= totalPages
        invariant 1 <= i <= Max(totalPages, 0) + 1
        invariant pages == Range(1, i - 1)
      {
        pages := pages + [i];
        i := i + 1;
      }
    } else {
      var halfVisible := MaxVisiblePages / 2;
      var start := Max(1, currentPage - halfVisible);
      var end := Min(totalPages, currentPage + halfVisible);
      if end - start + 1 < MaxVisiblePages {
        if start == 1 {
          end := Min(totalPages, start + MaxVisiblePages - 1);
        } else {
          start := Max(1, end - MaxVisiblePages + 1);
        }
      }
      assert (start, end) == WindowBounds(currentPage, totalPages);
      var i := start;
      while i <= end
        invariant start <= i <= end + 1
        invariant pages == Range(start, i - 1)
      {
        pages := pages + [i];
        i := i + 1;
      }
    }
  }

  /** `pages[0] > 1`: the "1" button before the window (an empty window has
      no first entry, and `undefined > 1` is false). */
  predicate LeadingShortcut(pages: seq<int>)
  {
    |pages| > 0 && pages[0] > 1
  }

  /** `pages[0] > 2`: the ellipsis after the "1" button. */
  predicate LeadingEllipsis(pages: seq<int>)
  {
    |pages| > 0 && pages[0] > 2
  }

  /** `pages[pages.length - 1] < totalPages`: the last-page button. */
  predicate TrailingShortcut(pages: seq<int>, totalPages: int)
  {
    |pages| > 0 && pages[|pages| - 1] < totalPages
  }

  /** `pages[pages.length - 1] < totalPages - 1`: the ellipsis before it. */
  predicate TrailingEllipsis(pages: seq<int>, totalPages: int)
  {
    |pages| > 0 && pages[|pages| - 1] < totalPages - 1
  }

  /** `currentPage === 1`: Previous is disabled. */
  predicate PrevDisabled(currentPage: int)
  {
    currentPage == 1
  }

  /** `currentPage === totalPages`: Next is disabled. */
  predicate NextDisabled(currentPage: int, totalPages: int)
  {
    currentPage == totalPages
  }

  /** A page has a button of its own: in the window, or as a shortcut. */
  predicate HasButton(pages: seq<int>, totalPages: int, p: int)
  {
    p in pages || (p == 1 && LeadingShortcut(pages)) || (p == totalPages && TrailingShortcut(pages, totalPages))
  }

  /** The shortcuts appear exactly for the first and last page when the
      window leaves them out; every other page outside the window sits
      behind a shown ellipsis, and an ellipsis only ever hides a page. */
  lemma ShortcutsAndEllipses(currentPage: int, totalPages: int)
    requires totalPages >= 1
    ensures var pages := PageNumbers(currentPage, totalPages);
      (LeadingShortcut(pages) <==> 1 !in pages)
      && (TrailingShortcut(pages, totalPages) <==> totalPages !in pages)
      && (forall p :: 1 <= p <= totalPages && !HasButton(pages, totalPages, p) ==>
            (LeadingEllipsis(pages) && p < pages[0])
            || (TrailingEllipsis(pages, totalPages) && p > pages[|pages| - 1]))
      && (LeadingEllipsis(pages) ==> !HasButton(pages, totalPages, 2))
      && (TrailingEllipsis(pages, totalPages) ==> !HasButton(pages, totalPages, totalPages - 1))
  {
    var pages := PageNumbers(currentPage, totalPages);
    var last := pages[|pages| - 1];
    assert 1 in pages <==> pages[0] == 1 by {
      if pages[0] == 1 { assert pages[0] in pages; }
    }
    assert totalPages in pages <==> last == totalPages by {
      if last == totalPages { assert pages[|pages| - 1] in pages; }
    }
    forall p | 1 <= p <= totalPages
      ensures HasButton(pages, totalPages, p)
              || (LeadingEllipsis(pages) && p < pages[0])
              || (TrailingEllipsis(pages, totalPages) && p > last)
    {
      if pages[0] <= p <= last {
        assert pages[p - pages[0]] == p;
      }
    }
  }
}
