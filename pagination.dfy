/** The page-window arithmetic of components/pagination-controls.tsx: which
    page numbers get a button, and where the previous and next buttons lead. */
module Pagination {
  import opened Wrappers
  import opened Arith

  /** What the control renders when it renders anything. */
  datatype Controls = Controls(
    pages: seq<int>,
    previous: int,
    previousDisabled: bool,
    next: int,
    nextDisabled: bool)

  /** The page number of button `i` (the `Array.from` callback). */
  function PageNumber(i: int, current: int, totalPages: int): int
  {
    if totalPages <= 5 then i + 1
    else if current <= 3 then i + 1
    else if current >= totalPages - 2 then totalPages - 4 + i
    else current - 2 + i
  }

  /** The first page number of the window. */
  function WindowStart(current: int, totalPages: int): int
  {
    PageNumber(0, current, totalPages)
  }

  /** `Array.from({ length: Math.min(5, totalPages) }, ...)`. */
  function PageButtons(current: int, totalPages: int): (pages: seq<int>)
    requires totalPages >= 1
    ensures |pages| == Min(5, totalPages)
  {
    seq(Min(5, totalPages), i requires 0 <= i < Min(5, totalPages) => PageNumber(i, current, totalPages))
  }

  /** `PaginationControls`: nothing at all for a single page (or none);
      otherwise the window of page buttons, a previous button that never
      goes below page 1 and is disabled on page 1, and a next button that
      never goes past the last page and is disabled on it. */
  function Render(current: int, totalPages: int): (r: Option<Controls>)
    ensures r.None? <==> totalPages <= 1
    ensures r.Some? ==> |r.value.pages| == Min(5, totalPages)
    ensures r.Some? ==> r.value.previous >= 1 && r.value.next <= totalPages
    ensures r.Some? ==> (r.value.previousDisabled <==> current == 1)
    ensures r.Some? ==> (r.value.nextDisabled <==> current == totalPages)
  {
    if totalPages <= 1 then None
    else
      Some(Controls(PageButtons(current, totalPages), Max(1, current - 1), current == 1,
        Min(totalPages, current + 1), current == totalPages))
  }

  /** The run `start, start + 1, ..., start + count - 1`. */
  predicate IsRun(pages: seq<int>, start: int)
  {
    forall i :: 0 <= i < |pages| ==> pages[i] == start + i
  }

  /** The window formula: with at most five pages all are shown; otherwise
      the first five near the start, the last five near the end, and the
      current page with two on each side in between. */
  lemma WindowFormula(current: int, totalPages: int)
    requires totalPages >= 1
    ensures totalPages <= 5 ==> IsRun(PageButtons(current, totalPages), 1) && |PageButtons(current, totalPages)| == totalPages
    ensures totalPages > 5 && current <= 3 ==> IsRun(PageButtons(current, totalPages), 1) && |PageButtons(current, totalPages)| == 5
    ensures totalPages > 5 && 3 < current && current >= totalPages - 2 ==>
      IsRun(PageButtons(current, totalPages), totalPages - 4) && |PageButtons(current, totalPages)| == 5
    ensures totalPages > 5 && 3 < current < totalPages - 2 ==>
      IsRun(PageButtons(current, totalPages), current - 2) && |PageButtons(current, totalPages)| == 5
  {
  }

  /** For a current page within range, the buttons show consecutive pages,
      all within [1, totalPages], and one of them is the current page. */
  lemma WindowInvariants(current: int, totalPages: int)
    requires 1 <= current <= totalPages
    ensures IsRun(PageButtons(current, totalPages), WindowStart(current, totalPages))
    ensures forall i :: 0 <= i < |PageButtons(current, totalPages)| ==> 1 <= PageButtons(current, totalPages)[i] <= totalPages
    ensures current in PageButtons(current, totalPages)
  {
    var pages := PageButtons(current, totalPages);
    var start := WindowStart(current, totalPages);
    assert pages[current - start] == current;
  }

  /** Previous and next move by one page wherever there is room. */
  lemma StepByOne(current: int, totalPages: int)
    requires 1 <= current <= totalPages && totalPages >= 2
    ensures current > 1 ==> Render(current, totalPages).value.previous == current - 1
    ensures current == 1 ==> Render(current, totalPages).value.previous == 1
    ensures current < totalPages ==> Render(current, totalPages).value.next == current + 1
    ensures current == totalPages ==> Render(current, totalPages).value.next == totalPages
  {
  }
}
