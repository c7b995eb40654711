/**
 * The pagination bar: which page numbers it shows around the current page,
 * where it elides a run of pages with "...", and when its previous and next
 * buttons are enabled and which page they ask for.
 */
module Pagination {

  /** An entry of the bar: a page number button, or a "..." marker. */
  datatype PageItem = Page(n: int) | Ellipsis

  /** At most this many entries fit: 3 on a narrow screen, 7 otherwise. */
  function MaxVisible(mobile: bool): nat {
    if mobile then 3 else 7
  }

  /** The pages `lo`, `lo + 1`, ..., `hi` in ascending order; none when `hi < lo`. */
  function Range(lo: int, hi: int): (r: seq<PageItem>)
    ensures |r| == if hi < lo then 0 else hi - lo + 1
    ensures forall i :: 0 <= i < |r| ==> r[i] == Page(lo + i)
    decreases hi - lo
  {
    if hi < lo then [] else Range(lo, hi - 1) + [Page(hi)]
  }

  /**
   * The entries `getPageNumbers` returns for `current` of `total` pages:
   * every page when they all fit; on a narrow screen the current page and
   * its neighbours; otherwise the first and last page, a window of five
   * around the current page or at the nearer end, and "..." for each gap.
   */
  function Window(current: int, total: int, mobile: bool): (w: seq<PageItem>)
    ensures |w| <= MaxVisible(mobile)
    ensures total >= 1 ==> |w| >= 1
  {
    if total <= MaxVisible(mobile) then Range(1, total)
    else if mobile then
      (if current > 1 then [Page(current - 1)] else [])
      + [Page(current)]
      + (if current < total then [Page(current + 1)] else [])
    else if current <= 4 then Range(1, 5) + [Ellipsis, Page(total)]
    else if current >= total - 3 then [Page(1), Ellipsis] + Range(total - 4, total)
    else [Page(1), Ellipsis] + Range(current - 1, current + 1) + [Ellipsis, Page(total)]
  }

  /** `getPageNumbers`: builds the entries by pushing them one at a time. */
  method PageNumbers(current: int, total: int, mobile: bool) returns (pages: seq<PageItem>)
    ensures pages == Window(current, total, mobile)
  {
    pages := [];
    var maxVisible := if mobile then 3 else 7;
    if total <= maxVisible {
      var i := 1;
      while i <= total
        invariant 1 <= i <= if total < 1 then 1 else total + 1
        invariant pages == Range(1, i - 1)
      {
        pages := pages + [Page(i)];
        i := i + 1;
      }
      assert total < 1 ==> Range(1, total) == [] == pages;
    } else if mobile {
      if current > 1 {
        pages := pages + [Page(current - 1)];
      }
      pages := pages + [Page(current)];
      if current < total {
        pages := pages + [Page(current + 1)];
      }
    } else if current <= 4 {
      var i := 1;
      while i <= 5
        invariant 1 <= i <= 6
        invariant pages == Range(1, i - 1)
      {
        pages := pages + [Page(i)];
        i := i + 1;
      }
      pages := pages + [Ellipsis];
      pages := pages + [Page(total)];
    } else if current >= total - 3 {
      pages := pages + [Page(1)];
      pages := pages + [Ellipsis];
      var i := total - 4;
      while i <= total
        invariant total - 4 <= i <= total + 1
        invariant pages == [Page(1), Ellipsis] + Range(total - 4, i - 1)
      {
        pages := pages + [Page(i)];
        i := i + 1;
      }
    } else {
      pages := pages + [Page(1)];
      pages := pages + [Ellipsis];
      var i := current - 1;
      while i <= current + 1
        invariant current - 1 <= i <= current + 2
        invariant pages == [Page(1), Ellipsis] + Range(current - 1, i - 1)
      {
        pages := pages + [Page(i)];
        i := i + 1;
      }
      pages := pages + [Ellipsis];
      pages := pages + [Page(total)];
    }
  }

  // ---------------------------------------------------------------------------
  // Properties of the window.

  /** The page numbers among the entries, in order. */
  function PagesShown(pages: seq<PageItem>): (r: seq<int>)
    ensures |r| <= |pages|
  {
    if pages == [] then []
    else (if pages[0].Page? then [pages[0].n] else []) + PagesShown(pages[1..])
  }

  /**
   * Page numbers appear in increasing order: two adjacent numbers are
   * consecutive pages, and a "..." stands between two pages exactly when
   * pages are left out there. No entry is "..." at either end.
   */
  ghost predicate Faithful(pages: seq<PageItem>) {
    && (pages != [] ==> pages[0].Page? && pages[|pages| - 1].Page?)
    && (forall i :: 0 <= i < |pages| - 1 && pages[i].Page? && pages[i + 1].Page? ==>
          pages[i + 1].n == pages[i].n + 1)
    && (forall i :: 0 < i < |pages| - 1 && pages[i].Ellipsis? ==>
          pages[i - 1].Page? && pages[i + 1].Page? && pages[i + 1].n > pages[i - 1].n + 1)
  }

  /** Every page number shown lies between 1 and `total`. */
  ghost predicate InBounds(pages: seq<PageItem>, total: int) {
    forall i :: 0 <= i < |pages| && pages[i].Page? ==> 1 <= pages[i].n <= total
  }

  /** The window shows pages in order, marks every gap and only gaps, and stays within the page range. */
  lemma WindowFaithful(current: int, total: int, mobile: bool)
    requires 1 <= current <= total
    ensures Faithful(Window(current, total, mobile))
    ensures InBounds(Window(current, total, mobile), total)
  {
    var w := Window(current, total, mobile);
    if total <= MaxVisible(mobile) {
      assert w == Range(1, total);
    } else if mobile {
      MobileWindow(current, total);
    } else {
      DesktopFaithful(current, total);
    }
  }

  /** The three wide-screen layouts for more than seven pages. */
  lemma DesktopFaithful(current: int, total: int)
    requires 1 <= current <= total && total > 7
    ensures Faithful(Window(current, total, false))
    ensures InBounds(Window(current, total, false), total)
  {
    if current <= 4 {
      DesktopStart(current, total);
    } else if current >= total - 3 {
      DesktopEnd(current, total);
    } else {
      DesktopMiddle(current, total);
    }
  }

  /** Near the first page: pages 1 to 5, "...", the last page. */
  lemma DesktopStart(current: int, total: int)
    requires current <= 4 && total > 7
    ensures Window(current, total, false) == [Page(1), Page(2), Page(3), Page(4), Page(5), Ellipsis, Page(total)]
    ensures Faithful(Window(current, total, false)) && InBounds(Window(current, total, false), total)
  {
    assert Window(current, total, false) == [Page(1), Page(2), Page(3), Page(4), Page(5), Ellipsis, Page(total)];
  }

  /** Near the last page: the first page, "...", the last five pages. */
  lemma DesktopEnd(current: int, total: int)
    requires 4 < current && current >= total - 3 && total > 7
    ensures Window(current, total, false) ==
            [Page(1), Ellipsis, Page(total - 4), Page(total - 3), Page(total - 2), Page(total - 1), Page(total)]
    ensures Faithful(Window(current, total, false)) && InBounds(Window(current, total, false), total)
  {
    assert Window(current, total, false) ==
           [Page(1), Ellipsis, Page(total - 4), Page(total - 3), Page(total - 2), Page(total - 1), Page(total)];
  }

  /** In between: the first page, "...", the current page and its neighbours, "...", the last page. */
  lemma DesktopMiddle(current: int, total: int)
    requires 4 < current < total - 3 && total > 7
    ensures Window(current, total, false) ==
            [Page(1), Ellipsis, Page(current - 1), Page(current), Page(current + 1), Ellipsis, Page(total)]
    ensures Faithful(Window(current, total, false)) && InBounds(Window(current, total, false), total)
  {
    assert Window(current, total, false) ==
           [Page(1), Ellipsis, Page(current - 1), Page(current), Page(current + 1), Ellipsis, Page(total)];
  }

  /** The current page is always among the entries. */
  lemma WindowShowsCurrent(current: int, total: int, mobile: bool)
    requires 1 <= current <= total
    ensures Page(current) in Window(current, total, mobile)
  {
    var w := Window(current, total, mobile);
    if total <= MaxVisible(mobile) {
      assert w[current - 1] == Page(current);
    } else if !mobile {
      if current <= 4 {
        assert w[current - 1] == Page(current);
      } else if current >= total - 3 {
        assert w[current - total + 6] == Page(current);
      } else {
        assert w[3] == Page(current);
      }
    }
  }

  /** On a wide screen the first and the last page are always reachable from the bar. */
  lemma WindowEnds(current: int, total: int)
    requires 1 <= total
    ensures var w := Window(current, total, false);
            |w| >= 1 && w[0] == Page(1) && w[|w| - 1] == Page(total)
  {
  }

  /** When every page fits, the bar lists them all, in order. */
  lemma WindowAllFit(current: int, total: int, mobile: bool)
    requires total <= MaxVisible(mobile)
    ensures PagesShown(Window(current, total, mobile)) == seq(if total < 1 then 0 else total, i => i + 1)
  {
    var w := Window(current, total, mobile);
    AllPagesShown(w);
  }

  /** A run of page entries lists exactly their numbers. */
  lemma {:induction false} AllPagesShown(pages: seq<PageItem>)
    requires forall i :: 0 <= i < |pages| ==> pages[i].Page?
    ensures PagesShown(pages) == seq(|pages|, i requires 0 <= i < |pages| => pages[i].n)
  {
    if pages != [] {
      AllPagesShown(pages[1..]);
    }
  }

  /** On a narrow screen with more than three pages: the neighbours that exist, around the current page. */
  lemma MobileWindow(current: int, total: int)
    requires total > 3 && 1 <= current <= total
    ensures var w := Window(current, total, true);
            && (current == 1 ==> w == [Page(1), Page(2)])
            && (current == total ==> w == [Page(total - 1), Page(total)])
            && (1 < current < total ==> w == [Page(current - 1), Page(current), Page(current + 1)])
  {
  }

  // ---------------------------------------------------------------------------
  // The previous and next buttons.

  /** A navigation button: whether it is disabled, and the page a click asks for. */
  datatype Button = Button(disabled: bool, target: int)

  /** The previous button asks for the page before and is disabled on the first page. */
  function Previous(current: int): (b: Button)
    ensures b.target == current - 1
    ensures b.disabled <==> current == 1
    ensures current >= 1 ==> (b.disabled <==> b.target < 1)
  {
    Button(current == 1, current - 1)
  }

  /** The next button asks for the page after and is disabled on the last page. */
  function Next(current: int, total: int): (b: Button)
    ensures b.target == current + 1
    ensures b.disabled <==> current == total
    ensures current <= total ==> (b.disabled <==> b.target > total)
  {
    Button(current == total, current + 1)
  }

  /**
   * Within the page range, a button is enabled exactly when the page it
   * asks for exists, so no click leaves the range.
   */
  lemma ButtonsStayInRange(current: int, total: int)
    requires 1 <= current <= total
    ensures !Previous(current).disabled <==> 1 <= Previous(current).target <= total
    ensures !Next(current, total).disabled <==> 1 <= Next(current, total).target <= total
  {
  }
}
