/** The pagination bar under the property list: the "Showing X to Y of Z"
    bounds, the Previous/Next links and the window of page numbers with the
    first/last links and ellipses. */
module Pagination {
  import opened Common
  import opened SearchParams
  import Decimal

  const MaxPagesToShow := 5
  const HalfMaxPages := 2  // floor(MaxPagesToShow / 2)
  const PageKey := "page"

  function Min(a: int, b: int): int { if a <= b then a else b }
  function Max(a: int, b: int): int { if a >= b then a else b }

  /** `createPageURL(n)`: the current query with `page` set to the decimal
      text of `n`, which `parseInt` reads back as `n`. */
  function CreatePageUrl(params: Params, n: int): (url: Url)
    ensures url.path == Home
    ensures PageKey in url.query && Decimal.ParseInt(url.query[PageKey]) == Some(n)
    ensures forall k :: k in url.query <==> k in params || k == PageKey
    ensures forall k :: k in params && k != PageKey ==> url.query[k] == params[k]
  {
    var text := Decimal.DecimalString(n);
    Decimal.ParseIntOfDecimal(n);
    Url(Home, params[PageKey := text])
  }

  /** First item shown on the page (0 for an empty result). */
  function StartItem(currentPage: int, pageSize: int, total: int): int {
    if total > 0 then (currentPage - 1) * pageSize + 1 else 0
  }

  /** Last item shown on the page. */
  function EndItem(currentPage: int, pageSize: int, total: int): int {
    Min(currentPage * pageSize, total)
  }

  /** For a page that holds items, the shown range lies inside 1..total and
      counts the items on the page: a full page, or the rest of the list. */
  lemma ShowingRange(currentPage: int, pageSize: int, total: int)
    requires pageSize > 0 && currentPage >= 1
    requires 0 <= (currentPage - 1) * pageSize < total
    ensures 1 <= StartItem(currentPage, pageSize, total) <= EndItem(currentPage, pageSize, total) <= total
    ensures EndItem(currentPage, pageSize, total) - StartItem(currentPage, pageSize, total) + 1
            == Min(pageSize, total - (currentPage - 1) * pageSize)
  {
  }

  /** An empty result shows "0 to 0 of 0" on any page from 1 on. */
  lemma ShowingEmpty(currentPage: int, pageSize: int)
    requires currentPage >= 1 && pageSize >= 0
    ensures StartItem(currentPage, pageSize, 0) == 0 && EndItem(currentPage, pageSize, 0) == 0
  {
  }

  /** A Previous or Next link: where it points and whether it is disabled. */
  datatype NavLink = NavLink(target: Url, disabled: bool)

  /** The Previous link: it leads to page `currentPage - 1` with the other
      query parameters kept, and is disabled from page 1 down. */
  function PreviousLink(params: Params, currentPage: int): (link: NavLink)
    ensures link.disabled <==> currentPage <= 1
    ensures link.target.path == Home
    ensures PageKey in link.target.query && Decimal.ParseInt(link.target.query[PageKey]) == Some(currentPage - 1)
    ensures forall k :: k in params && k != PageKey ==> k in link.target.query && link.target.query[k] == params[k]
  {
    NavLink(CreatePageUrl(params, currentPage - 1), currentPage <= 1)
  }

  /** The Next link: it leads to page `currentPage + 1` with the other query
      parameters kept, and is disabled from the last page up. */
  function NextLink(params: Params, currentPage: int, pageCount: int): (link: NavLink)
    ensures link.disabled <==> currentPage >= pageCount
    ensures link.target.path == Home
    ensures PageKey in link.target.query && Decimal.ParseInt(link.target.query[PageKey]) == Some(currentPage + 1)
    ensures forall k :: k in params && k != PageKey ==> k in link.target.query && link.target.query[k] == params[k]
  {
    NavLink(CreatePageUrl(params, currentPage + 1), currentPage >= pageCount)
  }

  /** On a page inside 1..pageCount, an enabled Previous or Next link leads
      to a page inside 1..pageCount. */
  lemma EnabledLinksStayInRange(params: Params, currentPage: int, pageCount: int)
    requires 1 <= currentPage <= pageCount
    ensures var prev := PreviousLink(params, currentPage);
            !prev.disabled ==> 1 <= Decimal.ParseInt(prev.target.query[PageKey]).value <= pageCount
    ensures var next := NextLink(params, currentPage, pageCount);
            !next.disabled ==> 1 <= Decimal.ParseInt(next.target.query[PageKey]).value <= pageCount
    ensures PreviousLink(params, currentPage).disabled <==> currentPage == 1
    ensures NextLink(params, currentPage, pageCount).disabled <==> currentPage == pageCount
  {
  }

  /** `[startPage, endPage]` of the window, as the component computes it. */
  function PageWindow(currentPage: int, pageCount: int): (w: (int, int))
    ensures pageCount >= 1 ==>
              1 <= w.0 <= w.1 <= pageCount && w.1 - w.0 + 1 == Min(MaxPagesToShow, pageCount)
    ensures 1 <= currentPage <= pageCount ==> w.0 <= currentPage <= w.1
    ensures pageCount == 0 ==> w.0 == 1 && w.1 == 0
  {
    var startPage := Max(1, currentPage - HalfMaxPages);
    var endPage := Min(pageCount, currentPage + HalfMaxPages);
    var endPage' := if currentPage - HalfMaxPages < 1 then Min(pageCount, MaxPagesToShow) else endPage;
    var startPage' := if currentPage + HalfMaxPages > pageCount then Max(1, pageCount - MaxPagesToShow + 1) else startPage;
    (startPage', endPage')
  }

  /** One rendered element of the page-number list. */
  datatype PageEntry = PageLink(page: int) | CurrentPage(page: int) | Ellipsis

  function Entry(i: int, currentPage: int): PageEntry {
    if i == currentPage then CurrentPage(i) else PageLink(i)
  }

  /** The entries of pages lo..hi. */
  function Span(lo: int, hi: int, currentPage: int): seq<PageEntry>
    decreases hi - lo + 1
  {
    if hi < lo then [] else Span(lo, hi - 1, currentPage) + [Entry(hi, currentPage)]
  }

  function Leading(startPage: int): seq<PageEntry> {
    if startPage > 1 then [PageLink(1)] + (if startPage > 2 then [Ellipsis] else []) else []
  }

  function Trailing(endPage: int, pageCount: int): seq<PageEntry> {
    if endPage < pageCount - 1 then [Ellipsis, PageLink(pageCount)]
    else if endPage < pageCount then [PageLink(pageCount)]
    else []
  }

  /** The list around the window [s, e]: the first page and an ellipsis
      before it, its pages, and an ellipsis and the last page after it. */
  function Layout(s: int, e: int, currentPage: int, pageCount: int): seq<PageEntry> {
    Leading(s) + Span(s, e, currentPage) + Trailing(e, pageCount)
  }

  /** The whole page-number list. */
  function PageEntries(currentPage: int, pageCount: int): seq<PageEntry> {
    var w := PageWindow(currentPage, pageCount);
    Layout(w.0, w.1, currentPage, pageCount)
  }

  /** The window step of the builder: centre on the current page, then
      shift the window when it runs past the first or the last page. */
  method AdjustWindow(currentPage: int, pageCount: int) returns (startPage: int, endPage: int)
    ensures (startPage, endPage) == PageWindow(currentPage, pageCount)
  {
    startPage := Max(1, currentPage - HalfMaxPages);
    endPage := Min(pageCount, currentPage + HalfMaxPages);
    if currentPage - HalfMaxPages < 1 {
      endPage := Min(pageCount, MaxPagesToShow);
    }
    if currentPage + HalfMaxPages > pageCount {
      startPage := Max(1, pageCount - MaxPagesToShow + 1);
    }
  }

  /** The page-number builder: adjusts the window near either end, then
      pushes the first link, the leading ellipsis, the window, the trailing
      ellipsis and the last link. */
  method BuildPageNumbers(currentPage: int, pageCount: int) returns (pageNumbers: seq<PageEntry>)
    ensures pageNumbers == PageEntries(currentPage, pageCount)
  {
    pageNumbers := [];
    var startPage, endPage := AdjustWindow(currentPage, pageCount);
    if startPage > 1 {
      pageNumbers := pageNumbers + [PageLink(1)];
      if startPage > 2 {
        pageNumbers := pageNumbers + [Ellipsis];
      }
    }
    ghost var lead := pageNumbers;
    assert lead == Leading(startPage);
    var i := startPage;
    while i <= endPage
      invariant startPage <= i && (i <= endPage + 1 || i == startPage)
      invariant pageNumbers == lead + Span(startPage, i - 1, currentPage)
      decreases endPage - i
    {
      assert lead + Span(startPage, i - 1, currentPage) + [Entry(i, currentPage)]
          == lead + Span(startPage, i, currentPage);
      pageNumbers := pageNumbers + [if i == currentPage then CurrentPage(i) else PageLink(i)];
      i := i + 1;
    }
    assert Span(startPage, i - 1, currentPage) == Span(startPage, endPage, currentPage);
    ghost var window := pageNumbers;
    if endPage < pageCount {
      if endPage < pageCount - 1 {
        pageNumbers := pageNumbers + [Ellipsis];
      }
      pageNumbers := pageNumbers + [PageLink(pageCount)];
      if endPage < pageCount - 1 {
        assert window + [Ellipsis] + [PageLink(pageCount)] == window + [Ellipsis, PageLink(pageCount)];
      }
    }
    assert pageNumbers == Layout(startPage, endPage, currentPage, pageCount);
  }

  /** The window's entries are the pages lo..hi in order, and only the
      current page is not a link. */
  lemma {:induction false} SpanPages(lo: int, hi: int, currentPage: int)
    requires lo <= hi + 1
    ensures |Span(lo, hi, currentPage)| == hi - lo + 1
    ensures forall k :: 0 <= k < hi - lo + 1 ==>
              Span(lo, hi, currentPage)[k] == Entry(lo + k, currentPage)
    decreases hi - lo + 1
  {
    if hi >= lo {
      SpanPages(lo, hi - 1, currentPage);
    }
  }

  predicate IsPage(e: PageEntry) { !e.Ellipsis? }

  /** How many entries stand before and after the window [s, e]. */
  function LeadLength(s: int): nat {
    if s > 2 then 2 else if s == 2 then 1 else 0
  }

  function TrailLength(e: int, pageCount: int): nat {
    if e < pageCount - 1 then 2 else if e == pageCount - 1 then 1 else 0
  }

  /** What stands at position `k` of the list for the window [s, e]. */
  function ExpectedAt(s: int, e: int, currentPage: int, pageCount: int, k: int): PageEntry {
    var l := LeadLength(s);
    if k < l then (if k == 0 then PageLink(1) else Ellipsis)
    else if k < l + (e - s + 1) then Entry(s + k - l, currentPage)
    else if k == l + (e - s + 1) + TrailLength(e, pageCount) - 1 then PageLink(pageCount)
    else Ellipsis
  }

  /** `entries` is the list around the window [s, e], given position by
      position. */
  ghost predicate LaidOut(entries: seq<PageEntry>, s: int, e: int, currentPage: int, pageCount: int) {
    && 1 <= s <= e <= pageCount
    && |entries| == LeadLength(s) + (e - s + 1) + TrailLength(e, pageCount)
    && forall k :: 0 <= k < |entries| ==> entries[k] == ExpectedAt(s, e, currentPage, pageCount, k)
  }

  /** The entry of the list around [s, e] at position `k`. */
  lemma LayoutAt(s: int, e: int, currentPage: int, pageCount: int, k: int)
    requires 1 <= s <= e <= pageCount
    ensures |Layout(s, e, currentPage, pageCount)| == LeadLength(s) + (e - s + 1) + TrailLength(e, pageCount)
    ensures 0 <= k < |Layout(s, e, currentPage, pageCount)| ==>
              Layout(s, e, currentPage, pageCount)[k] == ExpectedAt(s, e, currentPage, pageCount, k)
  {
    var entries := Layout(s, e, currentPage, pageCount);
    var lead, mid, trail := Leading(s), Span(s, e, currentPage), Trailing(e, pageCount);
    SpanPages(s, e, currentPage);
    var l, m := |lead|, e - s + 1;
    if 0 <= k < |entries| {
      if k < l {
        assert entries[k] == lead[k];
      } else if k < l + m {
        assert entries[k] == mid[k - l];
      } else {
        assert entries[k] == trail[k - l - m];
      }
    }
  }

  /** Every entry of the list, by position. */
  lemma PageEntriesAt(currentPage: int, pageCount: int)
    requires pageCount >= 1
    ensures var w := PageWindow(currentPage, pageCount);
            LaidOut(PageEntries(currentPage, pageCount), w.0, w.1, currentPage, pageCount)
  {
    var (s, e) := PageWindow(currentPage, pageCount);
    assert PageEntries(currentPage, pageCount) == Layout(s, e, currentPage, pageCount);
    LayoutAt(s, e, currentPage, pageCount, 0);
    forall k | 0 <= k < |Layout(s, e, currentPage, pageCount)|
      ensures Layout(s, e, currentPage, pageCount)[k] == ExpectedAt(s, e, currentPage, pageCount, k)
    {
      LayoutAt(s, e, currentPage, pageCount, k);
    }
  }

  /** Pages rise strictly from 1 to pageCount in any laid-out list. */
  lemma LaidOutIncreasing(entries: seq<PageEntry>, s: int, e: int, currentPage: int, pageCount: int)
    requires LaidOut(entries, s, e, currentPage, pageCount)
    requires 1 <= currentPage <= pageCount ==> s <= currentPage <= e
    ensures |entries| > 0
    ensures entries[0] == Entry(1, currentPage) && entries[|entries| - 1] == Entry(pageCount, currentPage)
    ensures forall i, j :: 0 <= i < j < |entries| && IsPage(entries[i]) && IsPage(entries[j])
              ==> entries[i].page < entries[j].page
    ensures forall k :: 0 <= k < |entries| && IsPage(entries[k]) ==> 1 <= entries[k].page <= pageCount
  {
    assert entries[0] == ExpectedAt(s, e, currentPage, pageCount, 0);
    assert entries[|entries| - 1] == ExpectedAt(s, e, currentPage, pageCount, |entries| - 1);
    forall i, j | 0 <= i < j < |entries| && IsPage(entries[i]) && IsPage(entries[j])
      ensures entries[i].page < entries[j].page
    {
      assert entries[i] == ExpectedAt(s, e, currentPage, pageCount, i);
      assert entries[j] == ExpectedAt(s, e, currentPage, pageCount, j);
    }
  }

  /** In any laid-out list, neighbouring pages are consecutive and every
      ellipsis stands between two pages with a gap. */
  lemma LaidOutGaps(entries: seq<PageEntry>, s: int, e: int, currentPage: int, pageCount: int)
    requires LaidOut(entries, s, e, currentPage, pageCount)
    ensures forall k :: 0 <= k < |entries| - 1 && IsPage(entries[k]) && IsPage(entries[k + 1])
              ==> entries[k + 1].page == entries[k].page + 1
    ensures forall k :: 0 <= k < |entries| && entries[k].Ellipsis? ==>
              0 < k < |entries| - 1 && IsPage(entries[k - 1]) && IsPage(entries[k + 1])
              && entries[k + 1].page > entries[k - 1].page + 1
  {
    forall k | 0 <= k < |entries| && entries[k].Ellipsis?
      ensures 0 < k < |entries| - 1 && IsPage(entries[k - 1]) && IsPage(entries[k + 1])
      ensures entries[k + 1].page > entries[k - 1].page + 1
    {
      assert entries[k] == ExpectedAt(s, e, currentPage, pageCount, k);
      assert entries[k - 1] == ExpectedAt(s, e, currentPage, pageCount, k - 1);
      assert entries[k + 1] == ExpectedAt(s, e, currentPage, pageCount, k + 1);
    }
  }

  /** The page numbers rise strictly from page 1 to the last page and stay
      inside 1..pageCount. */
  lemma PagesIncrease(currentPage: int, pageCount: int)
    requires pageCount >= 1
    ensures var entries := PageEntries(currentPage, pageCount);
            && |entries| > 0
            && entries[0] == Entry(1, currentPage)
            && entries[|entries| - 1] == Entry(pageCount, currentPage)
            && (forall i, j :: 0 <= i < j < |entries| && IsPage(entries[i]) && IsPage(entries[j])
                  ==> entries[i].page < entries[j].page)
            && (forall k :: 0 <= k < |entries| && IsPage(entries[k]) ==> 1 <= entries[k].page <= pageCount)
  {
    var (s, e) := PageWindow(currentPage, pageCount);
    PageEntriesAt(currentPage, pageCount);
    LaidOutIncreasing(PageEntries(currentPage, pageCount), s, e, currentPage, pageCount);
  }

  /** Neighbouring pages are consecutive unless an ellipsis stands between
      them, and an ellipsis stands only between two pages with a gap. */
  lemma EllipsesMarkGaps(currentPage: int, pageCount: int)
    requires pageCount >= 1
    ensures var entries := PageEntries(currentPage, pageCount);
            && (forall k :: 0 <= k < |entries| - 1 && IsPage(entries[k]) && IsPage(entries[k + 1])
                  ==> entries[k + 1].page == entries[k].page + 1)
            && (forall k :: 0 <= k < |entries| && entries[k].Ellipsis? ==>
                  0 < k < |entries| - 1 && IsPage(entries[k - 1]) && IsPage(entries[k + 1])
                  && entries[k + 1].page > entries[k - 1].page + 1)
  {
    var (s, e) := PageWindow(currentPage, pageCount);
    PageEntriesAt(currentPage, pageCount);
    LaidOutGaps(PageEntries(currentPage, pageCount), s, e, currentPage, pageCount);
  }

  /** In a laid-out list whose window holds the current page, that page
      appears and no other entry is marked current. */
  lemma LaidOutCurrent(entries: seq<PageEntry>, s: int, e: int, currentPage: int, pageCount: int)
    requires LaidOut(entries, s, e, currentPage, pageCount)
    requires s <= currentPage <= e
    ensures forall k :: 0 <= k < |entries| && entries[k].CurrentPage? ==> entries[k].page == currentPage
    ensures CurrentPage(currentPage) in entries
  {
    forall k | 0 <= k < |entries| && entries[k].CurrentPage?
      ensures entries[k].page == currentPage
    {
      assert entries[k] == ExpectedAt(s, e, currentPage, pageCount, k);
    }
    var k := LeadLength(s) + currentPage - s;
    assert entries[k] == ExpectedAt(s, e, currentPage, pageCount, k);
  }

  /** The current page appears, and it is the only entry that is not a link. */
  lemma CurrentPageOnly(currentPage: int, pageCount: int)
    requires 1 <= currentPage <= pageCount
    ensures var entries := PageEntries(currentPage, pageCount);
            && (forall k :: 0 <= k < |entries| && entries[k].CurrentPage? ==> entries[k].page == currentPage)
            && CurrentPage(currentPage) in entries
  {
    var (s, e) := PageWindow(currentPage, pageCount);
    PageEntriesAt(currentPage, pageCount);
    LaidOutCurrent(PageEntries(currentPage, pageCount), s, e, currentPage, pageCount);
  }

  /** With no pages there is nothing to number, whatever the current page. */
  lemma NoPagesNoEntries(currentPage: int)
    ensures PageEntries(currentPage, 0) == []
  {
  }
}
