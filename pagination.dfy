/** The arithmetic of `display_page` in widgets.py: how many pages a cached entry list
    has, which page is shown, which entries it holds and which page buttons appear;
    plus the "safe page" that a periodic refresh re-displays. */
module Pagination {
  import Config
  import PySeq

  const PER_PAGE := Config.ARTICLES_PER_PAGE

  /** Most page-number buttons drawn at once. */
  const MAX_BUTTONS := 5

  /** `total_pages` for `n` cached entries. */
  function TotalPages(n: nat): (t: int)
    ensures t >= 0
  {
    var pages := (n + PER_PAGE - 1) / PER_PAGE;
    if n > 0 then (if pages < 1 then 1 else pages) else 0
  }

  /** The page count is ceil(n / 12): enough pages for every entry, and no page left empty;
      it is 0 exactly when there are no entries. */
  lemma TotalPagesIsCeiling(n: nat)
    ensures TotalPages(n) == 0 <==> n == 0
    ensures n <= TotalPages(n) * 12
    ensures TotalPages(n) == 0 || (TotalPages(n) - 1) * 12 < n
  {
    var t := TotalPages(n);
    if n > 0 {
      var q, r := n / 12, n % 12;
      assert n == 12 * q + r && 0 <= r < 12;
      if r == 0 {
        assert (n + 11) / 12 == q;
      } else {
        assert n + 11 == 12 * (q + 1) + (r - 1);
        assert (n + 11) / 12 == q + 1;
      }
    }
  }

  /** The page actually shown for a requested page: the request clamped into
      [1, total], or 1 when there are no pages. */
  function ClampPage(requested: int, total: int): (p: int)
    ensures 1 <= p
    ensures total > 0 ==> p <= total
  {
    if total > 0 then
      (if requested < 1 then 1 else if requested > total then total else requested)
    else 1
  }

  function Dist(a: int, b: int): nat {
    if a <= b then b - a else a - b
  }

  /** The clamped page is the valid page nearest the request, and an in-range request is kept. */
  lemma ClampIsNearest(requested: int, total: nat, q: int)
    requires total > 0 && 1 <= q <= total
    ensures Dist(ClampPage(requested, total), requested) <= Dist(q, requested)
    ensures 1 <= requested <= total ==> ClampPage(requested, total) == requested
  {
  }

  /** `entries[(page - 1) * 12 : page * 12]`. */
  function PageItems<T>(entries: seq<T>, page: int): seq<T> {
    var start := (page - 1) * PER_PAGE;
    PySeq.Slice(entries, start, start + PER_PAGE)
  }

  /** A page in range holds between 1 and 12 entries: the ones at positions
      (page - 1) * 12 up to page * 12, cut off at the end of the list. */
  lemma PageItemsAre<T>(entries: seq<T>, page: int)
    requires 1 <= page <= TotalPages(|entries|)
    ensures (page - 1) * 12 < |entries|
    ensures PageItems(entries, page) == entries[(page - 1) * 12 .. PySeq.Min(page * 12, |entries|)]
    ensures 1 <= |PageItems(entries, page)| <= 12
  {
    TotalPagesIsCeiling(|entries|);
    PySeq.SliceForward(entries, (page - 1) * 12, (page - 1) * 12 + 12);
  }

  /** Pages 1 to k laid end to end. */
  function FirstPages<T>(entries: seq<T>, k: nat): seq<T> {
    if k == 0 then [] else FirstPages(entries, k - 1) + PageItems(entries, k)
  }

  lemma {:induction false} FirstPagesPrefix<T>(entries: seq<T>, k: nat)
    ensures FirstPages(entries, k) == entries[..PySeq.Min(k * 12, |entries|)]
  {
    if k > 0 {
      FirstPagesPrefix(entries, k - 1);
      PySeq.SliceForward(entries, (k - 1) * 12, (k - 1) * 12 + 12);
      var a, b := PySeq.Min((k - 1) * 12, |entries|), PySeq.Min(k * 12, |entries|);
      assert entries[..b] == entries[..a] + entries[a..b];
    }
  }

  /** Pages 1 to TotalPages, in order, are exactly the cached entries: every entry is on
      one page and the pages do not overlap. */
  lemma PagesPartition<T>(entries: seq<T>)
    ensures FirstPages(entries, TotalPages(|entries|)) == entries
  {
    TotalPagesIsCeiling(|entries|);
    FirstPagesPrefix(entries, TotalPages(|entries|));
  }

  /** First and last page number of the button window for `page` out of `total`. */
  function WindowBounds(page: int, total: nat): (int, int) {
    if total <= MAX_BUTTONS then (1, total)
    else
      var start := if page - MAX_BUTTONS / 2 < 1 then 1 else page - MAX_BUTTONS / 2;
      var end := if total < start + MAX_BUTTONS - 1 then total else start + MAX_BUTTONS - 1;
      if end - start < MAX_BUTTONS - 1 then
        ((if total - MAX_BUTTONS + 1 < 1 then 1 else total - MAX_BUTTONS + 1), end)
      else (start, end)
  }

  /** `range(start, end + 1)`. */
  function Range(lo: int, hi: int): (r: seq<int>)
    ensures |r| == if hi < lo then 0 else hi - lo + 1
    ensures forall i :: 0 <= i < |r| ==> r[i] == lo + i
  {
    if hi < lo then [] else seq(hi - lo + 1, i => lo + i)
  }

  /** The page numbers drawn as buttons. */
  function Window(page: int, total: nat): seq<int> {
    Range(WindowBounds(page, total).0, WindowBounds(page, total).1)
  }

  /** The button window holds min(5, total) consecutive page numbers, all valid, one of them
      the current page; away from both ends the current page sits in the middle. */
  lemma WindowShape(page: int, total: nat)
    requires 1 <= page <= total
    ensures var w := Window(page, total);
      && |w| == PySeq.Min(5, total)
      && page in w
      && (forall i :: 0 <= i < |w| ==> 1 <= w[i] <= total)
      && (forall i :: 0 < i < |w| ==> w[i] == w[i - 1] + 1)
      && (total > 5 && 3 <= page <= total - 2 ==> w[2] == page)
  {
    var w := Window(page, total);
    var b := WindowBounds(page, total);
    assert w[page - b.0] == page;
  }

  /** Example windows on a 20-page list: at the first, a middle and the last page. */
  lemma WindowExamples()
    ensures Window(1, 20) == [1, 2, 3, 4, 5]
    ensures Window(10, 20) == [8, 9, 10, 11, 12]
    ensures Window(20, 20) == [16, 17, 18, 19, 20]
  {
  }

  /** Everything `display_page` draws that is not styling. */
  datatype PageView<T> = PageView(
    totalPages: nat,
    page: int,
    items: seq<T>,
    buttons: seq<int>,
    prevEnabled: bool,
    nextEnabled: bool)

  /** `display_page` for a cached entry list and a requested page; the navigation bar
      (buttons, Previous, Next) exists only when there is more than one page. */
  function Show<T>(entries: seq<T>, requested: int): (v: PageView<T>)
    ensures v.totalPages == TotalPages(|entries|) && v.page == ClampPage(requested, v.totalPages)
    ensures v.items == PageItems(entries, v.page)
  {
    var total := TotalPages(|entries|);
    var page := ClampPage(requested, total);
    var nav := total > 1;
    PageView(total, page, PageItems(entries, page),
             if nav then Window(page, total) else [],
             nav && page != 1, nav && page != total)
  }

  /** What `display_page` shows: a page in range whose entries are that page of the list;
      nothing only when there are no entries; Previous only after page 1, Next only before
      the last page, and a button for the page itself. */
  lemma ShowIsConsistent<T>(entries: seq<T>, requested: int)
    ensures var v := Show(entries, requested);
      && (entries == [] <==> v.totalPages == 0)
      && (entries == [] ==> v.page == 1 && v.items == [] && v.buttons == [])
      && (entries != [] ==> 1 <= v.page <= v.totalPages && 1 <= |v.items| <= 12)
      && (v.prevEnabled <==> v.totalPages > 1 && v.page > 1)
      && (v.nextEnabled <==> v.totalPages > 1 && v.page < v.totalPages)
      && (v.totalPages > 1 ==> v.page in v.buttons)
  {
    var v := Show(entries, requested);
    TotalPagesIsCeiling(|entries|);
    if entries != [] {
      PageItemsAre(entries, v.page);
      if v.totalPages > 1 { WindowShape(v.page, v.totalPages); }
    }
  }

  /** `periodic_refresh`'s page after a refresh yields `n` entries: the current page,
      but no further than the last page (and at least 1). */
  function SafePage(currentPage: int, n: nat): int {
    var pages := (n + PER_PAGE - 1) / PER_PAGE;
    var atLeastOne := if pages < 1 then 1 else pages;
    if currentPage < atLeastOne then currentPage else atLeastOne
  }

  /** From a valid cursor, the safe page is min(current, max(1, TotalPages)), and
      displaying it shows exactly it. */
  lemma SafePageIsShown(currentPage: int, n: nat)
    requires currentPage >= 1
    ensures var t := TotalPages(n);
      var safe := SafePage(currentPage, n);
      && safe == PySeq.Min(currentPage, if t < 1 then 1 else t)
      && ClampPage(safe, t) == safe
  {
  }
}
