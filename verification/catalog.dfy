/**
 * The catalog tab of the dashboard (app.py): the filtered rows sorted by
 * price, the number of pages, the page counter kept in the session with
 * its Prev, Next and jump controls, and the slice of rows one page shows.
 */
module Catalog {
  import opened Wrappers
  import opened DataProcessing
  import opened Sanitize

  // ---------------------------------------------------------------- sort_values(by='price_usd')

  /** Ascending by price, missing prices last (`na_position='last'`). */
  predicate PriceLe(a: Option<real>, b: Option<real>)
  {
    b.None? || (a.Some? && a.value <= b.value)
  }

  predicate SortedByPrice(s: seq<Laptop>)
  {
    forall i, j :: 0 <= i < j < |s| ==> PriceLe(s[i].priceUsd, s[j].priceUsd)
  }

  /** Puts `x` before the first row whose price it does not exceed. */
  function InsertByPrice(x: Laptop, s: seq<Laptop>): seq<Laptop>
  {
    if s == [] || PriceLe(x.priceUsd, s[0].priceUsd) then [x] + s else [s[0]] + InsertByPrice(x, s[1..])
  }

  lemma {:induction false} InsertByPriceMultiset(x: Laptop, s: seq<Laptop>)
    ensures multiset(InsertByPrice(x, s)) == multiset(s) + multiset{x}
  {
    if s != [] && !PriceLe(x.priceUsd, s[0].priceUsd) {
      InsertByPriceMultiset(x, s[1..]);
      assert s == [s[0]] + s[1..];
    }
  }

  lemma {:induction false} InsertByPriceLowerBound(x: Laptop, s: seq<Laptop>, lo: Option<real>)
    requires PriceLe(lo, x.priceUsd) && forall k :: 0 <= k < |s| ==> PriceLe(lo, s[k].priceUsd)
    ensures forall k :: 0 <= k < |InsertByPrice(x, s)| ==> PriceLe(lo, InsertByPrice(x, s)[k].priceUsd)
  {
    if s != [] && !PriceLe(x.priceUsd, s[0].priceUsd) {
      InsertByPriceLowerBound(x, s[1..], lo);
    }
  }

  lemma {:induction false} InsertByPriceSorted(x: Laptop, s: seq<Laptop>)
    requires SortedByPrice(s)
    ensures SortedByPrice(InsertByPrice(x, s))
  {
    var r := InsertByPrice(x, s);
    if s == [] || PriceLe(x.priceUsd, s[0].priceUsd) {
      forall i, j | 0 <= i < j < |r|
        ensures PriceLe(r[i].priceUsd, r[j].priceUsd)
      {
        if i == 0 && j > 1 {
          assert PriceLe(s[0].priceUsd, s[j - 1].priceUsd);
        }
      }
    } else {
      var t := InsertByPrice(x, s[1..]);
      InsertByPriceSorted(x, s[1..]);
      InsertByPriceLowerBound(x, s[1..], s[0].priceUsd);
      forall i, j | 0 <= i < j < |r|
        ensures PriceLe(r[i].priceUsd, r[j].priceUsd)
      {
        if i > 0 {
          assert r[i] == t[i - 1];
        }
        assert r[j] == t[j - 1];
      }
    }
  }

  /**
   * `filtered.sort_values(by='price_usd')`: the same rows, cheapest first,
   * rows without a price at the end.
   */
  function SortByPrice(rows: seq<Laptop>): (r: seq<Laptop>)
    ensures SortedByPrice(r)
    ensures multiset(r) == multiset(rows)
    ensures |r| == |rows|
  {
    if rows == [] then []
    else
      var rest := SortByPrice(rows[1..]);
      InsertByPriceSorted(rows[0], rest);
      InsertByPriceMultiset(rows[0], rest);
      assert rows == [rows[0]] + rows[1..];
      assert |multiset(InsertByPrice(rows[0], rest))| == |multiset(rows)|;
      InsertByPrice(rows[0], rest)
  }

  // ---------------------------------------------------------------- pages

  /** The bounds of the "models per page" input. */
  const MinPageSize: nat := 3
  const MaxPageSize: nat := 60

  /**
   * `max(1, ceil(total / page_size))`: the fewest pages of `pageSize` rows
   * that hold `total` rows, and at least one.
   */
  function TotalPages(total: nat, pageSize: nat): (n: nat)
    requires pageSize > 0
    ensures n >= 1
    ensures total <= n * pageSize
    ensures total > 0 ==> (n - 1) * pageSize < total
    ensures total == 0 ==> n == 1
  {
    if total == 0 then 1 else (total + pageSize - 1) / pageSize
  }

  /** The first row index of page `page`: `pageSize` rows for each page before it. */
  function PageStart(page: int, pageSize: nat): (start: nat)
    requires page >= 1
    decreases page
  {
    if page == 1 then 0 else PageStart(page - 1, pageSize) + pageSize
  }

  /** `start = (page - 1) * page_size`. */
  lemma {:induction false} PageStartIs(page: int, pageSize: nat)
    requires page >= 1
    ensures PageStart(page, pageSize) == (page - 1) * pageSize
    decreases page
  {
    if page > 1 {
      PageStartIs(page - 1, pageSize);
      assert (page - 1) * pageSize == (page - 2) * pageSize + pageSize;
    }
  }

  /**
   * `display_df.iloc[start:end]` with `start = (page - 1) * page_size` and
   * `end = start + page_size`: the rows at those positions that exist.
   */
  function Page<T>(rows: seq<T>, page: int, pageSize: nat): (r: seq<T>)
    requires page >= 1
    ensures |r| <= pageSize
    ensures |r| == if PageStart(page, pageSize) >= |rows| then 0
                   else if PageStart(page, pageSize) + pageSize <= |rows| then pageSize
                   else |rows| - PageStart(page, pageSize)
    ensures forall j :: 0 <= j < |r| ==> r[j] == rows[PageStart(page, pageSize) + j]
  {
    var start := PageStart(page, pageSize);
    var lo := if start <= |rows| then start else |rows|;
    var hi := if start + pageSize <= |rows| then start + pageSize else |rows|;
    rows[lo..hi]
  }

  /** Pages 1 to `n`, one after the other. */
  function Pages<T>(rows: seq<T>, pageSize: nat, n: nat): seq<T>
  {
    if n == 0 then [] else Pages(rows, pageSize, n - 1) + Page(rows, n, pageSize)
  }

  /** The first `n` pages are the rows before page `n + 1` starts (or all of them). */
  lemma {:induction false} PagesPrefix<T>(rows: seq<T>, pageSize: nat, n: nat)
    ensures var e := PageStart(n + 1, pageSize);
      Pages(rows, pageSize, n) == rows[..if e <= |rows| then e else |rows|]
  {
    if n > 0 {
      PagesPrefix(rows, pageSize, n - 1);
      var a := PageStart(n, pageSize);
      var b := PageStart(n + 1, pageSize);
      var a' := if a <= |rows| then a else |rows|;
      var b' := if b <= |rows| then b else |rows|;
      assert Page(rows, n, pageSize) == rows[a'..b'];
      assert rows[..a'] + rows[a'..b'] == rows[..b'];
    }
  }

  /** Pages 1 to `TotalPages` show every row exactly once, in order. */
  lemma PagesCoverRows<T>(rows: seq<T>, pageSize: nat)
    requires pageSize > 0
    ensures Pages(rows, pageSize, TotalPages(|rows|, pageSize)) == rows
  {
    var n := TotalPages(|rows|, pageSize);
    PagesPrefix(rows, pageSize, n);
    PageStartIs(n + 1, pageSize);
  }

  /** Row `i` is shown on page `i / pageSize + 1`, at position `i % pageSize`, and that page exists. */
  lemma RowOnPage<T>(rows: seq<T>, pageSize: nat, i: int)
    requires pageSize > 0 && 0 <= i < |rows|
    ensures 1 <= i / pageSize + 1 <= TotalPages(|rows|, pageSize)
    ensures var p := Page(rows, i / pageSize + 1, pageSize);
      i % pageSize < |p| && p[i % pageSize] == rows[i]
  {
    var q, m := i / pageSize, i % pageSize;
    QuotientBelow(i, pageSize, TotalPages(|rows|, pageSize));
    assert PageStart(q + 1, pageSize) + m == i by {
      PageStartIs(q + 1, pageSize);
      assert i == q * pageSize + m;
    }
    PageAt(rows, q + 1, pageSize, m);
  }

  /** Position `m` of page `page` is the row at `PageStart + m`, when that row exists. */
  lemma PageAt<T>(rows: seq<T>, page: int, pageSize: nat, m: int)
    requires page >= 1 && 0 <= m < pageSize && PageStart(page, pageSize) + m < |rows|
    ensures m < |Page(rows, page, pageSize)|
    ensures Page(rows, page, pageSize)[m] == rows[PageStart(page, pageSize) + m]
  {
  }

  /** An index below `n` pages of rows has a page number below `n`. */
  lemma QuotientBelow(i: nat, pageSize: nat, n: nat)
    requires pageSize > 0 && i < n * pageSize
    ensures i / pageSize < n
  {
    var q := i / pageSize;
    assert q * pageSize <= i;
    MulMonotone(q, n, pageSize);
  }

  lemma MulMonotone(a: int, b: int, c: nat)
    ensures a >= b ==> a * c >= b * c
  {
    if a >= b {
      assert a * c == b * c + (a - b) * c;
    }
  }

  // ---------------------------------------------------------------- the pager

  /** The page counter kept in the session state. */
  class Pager {
    var page: int

    /** `st.session_state.page = 1` on the first run. */
    constructor()
      ensures page == 1
    {
      page := 1;
    }

    /** The Prev button: back one page, never below 1. */
    method Prev()
      modifies this
      ensures page == if old(page) > 1 then old(page) - 1 else old(page)
      ensures 1 <= old(page) ==> 1 <= page
    {
      if page > 1 {
        page := page - 1;
      }
    }

    /** The Next button: forward one page, never past the last. */
    method Next(totalPages: int)
      modifies this
      ensures page == if old(page) < totalPages then old(page) + 1 else old(page)
      ensures old(page) <= totalPages ==> page <= totalPages
      ensures 1 <= old(page) ==> 1 <= page
    {
      if page < totalPages {
        page := page + 1;
      }
    }

    /** The jump input: the page becomes the number it returns. */
    method Jump(jump: int)
      modifies this
      ensures page == jump
    {
      if jump != page {
        page := jump;
      }
    }

    /**
     * One run of the pager. The buttons act first; then the jump input is
     * drawn with the current page as its value and `[1, totalPages]` as its
     * bounds, which fails when the page lies outside them (`ok` is false,
     * the catalog shows an error, and the page keeps the buttons' effect).
     * Otherwise the page becomes the input's value `jump`, which the input
     * keeps within its bounds.
     */
    method Render(prevClicked: bool, nextClicked: bool, jump: int, totalPages: int) returns (ok: bool)
      requires 1 <= jump <= totalPages
      modifies this
      ensures var afterButtons := ButtonsEffect(old(page), prevClicked, nextClicked, totalPages);
        && (ok <==> 1 <= afterButtons <= totalPages)
        && (ok ==> page == jump)
        && (!ok ==> page == afterButtons)
      ensures ok ==> 1 <= page <= totalPages
      ensures 1 <= old(page) <= totalPages ==> ok
    {
      if prevClicked {
        Prev();
      }
      if nextClicked {
        Next(totalPages);
      }
      if !(1 <= page <= totalPages) {
        return false;
      }
      Jump(jump);
      ok := true;
    }
  }

  /** Where the buttons alone leave the page. */
  function ButtonsEffect(page: int, prevClicked: bool, nextClicked: bool, totalPages: int): (p: int)
    ensures 1 <= page <= totalPages ==> 1 <= p <= totalPages
    ensures !prevClicked && !nextClicked ==> p == page
  {
    var afterPrev := if prevClicked && page > 1 then page - 1 else page;
    if nextClicked && afterPrev < totalPages then afterPrev + 1 else afterPrev
  }

  // ---------------------------------------------------------------- sanitising the listings

  /** The text columns of a listing, the ones `sanitize_text_columns` rewrites. */
  datatype TextField = BrandField | ModelField | CpuField | DisplayTypeField
  {
    /** The column's name in the table. */
    function Name(): string
    {
      match this
      case BrandField => "brand"
      case ModelField => "model"
      case CpuField => "cpu"
      case DisplayTypeField => "display_type"
    }
  }

  function Cell(r: Laptop, f: TextField): Option<string>
  {
    match f
    case BrandField => r.brand
    case ModelField => r.model
    case CpuField => r.cpu
    case DisplayTypeField => r.displayType
  }

  /** One text column of the table, top to bottom. */
  function CellsOf(rows: seq<Laptop>, f: TextField): (cells: seq<Option<string>>)
    ensures |cells| == |rows|
    ensures forall k :: 0 <= k < |rows| ==> cells[k] == Cell(rows[k], f)
  {
    seq(|rows|, k requires 0 <= k < |rows| => Cell(rows[k], f))
  }

  /** A cell as `sanitize_text_columns` leaves it: present, at most 303 characters, no URL. */
  predicate CleanCell(c: Option<string>)
  {
    c.Some? && |c.value| <= MaxCellLength + |Ellipsis| && NoUrl(c.value)
  }

  /**
   * One listing after `sanitize_text_columns`: each text cell is sanitised,
   * on the fallback branch when its column is in `failing`; the numbers and
   * the flags are not text columns and are kept.
   */
  function SanitizeListing(r: Laptop, failing: set<string>): (s: Laptop)
    ensures s.priceUsd == r.priceUsd && s.screenSizeIn == r.screenSizeIn && s.batteryWh == r.batteryWh
    ensures s.releaseYear == r.releaseYear && s.isAiCpu == r.isAiCpu && s.isOled == r.isOled
  {
    r.(brand := Some(SanitizeCell(r.brand, BrandField.Name() in failing)),
       model := Some(SanitizeCell(r.model, ModelField.Name() in failing)),
       cpu := Some(SanitizeCell(r.cpu, CpuField.Name() in failing)),
       displayType := Some(SanitizeCell(r.displayType, DisplayTypeField.Name() in failing)))
  }

  /** Each text cell of a sanitised listing is that cell sanitised, on its column's branch. */
  lemma ListingCell(r: Laptop, failing: set<string>, f: TextField)
    ensures Cell(SanitizeListing(r, failing), f) == Some(SanitizeCell(Cell(r, f), f.Name() in failing))
  {
    match f
    case BrandField =>
    case ModelField =>
    case CpuField =>
    case DisplayTypeField =>
  }

  /** Every text cell of a sanitised listing is clean. */
  lemma ListingClean(r: Laptop, failing: set<string>, f: TextField)
    ensures CleanCell(Cell(SanitizeListing(r, failing), f))
  {
    ListingCell(r, failing, f);
  }

  /** Every listing sanitised, in order. */
  function SanitizeListings(rows: seq<Laptop>, failing: set<string>): (r: seq<Laptop>)
    ensures |r| == |rows|
    ensures forall k :: 0 <= k < |rows| ==> r[k] == SanitizeListing(rows[k], failing)
  {
    seq(|rows|, k requires 0 <= k < |rows| => SanitizeListing(rows[k], failing))
  }

  /**
   * Sanitising row by row is sanitising column by column: each text column
   * of the sanitised listings is that column as `sanitize_text_columns`
   * rewrites it.
   */
  lemma ListingsByColumn(rows: seq<Laptop>, failing: set<string>, f: TextField)
    ensures CellsOf(SanitizeListings(rows, failing), f) == SanitizeColumn(CellsOf(rows, f), f.Name() in failing)
  {
    var a := CellsOf(SanitizeListings(rows, failing), f);
    var b := SanitizeColumn(CellsOf(rows, f), f.Name() in failing);
    forall k | 0 <= k < |rows|
      ensures a[k] == b[k]
    {
      assert SanitizeListings(rows, failing)[k] == SanitizeListing(rows[k], failing);
      ListingCell(rows[k], failing, f);
    }
  }

  /** Sanitising touches no price, so it keeps the price order. */
  lemma SanitizeKeepsPriceOrder(rows: seq<Laptop>, failing: set<string>)
    requires SortedByPrice(rows)
    ensures SortedByPrice(SanitizeListings(rows, failing))
  {
    var r := SanitizeListings(rows, failing);
    forall i, j | 0 <= i < j < |r|
      ensures PriceLe(r[i].priceUsd, r[j].priceUsd)
    {
      assert r[i].priceUsd == rows[i].priceUsd && r[j].priceUsd == rows[j].priceUsd;
    }
  }

  // ---------------------------------------------------------------- the tab

  /**
   * The catalog tab: sort the filtered rows by price, sanitise their text
   * columns (`failing` names the columns whose regex replacement raised),
   * count the pages of `pageSize` rows, run the pager, and show the current
   * page's slice. `None` is the error the tab reports when the pager's
   * input fails.
   */
  method ShowCatalog(pager: Pager, filtered: seq<Laptop>, pageSize: nat, failing: set<string>,
                     prevClicked: bool, nextClicked: bool, jump: int) returns (shown: Option<seq<Laptop>>)
    requires MinPageSize <= pageSize <= MaxPageSize
    requires 1 <= jump <= TotalPages(|filtered|, pageSize)
    modifies pager
    ensures var totalPages := TotalPages(|filtered|, pageSize);
      var afterButtons := ButtonsEffect(old(pager.page), prevClicked, nextClicked, totalPages);
      && (shown.Some? <==> 1 <= afterButtons <= totalPages)
      && (shown.Some? ==> pager.page == jump)
      && (shown.None? ==> pager.page == afterButtons)
    ensures shown.Some? ==> shown.value == Page(SanitizeListings(SortByPrice(filtered), failing), pager.page, pageSize)
    ensures shown.Some? ==> SortedByPrice(shown.value) && |shown.value| <= pageSize
    ensures shown.Some? ==> forall k, f: TextField :: 0 <= k < |shown.value| ==> CleanCell(Cell(shown.value[k], f))
    ensures 1 <= old(pager.page) <= TotalPages(|filtered|, pageSize) ==> shown.Some?
  {
    var rows := SanitizeListings(SortByPrice(filtered), failing);
    var totalPages := TotalPages(|rows|, pageSize);
    var ok := pager.Render(prevClicked, nextClicked, jump, totalPages);
    if !ok {
      return None;
    }
    var page := Page(rows, pager.page, pageSize);
    SanitizeKeepsPriceOrder(SortByPrice(filtered), failing);
    PageSorted(rows, pager.page, pageSize);
    forall k, f: TextField | 0 <= k < |page|
      ensures CleanCell(Cell(page[k], f))
    {
      ListingClean(SortByPrice(filtered)[PageStart(pager.page, pageSize) + k], failing, f);
    }
    shown := Some(page);
  }

  /** A page of a sorted table is sorted. */
  lemma PageSorted(rows: seq<Laptop>, page: int, pageSize: nat)
    requires page >= 1 && SortedByPrice(rows)
    ensures SortedByPrice(Page(rows, page, pageSize))
  {
    var p := Page(rows, page, pageSize);
    forall i, j | 0 <= i < j < |p|
      ensures PriceLe(p[i].priceUsd, p[j].priceUsd)
    {
      assert p[i] == rows[PageStart(page, pageSize) + i];
      assert p[j] == rows[PageStart(page, pageSize) + j];
    }
  }
}
