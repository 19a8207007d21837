/**
 * The data-processing core of the laptop dashboard: loading (column
 * normalisation and derived flags), the conjunctive row filter, the brand
 * share count and the per-year trend table.
 *
 * A table is a sequence of rows. Numbers are exact reals; a cell that is
 * missing, or that `pd.to_numeric(..., errors='coerce')` could not parse,
 * is `None`.
 */
module DataProcessing {
  import opened Wrappers
  import opened Text
  import opened Stats
  import opened Seqs

  /** One row as read from the CSV file, before normalisation. */
  datatype RawRow = RawRow(
    brand: Option<string>,
    model: Option<string>,
    priceUsd: Option<real>,
    screenSizeIn: Option<real>,
    batteryWh: Option<real>,
    releaseYear: Option<real>,
    cpu: Option<string>,
    displayType: Option<string>)

  /** One laptop listing after loading. */
  datatype Laptop = Laptop(
    brand: Option<string>,
    model: Option<string>,
    priceUsd: Option<real>,
    screenSizeIn: real,
    batteryWh: Option<real>,
    releaseYear: int,
    cpu: Option<string>,
    displayType: Option<string>,
    isAiCpu: bool,
    isOled: bool)

  const DefaultScreenSize: real := 13.3
  const DefaultReleaseYear: int := 2025

  // ================================================================ load_data

  /** `brand.str.strip().str.title()`; a missing brand stays missing. */
  function NormalizeBrand(b: Option<string>): (r: Option<string>)
    ensures r.Some? <==> b.Some?
    ensures r.Some? ==> r.value == [] || (!IsSpace(r.value[0]) && !IsSpace(r.value[|r.value| - 1]))
    ensures r.Some? ==> IsTitleCased(r.value)
    ensures r.Some? ==> Lower(r.value) == Lower(Strip(b.value))
  {
    match b
    case None => None
    case Some(s) =>
      var t := Strip(s);
      TitleIsTitleCased(t);
      LowerTitle(t);
      TitleKeepsEnds(t);
      Some(Title(t))
  }

  /** Title-casing a stripped string leaves it stripped. */
  lemma TitleKeepsEnds(t: string)
    requires t == [] || (!IsSpace(t[0]) && !IsSpace(t[|t| - 1]))
    ensures Title(t) == [] || (!IsSpace(Title(t)[0]) && !IsSpace(Title(t)[|t| - 1]))
  {
    if t != [] {
      TitleKeepsSpace(t, 0);
      TitleKeepsSpace(t, |t| - 1);
    }
  }

  /** Title-casing changes nothing but the case of letters. */
  lemma LowerTitle(s: string)
    ensures Lower(Title(s)) == Lower(s)
  {
    var t := Title(s);
    forall i | 0 <= i < |s|
      ensures Lower(t)[i] == Lower(s)[i]
    {
      assert t[i] == TitleChar(s[i], i > 0 && IsLetter(s[i - 1]));
    }
  }

  /** `astype(int)` of a float: truncation toward zero. */
  function TruncateToInt(x: real): (n: int)
    ensures 0.0 <= x ==> n as real <= x < n as real + 1.0
    ensures x < 0.0 ==> n as real - 1.0 < x <= n as real
  {
    if x >= 0.0 then x.Floor else -((-x).Floor)
  }

  /** `fillna(fill)` on one cell; filling with NaN leaves the cell missing. */
  function FillNa(x: Option<real>, fill: Option<real>): Option<real>
  {
    if x.Some? then x else fill
  }

  /**
   * `cpu.str.contains('Ultra|AI|Ryzen AI', case=False, na=False)`: the CPU
   * names "ultra" or "ai" in any case. The "Ryzen AI" alternative can only
   * match where "AI" does.
   */
  function AiCpu(cpu: Option<string>): (r: bool)
    ensures r <==> cpu.Some? && (ContainsNoCase(cpu.value, "ultra") || ContainsNoCase(cpu.value, "ai"))
  {
    match cpu
    case None => false
    case Some(s) =>
      RyzenAiContainsAi(Lower(s));
      ContainsNoCase(s, "ultra") || ContainsNoCase(s, "ai") || ContainsNoCase(s, "ryzen ai")
  }

  lemma RyzenAiContainsAi(t: string)
    ensures Contains(t, "ryzen ai") ==> Contains(t, "ai")
  {
    if Contains(t, "ryzen ai") {
      var i :| 0 <= i <= |t| && StartsWith(t[i..], "ryzen ai");
      assert t[i..][..8] == "ryzen ai";
      assert t[i + 6..][..2] == t[i..][6..8];
      assert StartsWith(t[i + 6..], "ai");
    }
  }

  /**
   * `display_type.str.contains('OLED', case=False, na=False)`: the display
   * name is present and has the four letters o, l, e, d in a row, each in
   * either case.
   */
  function OledDisplay(display: Option<string>): (r: bool)
    ensures r <==> display.Some? && exists i :: MatchesNoCaseAt(display.value, i, "oled")
  {
    match display
    case None => false
    case Some(s) =>
      ContainsNoCaseAt(s, "oled");
      ContainsNoCase(s, "oled")
  }

  /** The OLED flag ignores letter case: names that agree once lowered get the same flag. */
  lemma OledIgnoresCase(a: string, b: string)
    requires |a| == |b| && forall k :: 0 <= k < |a| ==> ToLower(a[k]) == ToLower(b[k])
    ensures OledDisplay(Some(a)) == OledDisplay(Some(b))
  {
    if OledDisplay(Some(a)) {
      var i :| MatchesNoCaseAt(a, i, "oled");
      assert MatchesNoCaseAt(b, i, "oled");
    }
    if OledDisplay(Some(b)) {
      var i :| MatchesNoCaseAt(b, i, "oled");
      assert MatchesNoCaseAt(a, i, "oled");
    }
  }

  /** "OLED", "oled" and a longer name holding "Oled" are all flagged; "LCD" and a missing name are not. */
  lemma OledExamples()
    ensures OledDisplay(Some("OLED")) && OledDisplay(Some("oled")) && OledDisplay(Some("2.8K Oled"))
    ensures !OledDisplay(Some("LCD")) && !OledDisplay(None)
  {
    assert MatchesNoCaseAt("OLED", 0, "oled");
    assert MatchesNoCaseAt("oled", 0, "oled");
    assert MatchesNoCaseAt("2.8K Oled", 5, "oled");
  }

  /** The raw `price_usd` column. */
  function PriceColumn(raw: seq<RawRow>): (col: seq<Option<real>>)
    ensures |col| == |raw| && forall i :: 0 <= i < |raw| ==> col[i] == raw[i].priceUsd
  {
    seq(|raw|, i requires 0 <= i < |raw| => raw[i].priceUsd)
  }

  /** The raw `battery_wh` column. */
  function BatteryColumn(raw: seq<RawRow>): (col: seq<Option<real>>)
    ensures |col| == |raw| && forall i :: 0 <= i < |raw| ==> col[i] == raw[i].batteryWh
  {
    seq(|raw|, i requires 0 <= i < |raw| => raw[i].batteryWh)
  }

  /** What loading makes of one row, given the medians of the raw price and battery columns. */
  function NormalizeRow(r: RawRow, priceMedian: Option<real>, batteryMedian: Option<real>): Laptop
  {
    Laptop(
      NormalizeBrand(r.brand),
      r.model,
      FillNa(r.priceUsd, priceMedian),
      r.screenSizeIn.GetOr(DefaultScreenSize),
      FillNa(r.batteryWh, batteryMedian),
      TruncateToInt(r.releaseYear.GetOr(DefaultReleaseYear as real)),
      r.cpu,
      r.displayType,
      AiCpu(r.cpu),
      OledDisplay(r.displayType))
  }

  /**
   * `load_data` on already-parsed rows. Each column assignment of the
   * source only looks at the same row's old cell and at the medians of the
   * raw price and battery columns, which are taken before any column is
   * overwritten; so the columns are rewritten row by row here.
   */
  method LoadData(raw: seq<RawRow>) returns (df: seq<Laptop>)
    ensures |df| == |raw|
    ensures forall i :: 0 <= i < |raw| ==>
      df[i] == NormalizeRow(raw[i], MedianOf(PriceColumn(raw)), MedianOf(BatteryColumn(raw)))
    ensures Loaded(raw, df)
  {
    var priceMedian := MedianOf(PriceColumn(raw));
    var batteryMedian := MedianOf(BatteryColumn(raw));
    df := [];
    var i := 0;
    while i < |raw|
      invariant 0 <= i <= |raw|
      invariant df == NormalizeAll(raw[..i], priceMedian, batteryMedian)
    {
      df := df + [NormalizeRow(raw[i], priceMedian, batteryMedian)];
      assert raw[..i + 1][..i] == raw[..i];
      i := i + 1;
    }
    assert raw[..|raw|] == raw;
    forall k | 0 <= k < |raw|
      ensures df[k] == NormalizeRow(raw[k], priceMedian, batteryMedian)
    {
      NormalizeAllRow(raw, priceMedian, batteryMedian, k);
    }
    LoadedRows(raw, df);
  }

  /** Every row normalised with the same medians, in order. */
  function NormalizeAll(raw: seq<RawRow>, priceMedian: Option<real>, batteryMedian: Option<real>): (df: seq<Laptop>)
    ensures |df| == |raw|
  {
    if raw == [] then []
    else NormalizeAll(raw[..|raw| - 1], priceMedian, batteryMedian) + [NormalizeRow(raw[|raw| - 1], priceMedian, batteryMedian)]
  }

  lemma {:induction false} NormalizeAllRow(raw: seq<RawRow>, priceMedian: Option<real>, batteryMedian: Option<real>, k: int)
    requires 0 <= k < |raw|
    ensures NormalizeAll(raw, priceMedian, batteryMedian)[k] == NormalizeRow(raw[k], priceMedian, batteryMedian)
  {
    if k < |raw| - 1 {
      NormalizeAllRow(raw[..|raw| - 1], priceMedian, batteryMedian, k);
    }
  }

  /** What the loaded table promises, cell by cell, about the raw one. */
  ghost predicate Loaded(raw: seq<RawRow>, df: seq<Laptop>)
    requires |df| == |raw|
  {
    PricesFilled(raw, df) && BatteriesFilled(raw, df) && DefaultsFilled(raw, df) && FlagsDerived(raw, df)
  }

  /** Present prices are kept; missing ones become the median of the present ones. */
  ghost predicate PricesFilled(raw: seq<RawRow>, df: seq<Laptop>)
    requires |df| == |raw|
  {
    && (forall i :: 0 <= i < |raw| && raw[i].priceUsd.Some? ==> df[i].priceUsd == raw[i].priceUsd)
    && (HasPresent(PriceColumn(raw)) ==> forall i :: 0 <= i < |raw| ==> df[i].priceUsd.Some?)
    && (forall i :: 0 <= i < |raw| && raw[i].priceUsd.None? ==>
          df[i].priceUsd == MedianOf(PriceColumn(raw)) &&
          (df[i].priceUsd.Some? ==>
            MinOf(Present(PriceColumn(raw))) <= df[i].priceUsd.value <= MaxOf(Present(PriceColumn(raw)))))
  }

  /** Present battery capacities are kept; missing ones become the median of the present ones. */
  ghost predicate BatteriesFilled(raw: seq<RawRow>, df: seq<Laptop>)
    requires |df| == |raw|
  {
    forall i :: 0 <= i < |raw| ==>
      df[i].batteryWh == if raw[i].batteryWh.Some? then raw[i].batteryWh else MedianOf(BatteryColumn(raw))
  }

  /** A missing screen size becomes 13.3, a missing year 2025, and a whole year is kept. */
  ghost predicate DefaultsFilled(raw: seq<RawRow>, df: seq<Laptop>)
    requires |df| == |raw|
  {
    && (forall i :: 0 <= i < |raw| ==>
          df[i].screenSizeIn == if raw[i].screenSizeIn.Some? then raw[i].screenSizeIn.value else DefaultScreenSize)
    && (forall i :: 0 <= i < |raw| && raw[i].releaseYear.None? ==> df[i].releaseYear == DefaultReleaseYear)
    && (forall i ::
          (0 <= i < |raw| && raw[i].releaseYear.Some? &&
           raw[i].releaseYear.value.Floor as real == raw[i].releaseYear.value) ==>
          df[i].releaseYear == raw[i].releaseYear.value.Floor)
  }

  /** The two flags are derived from the CPU and display names, and are never missing. */
  ghost predicate FlagsDerived(raw: seq<RawRow>, df: seq<Laptop>)
    requires |df| == |raw|
  {
    && (forall i :: 0 <= i < |raw| ==>
          (df[i].isAiCpu <==>
            (raw[i].cpu.Some? &&
             (ContainsNoCase(raw[i].cpu.value, "ultra") || ContainsNoCase(raw[i].cpu.value, "ai")))))
    && (forall i :: 0 <= i < |raw| ==>
          (df[i].isOled <==> raw[i].displayType.Some? && ContainsNoCase(raw[i].displayType.value, "oled")))
  }

  /** The row-by-row normalisation keeps what `Loaded` promises. */
  lemma LoadedRows(raw: seq<RawRow>, df: seq<Laptop>)
    requires |df| == |raw|
    requires forall i :: 0 <= i < |raw| ==>
      df[i] == NormalizeRow(raw[i], MedianOf(PriceColumn(raw)), MedianOf(BatteryColumn(raw)))
    ensures Loaded(raw, df)
  {
    LoadedPrices(raw, df);
    LoadedBatteries(raw, df);
  }

  lemma LoadedPrices(raw: seq<RawRow>, df: seq<Laptop>)
    requires |df| == |raw|
    requires forall i :: 0 <= i < |raw| ==>
      df[i] == NormalizeRow(raw[i], MedianOf(PriceColumn(raw)), MedianOf(BatteryColumn(raw)))
    ensures PricesFilled(raw, df)
  {
    var pm := MedianOf(PriceColumn(raw));
    forall i | 0 <= i < |raw|
      ensures raw[i].priceUsd.None? ==> df[i].priceUsd == pm
      ensures HasPresent(PriceColumn(raw)) ==> df[i].priceUsd.Some?
    {
      assert PriceColumn(raw)[i] == raw[i].priceUsd;
    }
  }

  lemma LoadedBatteries(raw: seq<RawRow>, df: seq<Laptop>)
    requires |df| == |raw|
    requires forall i :: 0 <= i < |raw| ==>
      df[i] == NormalizeRow(raw[i], MedianOf(PriceColumn(raw)), MedianOf(BatteryColumn(raw)))
    ensures BatteriesFilled(raw, df)
  {
    forall i | 0 <= i < |raw|
      ensures df[i].batteryWh == if raw[i].batteryWh.Some? then raw[i].batteryWh else MedianOf(BatteryColumn(raw))
    {
      assert BatteryColumn(raw)[i] == raw[i].batteryWh;
    }
  }

  // ================================================================ filter_data

  /** An inclusive `(min, max)` range. */
  datatype Range = Range(lo: real, hi: real)

  /** The two AI-CPU selector choices that narrow; any other, the default "Усі" among them, keeps every row. */
  const AiCpuLabel: string := "Із AI"
  const NonAiCpuLabel: string := "Без AI"

  /** `brands` restricts only when non-empty; a missing brand is never in it. */
  predicate BrandOk(r: Laptop, brands: seq<string>)
  {
    |brands| == 0 || (r.brand.Some? && r.brand.value in brands)
  }

  /** Inclusive range test; a missing value (NaN) fails every comparison. */
  predicate InRange(x: Option<real>, range: Option<Range>)
  {
    range.None? || (x.Some? && range.value.lo <= x.value <= range.value.hi)
  }

  predicate AiOk(r: Laptop, aiCpu: string)
  {
    if aiCpu == AiCpuLabel then r.isAiCpu
    else if aiCpu == NonAiCpuLabel then !r.isAiCpu
    else true
  }

  /** The row meets every supplied criterion. */
  predicate Matches(r: Laptop, brands: seq<string>, priceRange: Option<Range>,
                    screenRange: Option<Range>, aiCpu: string)
  {
    BrandOk(r, brands) && InRange(r.priceUsd, priceRange) &&
    InRange(Some(r.screenSizeIn), screenRange) && AiOk(r, aiCpu)
  }

  /** `q[mask]`: keeps the rows satisfying `keep`, in order. */
  method Narrow(q: seq<Laptop>, keep: Laptop -> bool) returns (r: seq<Laptop>)
    ensures r == Where(q, keep)
  {
    r := [];
    var i := 0;
    while i < |q|
      invariant 0 <= i <= |q|
      invariant r == Where(q[..i], keep)
    {
      WhereSnoc(q[..i], q[i], keep);
      assert q[..i + 1] == q[..i] + [q[i]];
      if keep(q[i]) {
        r := r + [q[i]];
      }
      i := i + 1;
    }
    assert q[..i] == q;
  }

  /** The masks `filter_data` applies, each as a row predicate. */
  function BrandMask(brands: seq<string>): Laptop -> bool
  {
    (r: Laptop) => BrandOk(r, brands)
  }

  function PriceMask(priceRange: Option<Range>): Laptop -> bool
  {
    (r: Laptop) => InRange(r.priceUsd, priceRange)
  }

  function ScreenMask(screenRange: Option<Range>): Laptop -> bool
  {
    (r: Laptop) => InRange(Some(r.screenSizeIn), screenRange)
  }

  function AiMask(wanted: bool): Laptop -> bool
  {
    (r: Laptop) => r.isAiCpu == wanted
  }

  /** The conjunction of the brand and price masks, and so on: what the copy satisfies after each step. */
  function UpToPrice(brands: seq<string>, priceRange: Option<Range>): Laptop -> bool
  {
    (r: Laptop) => BrandOk(r, brands) && InRange(r.priceUsd, priceRange)
  }

  function UpToScreen(brands: seq<string>, priceRange: Option<Range>, screenRange: Option<Range>): Laptop -> bool
  {
    (r: Laptop) => BrandOk(r, brands) && InRange(r.priceUsd, priceRange) && InRange(Some(r.screenSizeIn), screenRange)
  }

  /** All the criteria together. */
  function Matcher(brands: seq<string>, priceRange: Option<Range>, screenRange: Option<Range>,
                   aiCpu: string): Laptop -> bool
  {
    (r: Laptop) => Matches(r, brands, priceRange, screenRange, aiCpu)
  }

  /**
   * `filter_data`: narrows a copy of the table criterion by criterion; the
   * result is the selection of the rows that meet every supplied criterion
   * (what that selection is, is stated by `FilterSelects`).
   */
  method FilterData(df: seq<Laptop>, brands: seq<string>, priceRange: Option<Range>,
                    screenRange: Option<Range>, aiCpu: string) returns (q: seq<Laptop>)
    ensures q == Where(df, Matcher(brands, priceRange, screenRange, aiCpu))
  {
    q := df;
    if |brands| > 0 {
      q := Narrow(q, BrandMask(brands));
    } else {
      WhereAll(df, BrandMask(brands));
    }
    q := NarrowPrice(df, q, brands, priceRange);
    q := NarrowScreen(df, q, brands, priceRange, screenRange);
    q := NarrowAi(df, q, brands, priceRange, screenRange, aiCpu);
  }

  /**
   * The filtered table is the input with exactly the rows that fail some
   * supplied criterion removed, order kept; with no criterion supplied
   * (no brands, no ranges, the "all" CPU label) it is the whole table.
   */
  lemma FilterSelects(df: seq<Laptop>, brands: seq<string>, priceRange: Option<Range>,
                      screenRange: Option<Range>, aiCpu: string)
    ensures var q := Where(df, Matcher(brands, priceRange, screenRange, aiCpu));
      && IsSubseq(q, df)
      && (forall r :: r in q <==> r in df && Matches(r, brands, priceRange, screenRange, aiCpu))
      && (forall r ::
            multiset(q)[r] == (if Matches(r, brands, priceRange, screenRange, aiCpu) then multiset(df)[r] else 0))
    ensures (|brands| == 0 && priceRange.None? && screenRange.None? &&
             aiCpu != AiCpuLabel && aiCpu != NonAiCpuLabel) ==>
              Where(df, Matcher(brands, priceRange, screenRange, aiCpu)) == df
  {
    WhereFacts(df, Matcher(brands, priceRange, screenRange, aiCpu));
    if |brands| == 0 && priceRange.None? && screenRange.None? && aiCpu != AiCpuLabel && aiCpu != NonAiCpuLabel {
      WhereAll(df, Matcher(brands, priceRange, screenRange, aiCpu));
    }
  }

  /** The price step of `filter_data`. */
  method NarrowPrice(df: seq<Laptop>, q: seq<Laptop>, brands: seq<string>, priceRange: Option<Range>)
    returns (r: seq<Laptop>)
    requires q == Where(df, BrandMask(brands))
    ensures r == Where(df, UpToPrice(brands, priceRange))
  {
    r := q;
    if priceRange.Some? {
      r := Narrow(q, PriceMask(priceRange));
      WhereWhere(df, BrandMask(brands), PriceMask(priceRange), UpToPrice(brands, priceRange));
    } else {
      WhereSame(df, BrandMask(brands), UpToPrice(brands, priceRange));
    }
  }

  /** The screen-size step of `filter_data`. */
  method NarrowScreen(df: seq<Laptop>, q: seq<Laptop>, brands: seq<string>, priceRange: Option<Range>,
                      screenRange: Option<Range>) returns (r: seq<Laptop>)
    requires q == Where(df, UpToPrice(brands, priceRange))
    ensures r == Where(df, UpToScreen(brands, priceRange, screenRange))
  {
    r := q;
    if screenRange.Some? {
      r := Narrow(q, ScreenMask(screenRange));
      WhereWhere(df, UpToPrice(brands, priceRange), ScreenMask(screenRange),
                 UpToScreen(brands, priceRange, screenRange));
    } else {
      WhereSame(df, UpToPrice(brands, priceRange), UpToScreen(brands, priceRange, screenRange));
    }
  }

  /** The CPU step of `filter_data`: only the two AI labels select anything. */
  method NarrowAi(df: seq<Laptop>, q: seq<Laptop>, brands: seq<string>, priceRange: Option<Range>,
                  screenRange: Option<Range>, aiCpu: string) returns (r: seq<Laptop>)
    requires q == Where(df, UpToScreen(brands, priceRange, screenRange))
    ensures r == Where(df, Matcher(brands, priceRange, screenRange, aiCpu))
  {
    var before := UpToScreen(brands, priceRange, screenRange);
    var after := Matcher(brands, priceRange, screenRange, aiCpu);
    r := q;
    if aiCpu == AiCpuLabel {
      r := Narrow(q, AiMask(true));
      WhereWhere(df, before, AiMask(true), after);
    } else if aiCpu == NonAiCpuLabel {
      r := Narrow(q, AiMask(false));
      WhereWhere(df, before, AiMask(false), after);
    } else {
      WhereSame(df, before, after);
    }
  }

  // ================================================================ compute_brand_share

  /** One row of the brand-share table. */
  datatype BrandCount = BrandCount(brand: string, count: nat)

  /** The `brand` column. */
  function Brands(df: seq<Laptop>): (bs: seq<Option<string>>)
    ensures |bs| == |df| && forall i :: 0 <= i < |df| ==> bs[i] == df[i].brand
  {
    seq(|df|, i requires 0 <= i < |df| => df[i].brand)
  }

  /** How many cells of the column hold brand `b`. */
  function Occurrences(bs: seq<Option<string>>, b: string): nat
  {
    if bs == [] then 0
    else Occurrences(bs[..|bs| - 1], b) + (if bs[|bs| - 1] == Some(b) then 1 else 0)
  }

  /** How many cells of the column hold some brand. */
  function PresentCount(bs: seq<Option<string>>): nat
  {
    if bs == [] then 0
    else PresentCount(bs[..|bs| - 1]) + (if bs[|bs| - 1].Some? then 1 else 0)
  }

  /** The brands the table lists. */
  function Keys(t: seq<BrandCount>): set<string>
  {
    set k | 0 <= k < |t| :: t[k].brand
  }

  /** The count the table holds for `b`, 0 when `b` is absent. */
  function CountFor(t: seq<BrandCount>, b: string): nat
  {
    if t == [] then 0 else if t[0].brand == b then t[0].count else CountFor(t[1..], b)
  }

  function Total(t: seq<BrandCount>): nat
  {
    if t == [] then 0 else t[0].count + Total(t[1..])
  }

  /** No brand is listed twice. */
  ghost predicate DistinctBrands(t: seq<BrandCount>)
  {
    forall i, j :: 0 <= i < j < |t| ==> t[i].brand != t[j].brand
  }

  /** Every listed count is positive. */
  ghost predicate Positive(t: seq<BrandCount>)
  {
    forall k :: 0 <= k < |t| ==> t[k].count >= 1
  }

  /** Counts do not increase down the table. */
  ghost predicate NonIncreasing(t: seq<BrandCount>)
  {
    forall i, j :: 0 <= i < j < |t| ==> t[i].count >= t[j].count
  }

  /** One more occurrence of `b`: its count goes up by one, or it is appended with count 1. */
  function Bump(t: seq<BrandCount>, b: string): seq<BrandCount>
  {
    if t == [] then [BrandCount(b, 1)]
    else if t[0].brand == b then [BrandCount(b, t[0].count + 1)] + t[1..]
    else [t[0]] + Bump(t[1..], b)
  }

  /** The hash-table count `value_counts` builds, brands in order of first appearance. */
  function Tally(bs: seq<Option<string>>): seq<BrandCount>
  {
    if bs == [] then []
    else
      var t := Tally(bs[..|bs| - 1]);
      match bs[|bs| - 1]
      case None => t
      case Some(b) => Bump(t, b)
  }

  lemma BumpSpec(t: seq<BrandCount>, b: string)
    requires DistinctBrands(t) && Positive(t)
    ensures DistinctBrands(Bump(t, b)) && Positive(Bump(t, b))
    ensures Keys(Bump(t, b)) == Keys(t) + {b}
    ensures Total(Bump(t, b)) == Total(t) + 1
    ensures forall x :: CountFor(Bump(t, b), x) == CountFor(t, x) + (if x == b then 1 else 0)
  {
    BumpKeys(t, b);
    BumpDistinct(t, b);
    BumpPositive(t, b);
    BumpCounts(t, b);
  }

  lemma {:induction false} BumpKeys(t: seq<BrandCount>, b: string)
    ensures Keys(Bump(t, b)) == Keys(t) + {b}
    ensures Total(Bump(t, b)) == Total(t) + 1
  {
    var r := Bump(t, b);
    KeysCons(r);
    if t != [] {
      KeysCons(t);
      if t[0].brand == b {
        assert r[1..] == t[1..];
      } else {
        BumpKeys(t[1..], b);
        assert r[1..] == Bump(t[1..], b);
      }
    }
  }

  lemma {:induction false} BumpDistinct(t: seq<BrandCount>, b: string)
    requires DistinctBrands(t)
    ensures DistinctBrands(Bump(t, b))
  {
    if t != [] {
      DistinctTail(t);
      if t[0].brand == b {
        ConsDistinct(BrandCount(b, t[0].count + 1), t[1..]);
      } else {
        BumpDistinct(t[1..], b);
        BumpKeys(t[1..], b);
        ConsDistinct(t[0], Bump(t[1..], b));
      }
    }
  }

  lemma {:induction false} BumpPositive(t: seq<BrandCount>, b: string)
    requires Positive(t)
    ensures Positive(Bump(t, b))
  {
    if t != [] {
      var r := Bump(t, b);
      assert Positive(t[1..]) by {
        assert forall k :: 0 <= k < |t[1..]| ==> t[1..][k] == t[k + 1];
      }
      if t[0].brand == b {
        assert forall k :: 1 <= k < |r| ==> r[k] == t[k];
      } else {
        BumpPositive(t[1..], b);
        assert forall k :: 1 <= k < |r| ==> r[k] == Bump(t[1..], b)[k - 1];
      }
    }
  }

  lemma {:induction false} BumpCounts(t: seq<BrandCount>, b: string)
    ensures forall x :: CountFor(Bump(t, b), x) == CountFor(t, x) + (if x == b then 1 else 0)
  {
    if t != [] {
      var r := Bump(t, b);
      if t[0].brand == b {
        assert r[1..] == t[1..];
      } else {
        BumpCounts(t[1..], b);
        assert r[1..] == Bump(t[1..], b);
      }
    }
  }

  /** Dropping the first row of a table without repeats leaves one without that row's brand. */
  lemma DistinctTail(t: seq<BrandCount>)
    requires DistinctBrands(t) && t != []
    ensures DistinctBrands(t[1..]) && t[0].brand !in Keys(t[1..])
  {
    forall k | 0 <= k < |t[1..]|
      ensures t[1..][k].brand != t[0].brand
    {
      assert t[1..][k] == t[k + 1];
    }
    forall i, j | 0 <= i < j < |t[1..]|
      ensures t[1..][i].brand != t[1..][j].brand
    {
      assert t[1..][i] == t[i + 1] && t[1..][j] == t[j + 1];
    }
  }

  /** The keys of a non-empty table are its first key and the keys of its tail. */
  lemma KeysCons(t: seq<BrandCount>)
    requires t != []
    ensures Keys(t) == {t[0].brand} + Keys(t[1..])
  {
    forall x | x in Keys(t)
      ensures x in {t[0].brand} + Keys(t[1..])
    {
      var k :| 0 <= k < |t| && t[k].brand == x;
      if k > 0 {
        assert t[1..][k - 1] == t[k];
      }
    }
    forall x | x in Keys(t[1..])
      ensures x in Keys(t)
    {
      var k :| 0 <= k < |t[1..]| && t[1..][k].brand == x;
      assert t[k + 1] == t[1..][k];
    }
  }

  /** The tally counts every present brand exactly, lists each once, and nothing else. */
  lemma {:induction false} TallySpec(bs: seq<Option<string>>)
    ensures DistinctBrands(Tally(bs)) && Positive(Tally(bs))
    ensures Total(Tally(bs)) == PresentCount(bs)
    ensures forall x :: CountFor(Tally(bs), x) == Occurrences(bs, x)
    ensures forall x :: x in Keys(Tally(bs)) <==> Occurrences(bs, x) > 0
  {
    if bs != [] {
      var init := bs[..|bs| - 1];
      TallySpec(init);
      match bs[|bs| - 1]
      case None =>
      case Some(b) => BumpSpec(Tally(init), b);
    }
    KeysCount(Tally(bs));
  }

  /** In a table of positive counts, a brand is listed iff its count is positive. */
  lemma {:induction false} KeysCount(t: seq<BrandCount>)
    requires Positive(t)
    ensures forall x :: x in Keys(t) <==> CountFor(t, x) > 0
  {
    if t != [] {
      assert Positive(t[1..]) by {
        assert forall k :: 0 <= k < |t[1..]| ==> t[1..][k] == t[k + 1];
      }
      KeysCount(t[1..]);
      KeysCons(t);
    }
  }

  /** In a table without repeated brands, each row's count is the count for its brand. */
  lemma {:induction false} CountForRow(t: seq<BrandCount>, k: int)
    requires DistinctBrands(t) && 0 <= k < |t|
    ensures CountFor(t, t[k].brand) == t[k].count
  {
    if k > 0 {
      assert DistinctBrands(t[1..]) by {
        assert forall i :: 0 <= i < |t[1..]| ==> t[1..][i] == t[i + 1];
      }
      assert t[1..][k - 1] == t[k];
      CountForRow(t[1..], k - 1);
    }
  }

  /**
   * Stable insertion by descending count: `x` goes before the first row
   * whose count it reaches. This order (descending, on brand counts) is not
   * the median's (ascending, on reals) or the catalog's (ascending price,
   * missing last); each sort keeps its own key so that its lemmas speak
   * about that key directly.
   */
  function InsertByCount(x: BrandCount, t: seq<BrandCount>): seq<BrandCount>
  {
    if t == [] || x.count >= t[0].count then [x] + t else [t[0]] + InsertByCount(x, t[1..])
  }

  /** Sorts by descending count, keeping the order of rows with equal counts. */
  function SortByCount(t: seq<BrandCount>): seq<BrandCount>
  {
    if t == [] then [] else InsertByCount(t[0], SortByCount(t[1..]))
  }

  lemma {:induction false} InsertByCountMultiset(x: BrandCount, t: seq<BrandCount>)
    ensures multiset(InsertByCount(x, t)) == multiset(t) + multiset{x}
  {
    if t != [] && x.count < t[0].count {
      InsertByCountMultiset(x, t[1..]);
      assert t == [t[0]] + t[1..];
    }
  }

  lemma {:induction false} InsertByCountKeys(x: BrandCount, t: seq<BrandCount>)
    ensures Keys(InsertByCount(x, t)) == Keys(t) + {x.brand}
  {
    var r := InsertByCount(x, t);
    KeysCons(r);
    if t == [] || x.count >= t[0].count {
      assert r[1..] == t;
    } else {
      InsertByCountKeys(x, t[1..]);
      KeysCons(t);
      assert r[1..] == InsertByCount(x, t[1..]);
    }
  }

  lemma {:induction false} InsertByCountTotal(x: BrandCount, t: seq<BrandCount>)
    ensures Total(InsertByCount(x, t)) == Total(t) + x.count
  {
    var r := InsertByCount(x, t);
    if t == [] || x.count >= t[0].count {
      assert r[1..] == t;
    } else {
      InsertByCountTotal(x, t[1..]);
      assert r[1..] == InsertByCount(x, t[1..]);
    }
  }

  lemma {:induction false} InsertByCountBound(x: BrandCount, t: seq<BrandCount>, hi: nat)
    requires x.count <= hi && forall k :: 0 <= k < |t| ==> t[k].count <= hi
    ensures forall k :: 0 <= k < |InsertByCount(x, t)| ==> InsertByCount(x, t)[k].count <= hi
  {
    if t != [] && x.count < t[0].count {
      InsertByCountBound(x, t[1..], hi);
    }
  }

  lemma {:induction false} InsertByCountOrdered(x: BrandCount, t: seq<BrandCount>)
    requires NonIncreasing(t)
    ensures NonIncreasing(InsertByCount(x, t))
  {
    var r := InsertByCount(x, t);
    if t == [] || x.count >= t[0].count {
      forall i, j | 0 <= i < j < |r|
        ensures r[i].count >= r[j].count
      {
        if i == 0 && j > 1 {
          assert t[0].count >= t[j - 1].count;
        }
      }
    } else {
      var u := InsertByCount(x, t[1..]);
      InsertByCountOrdered(x, t[1..]);
      InsertByCountBound(x, t[1..], t[0].count);
      forall i, j | 0 <= i < j < |r|
        ensures r[i].count >= r[j].count
      {
        if i > 0 {
          assert r[i] == u[i - 1];
        }
        assert r[j] == u[j - 1];
      }
    }
  }

  lemma {:induction false} InsertByCountDistinct(x: BrandCount, t: seq<BrandCount>)
    requires DistinctBrands(t) && x.brand !in Keys(t)
    ensures DistinctBrands(InsertByCount(x, t))
  {
    if t == [] || x.count >= t[0].count {
      ConsDistinct(x, t);
    } else {
      var u := InsertByCount(x, t[1..]);
      KeysCons(t);
      DistinctTail(t);
      InsertByCountDistinct(x, t[1..]);
      InsertByCountKeys(x, t[1..]);
      ConsDistinct(t[0], u);
    }
  }

  /** A row whose brand the table does not list can go in front without a repeat. */
  lemma ConsDistinct(a: BrandCount, u: seq<BrandCount>)
    requires DistinctBrands(u) && a.brand !in Keys(u)
    ensures DistinctBrands([a] + u)
  {
    var r := [a] + u;
    forall i, j | 0 <= i < j < |r|
      ensures r[i].brand != r[j].brand
    {
      assert r[j] == u[j - 1];
      if i == 0 {
        assert u[j - 1].brand in Keys(u);
      } else {
        assert r[i] == u[i - 1];
      }
    }
  }

  lemma SortByCountSpec(t: seq<BrandCount>)
    requires DistinctBrands(t)
    ensures multiset(SortByCount(t)) == multiset(t)
    ensures Keys(SortByCount(t)) == Keys(t)
    ensures Total(SortByCount(t)) == Total(t)
    ensures DistinctBrands(SortByCount(t)) && NonIncreasing(SortByCount(t))
  {
    SortByCountMultiset(t);
    SortByCountKeys(t);
    SortByCountOrdered(t);
    SortByCountDistinct(t);
  }

  lemma {:induction false} SortByCountMultiset(t: seq<BrandCount>)
    ensures multiset(SortByCount(t)) == multiset(t)
  {
    if t != [] {
      SortByCountMultiset(t[1..]);
      InsertByCountMultiset(t[0], SortByCount(t[1..]));
      assert t == [t[0]] + t[1..];
    }
  }

  lemma {:induction false} SortByCountKeys(t: seq<BrandCount>)
    ensures Keys(SortByCount(t)) == Keys(t)
    ensures Total(SortByCount(t)) == Total(t)
  {
    if t != [] {
      SortByCountKeys(t[1..]);
      InsertByCountKeys(t[0], SortByCount(t[1..]));
      InsertByCountTotal(t[0], SortByCount(t[1..]));
      KeysCons(t);
    }
  }

  lemma {:induction false} SortByCountOrdered(t: seq<BrandCount>)
    ensures NonIncreasing(SortByCount(t))
  {
    if t != [] {
      SortByCountOrdered(t[1..]);
      InsertByCountOrdered(t[0], SortByCount(t[1..]));
    }
  }

  lemma {:induction false} SortByCountDistinct(t: seq<BrandCount>)
    requires DistinctBrands(t)
    ensures DistinctBrands(SortByCount(t))
  {
    if t != [] {
      DistinctTail(t);
      SortByCountDistinct(t[1..]);
      SortByCountKeys(t[1..]);
      InsertByCountDistinct(t[0], SortByCount(t[1..]));
    }
  }

  /**
   * `compute_brand_share`: `df['brand'].value_counts()` as a (brand, count)
   * table. Every present brand is listed once with its number of
   * occurrences, missing brands are skipped, the counts add up to the
   * number of rows that have a brand, and the largest counts come first.
   */
  function ComputeBrandShare(df: seq<Laptop>): (r: seq<BrandCount>)
    ensures DistinctBrands(r) && NonIncreasing(r)
    ensures forall k :: 0 <= k < |r| ==> r[k].count == Occurrences(Brands(df), r[k].brand) >= 1
    ensures forall b :: b in Keys(r) <==> Some(b) in Brands(df)
    ensures Total(r) == PresentCount(Brands(df))
    ensures df == [] ==> r == []
  {
    var bs := Brands(df);
    ShareCounts(bs);
    SortByCount(Tally(bs))
  }

  /** What the sorted tally of a brand column holds. */
  lemma ShareCounts(bs: seq<Option<string>>)
    ensures var r := SortByCount(Tally(bs));
      && DistinctBrands(r) && NonIncreasing(r)
      && (forall k :: 0 <= k < |r| ==> r[k].count == Occurrences(bs, r[k].brand) >= 1)
      && (forall b :: b in Keys(r) <==> Some(b) in bs)
      && Total(r) == PresentCount(bs)
  {
    var t := Tally(bs);
    TallySpec(bs);
    SortByCountSpec(t);
    var r := SortByCount(t);
    forall k | 0 <= k < |r|
      ensures r[k].count == Occurrences(bs, r[k].brand) >= 1
    {
      assert r[k] in multiset(t);
      var j :| 0 <= j < |t| && t[j] == r[k];
      CountForRow(t, j);
    }
    forall b
      ensures Occurrences(bs, b) > 0 <==> Some(b) in bs
    {
      OccurrencesPositive(bs, b);
    }
  }

  lemma {:induction false} OccurrencesPositive(bs: seq<Option<string>>, b: string)
    ensures Occurrences(bs, b) > 0 <==> Some(b) in bs
  {
    if bs != [] {
      OccurrencesPositive(bs[..|bs| - 1], b);
      assert bs == bs[..|bs| - 1] + [bs[|bs| - 1]];
    }
  }

  // ================================================================ compute_trends

  /** The three per-year series of the long-format trend table, in the order they are concatenated. */
  datatype Metric = AvgPrice | AvgBattery | PctOled
  {
    /** The label written to the `metric` column. */
    function Name(): (s: string)
      ensures |s| > 0
    {
      match this
      case AvgPrice => "avg_price"
      case AvgBattery => "avg_battery"
      case PctOled => "pct_oled"
    }
  }

  /**
   * The `metric` column carries the labels `avg_price`, `avg_battery` and
   * `pct_oled`, one per series, so a label tells its series apart from the
   * other two.
   */
  lemma MetricLabels(m: Metric, n: Metric)
    ensures AvgPrice.Name() == "avg_price" && AvgBattery.Name() == "avg_battery" && PctOled.Name() == "pct_oled"
    ensures m.Name() == n.Name() <==> m == n
  {
  }

  /**
   * One row of the long table. Each row comes from exactly one of the three
   * per-metric frames, so only that metric's value column is filled; the
   * other two are NaN after the concatenation.
   */
  datatype TrendRow = TrendRow(releaseYear: int, metric: Metric,
                               avgPrice: Option<real>, avgBattery: Option<real>, pctOled: Option<real>)

  predicate StrictlyAscending(s: seq<int>)
  {
    forall i, j :: 0 <= i < j < |s| ==> s[i] < s[j]
  }

  /** Adds `y` to a strictly ascending list of years, unless it is already there. */
  function InsertYear(y: int, s: seq<int>): (r: seq<int>)
    requires StrictlyAscending(s)
    ensures StrictlyAscending(r)
    ensures forall x :: x in r <==> x == y || x in s
  {
    if s == [] || y < s[0] then [y] + s
    else if y == s[0] then s
    else
      var t := InsertYear(y, s[1..]);
      assert forall x :: x in s <==> x == s[0] || x in s[1..];
      assert forall i :: 0 <= i < |s[1..]| ==> s[0] < s[1..][i];
      assert forall x :: x in t ==> s[0] < x;
      assert forall i :: 0 <= i < |t| ==> t[i] in t;
      [s[0]] + t
  }

  /** The group keys of `groupby('release_year')`: each year of the table once, ascending. */
  function Years(df: seq<Laptop>): (ys: seq<int>)
    ensures StrictlyAscending(ys)
    ensures forall y :: y in ys <==> exists i :: 0 <= i < |df| && df[i].releaseYear == y
  {
    if df == [] then []
    else
      var init := df[..|df| - 1];
      var ys := InsertYear(df[|df| - 1].releaseYear, Years(init));
      assert forall i :: 0 <= i < |init| ==> init[i] == df[i];
      ys
  }

  /**
   * The rows of year `y`, in table order (one group of
   * `groupby('release_year')`). A selection like `Seqs.Where`, written out on
   * the year so that the grouping lemmas need no closure over `y`.
   */
  function Group(df: seq<Laptop>, y: int): seq<Laptop>
  {
    if df == [] then []
    else if df[0].releaseYear == y then [df[0]] + Group(df[1..], y)
    else Group(df[1..], y)
  }

  /** The value a row contributes to an averaged metric. */
  function ValueOf(r: Laptop, m: Metric): Option<real>
    requires m != PctOled
  {
    if m == AvgPrice then r.priceUsd else r.batteryWh
  }

  /** The value column a metric averages, read from a group. */
  function ValueColumn(g: seq<Laptop>, m: Metric): (col: seq<Option<real>>)
    requires m != PctOled
    ensures |col| == |g|
    ensures forall i :: 0 <= i < |g| ==> col[i] == ValueOf(g[i], m)
  {
    seq(|g|, i requires 0 <= i < |g| => ValueOf(g[i], m))
  }

  /** How many rows of a group have an OLED display. */
  function OledCount(g: seq<Laptop>): nat
  {
    if g == [] then 0 else (if g[0].isOled then 1 else 0) + OledCount(g[1..])
  }

  lemma {:induction false} OledCountBounds(g: seq<Laptop>)
    ensures OledCount(g) <= |g|
    ensures OledCount(g) == |g| <==> forall i :: 0 <= i < |g| ==> g[i].isOled
    ensures OledCount(g) == 0 <==> forall i :: 0 <= i < |g| ==> !g[i].isOled
  {
    if g != [] {
      OledCountBounds(g[1..]);
      assert forall i :: 1 <= i < |g| ==> g[i] == g[1..][i - 1];
    }
  }

  /**
   * The mean of the boolean `is_oled` column of a non-empty group: the
   * share of its rows that have an OLED display.
   */
  function OledShare(g: seq<Laptop>): real
    requires g != []
  {
    OledCount(g) as real / |g| as real
  }

  /** The share lies in [0, 1] and is 1 or 0 exactly when all or none of the rows are OLED. */
  lemma OledShareSpec(g: seq<Laptop>)
    requires g != []
    ensures 0.0 <= OledShare(g) <= 1.0
    ensures OledShare(g) == 1.0 <==> forall i :: 0 <= i < |g| ==> g[i].isOled
    ensures OledShare(g) == 0.0 <==> forall i :: 0 <= i < |g| ==> !g[i].isOled
  {
    OledCountBounds(g);
    FractionBounds(OledCount(g) as real, |g| as real);
  }

  /** A fraction `c / n` with `0 <= c <= n` lies in [0, 1], and is 1 or 0 exactly when `c` is `n` or 0. */
  lemma FractionBounds(c: real, n: real)
    requires 0.0 <= c <= n && n > 0.0
    ensures 0.0 <= c / n <= 1.0
    ensures c / n == 1.0 <==> c == n
    ensures c / n == 0.0 <==> c == 0.0
  {
    var q := c / n;
    assert q * n == c;
    assert (1.0 - q) * n == n - c;
  }

  /** A row of `df` is in the group of `y` iff it is from that year. */
  lemma GroupMembers(df: seq<Laptop>, y: int)
    ensures forall x :: x in Group(df, y) <==> x in df && x.releaseYear == y
  {
    if df != [] {
      GroupMembers(df[1..], y);
      assert forall x :: x in df <==> x == df[0] || x in df[1..];
    }
  }

  /** The value of `m` for the rows of year `y`, or `None` (NaN) when there is nothing to average. */
  function MetricValue(df: seq<Laptop>, y: int, m: Metric): Option<real>
  {
    var g := Group(df, y);
    match m
    case PctOled => if g == [] then None else Some(OledShare(g))
    case _ => MeanOf(ValueColumn(g, m))
  }

  /**
   * A yearly average is present iff some row of that year has the value
   * (NaN cells are skipped), and it lies between that year's smallest and
   * largest value.
   */
  lemma AverageMeaning(df: seq<Laptop>, y: int, m: Metric)
    requires m != PctOled
    ensures (MetricValue(df, y, m).Some?
             <==> exists i :: 0 <= i < |df| && df[i].releaseYear == y && ValueOf(df[i], m).Some?)
    ensures MetricValue(df, y, m).Some? ==>
              var xs := Present(ValueColumn(Group(df, y), m));
              |xs| > 0 && MinOf(xs) <= MetricValue(df, y, m).value <= MaxOf(xs)
  {
    var g := Group(df, y);
    var col := ValueColumn(g, m);
    HasPresentIff(col);
    GroupMembers(df, y);
    forall i | 0 <= i < |df| && df[i].releaseYear == y && ValueOf(df[i], m).Some?
      ensures HasPresent(col)
    {
      assert df[i] in g;
      var j :| 0 <= j < |g| && g[j] == df[i];
      assert col[j].Some?;
    }
    if HasPresent(col) {
      var j :| 0 <= j < |col| && col[j].Some?;
      assert g[j] in df;
      var i :| 0 <= i < |df| && df[i] == g[j];
      assert df[i].releaseYear == y && ValueOf(df[i], m).Some?;
    }
  }

  /**
   * The OLED share is present for every year that has rows, lies in
   * [0, 1], and is 1 or 0 exactly when all or none of that year's laptops
   * have an OLED display.
   */
  lemma OledShareMeaning(df: seq<Laptop>, y: int)
    ensures (MetricValue(df, y, PctOled).Some? <==> exists i :: 0 <= i < |df| && df[i].releaseYear == y)
    ensures MetricValue(df, y, PctOled).Some? ==> 0.0 <= MetricValue(df, y, PctOled).value <= 1.0
    ensures MetricValue(df, y, PctOled).Some? ==>
              (MetricValue(df, y, PctOled).value == 1.0
               <==> forall i :: 0 <= i < |df| && df[i].releaseYear == y ==> df[i].isOled)
    ensures MetricValue(df, y, PctOled).Some? ==>
              (MetricValue(df, y, PctOled).value == 0.0
               <==> forall i :: 0 <= i < |df| && df[i].releaseYear == y ==> !df[i].isOled)
  {
    var g := Group(df, y);
    GroupIndices(df, y);
    if g != [] {
      var i :| 0 <= i < |df| && df[i] == g[0];
      OledShareSpec(g);
    }
    GroupAll(df, y, true);
    GroupAll(df, y, false);
  }

  /** Every row of a year's group is a row of the table from that year, and conversely. */
  lemma GroupIndices(df: seq<Laptop>, y: int)
    ensures forall i :: 0 <= i < |df| && df[i].releaseYear == y ==> df[i] in Group(df, y)
    ensures forall j :: 0 <= j < |Group(df, y)| ==>
              Group(df, y)[j].releaseYear == y && exists i :: 0 <= i < |df| && df[i] == Group(df, y)[j]
  {
    GroupMembers(df, y);
    var g := Group(df, y);
    forall j | 0 <= j < |g|
      ensures g[j].releaseYear == y && exists i :: 0 <= i < |df| && df[i] == g[j]
    {
      assert g[j] in g;
      assert g[j] in df;
    }
  }

  /** All rows of the group have `isOled == v` iff all rows of that year do. */
  lemma GroupAll(df: seq<Laptop>, y: int, v: bool)
    ensures ((forall j :: 0 <= j < |Group(df, y)| ==> Group(df, y)[j].isOled == v)
             <==> forall i :: 0 <= i < |df| && df[i].releaseYear == y ==> df[i].isOled == v)
  {
    var g := Group(df, y);
    GroupIndices(df, y);
    if forall j :: 0 <= j < |g| ==> g[j].isOled == v {
      forall i | 0 <= i < |df| && df[i].releaseYear == y
        ensures df[i].isOled == v
      {
        assert df[i] in g;
        var j :| 0 <= j < |g| && g[j] == df[i];
      }
    }
    if forall i :: 0 <= i < |df| && df[i].releaseYear == y ==> df[i].isOled == v {
      forall j | 0 <= j < |g|
        ensures g[j].isOled == v
      {
        var i :| 0 <= i < |df| && df[i] == g[j];
      }
    }
  }

  /** The row the frame of metric `m` contributes for year `y`: only `m`'s column is filled. */
  function TrendRowFor(df: seq<Laptop>, y: int, m: Metric): (t: TrendRow)
    ensures t.releaseYear == y && t.metric == m
    ensures t.avgPrice == (if m == AvgPrice then MetricValue(df, y, m) else None)
    ensures t.avgBattery == (if m == AvgBattery then MetricValue(df, y, m) else None)
    ensures t.pctOled == (if m == PctOled then MetricValue(df, y, m) else None)
  {
    var v := MetricValue(df, y, m);
    match m
    case AvgPrice => TrendRow(y, m, v, None, None)
    case AvgBattery => TrendRow(y, m, None, v, None)
    case PctOled => TrendRow(y, m, None, None, v)
  }

  /** `b` is metric `m`'s frame for the years `ys`: one row per year, in that order. */
  predicate IsBlock(b: seq<TrendRow>, ys: seq<int>, m: Metric)
  {
    |b| == |ys| && forall k :: 0 <= k < |b| ==> b[k].releaseYear == ys[k] && b[k].metric == m
  }

  /** One metric's frame. */
  function Block(df: seq<Laptop>, ys: seq<int>, m: Metric): (b: seq<TrendRow>)
    ensures IsBlock(b, ys, m)
    decreases |ys|
  {
    if ys == [] then []
    else
      var rest := Block(df, ys[1..], m);
      assert forall k :: 1 <= k < |ys| ==> ys[k] == ys[1..][k - 1];
      [TrendRowFor(df, ys[0], m)] + rest
  }

  /** Row `k` of a frame is the row for the `k`-th year. */
  lemma {:induction false} BlockRow(df: seq<Laptop>, ys: seq<int>, m: Metric, k: int)
    requires 0 <= k < |ys|
    ensures Block(df, ys, m)[k] == TrendRowFor(df, ys[k], m)
    decreases k
  {
    if k > 0 {
      BlockRow(df, ys[1..], m, k - 1);
    }
  }

  /** The years of the table. */
  function YearSet(df: seq<Laptop>): set<int>
  {
    set i | 0 <= i < |df| :: df[i].releaseYear
  }

  /** The years the long table has a row of metric `m` for. */
  function YearsWith(r: seq<TrendRow>, m: Metric): set<int>
  {
    set k | 0 <= k < |r| && r[k].metric == m :: r[k].releaseYear
  }

  /**
   * `compute_trends`: the per-year average price, average battery and OLED
   * share, concatenated in that order into one long table of `3 * n` rows,
   * `n` the number of distinct years, each block listing the years in
   * ascending order. What each row holds is stated by `TrendsRow`.
   */
  function ComputeTrends(df: seq<Laptop>): (r: seq<TrendRow>)
    ensures var n := |Years(df)|;
      && |r| == 3 * n
      && IsBlock(r[..n], Years(df), AvgPrice)
      && IsBlock(r[n..2 * n], Years(df), AvgBattery)
      && IsBlock(r[2 * n..], Years(df), PctOled)
  {
    var ys := Years(df);
    var prices := Block(df, ys, AvgPrice);
    var batteries := Block(df, ys, AvgBattery);
    var oled := Block(df, ys, PctOled);
    var r := prices + batteries + oled;
    assert r[..|ys|] == prices;
    assert r[|ys|..2 * |ys|] == batteries;
    assert r[2 * |ys|..] == oled;
    r
  }

  /** Each row of the long table carries its metric's value for its year, and only that value. */
  lemma TrendsRow(df: seq<Laptop>, k: int)
    requires 0 <= k < |ComputeTrends(df)|
    ensures var t := ComputeTrends(df)[k];
      t == TrendRowFor(df, t.releaseYear, t.metric)
  {
    var ys := Years(df);
    var n := |ys|;
    var r := ComputeTrends(df);
    var prices := Block(df, ys, AvgPrice);
    var batteries := Block(df, ys, AvgBattery);
    var oled := Block(df, ys, PctOled);
    assert r == prices + batteries + oled;
    if k < n {
      assert r[k] == prices[k];
      BlockRow(df, ys, AvgPrice, k);
    } else if k < 2 * n {
      assert r[k] == batteries[k - n];
      BlockRow(df, ys, AvgBattery, k - n);
    } else {
      assert r[k] == oled[k - 2 * n];
      BlockRow(df, ys, PctOled, k - 2 * n);
    }
  }

  /** Where row `k` of the long table sits: its metric, and the year it is about. */
  lemma TrendsLayout(df: seq<Laptop>, k: int)
    requires 0 <= k < |ComputeTrends(df)|
    ensures var r, ys := ComputeTrends(df), Years(df);
      && (k < |ys| ==> r[k].metric == AvgPrice && r[k].releaseYear == ys[k])
      && (|ys| <= k < 2 * |ys| ==> r[k].metric == AvgBattery && r[k].releaseYear == ys[k - |ys|])
      && (2 * |ys| <= k ==> r[k].metric == PctOled && r[k].releaseYear == ys[k - 2 * |ys|])
  {
    var r, ys := ComputeTrends(df), Years(df);
    var n := |ys|;
    if k < n {
      assert r[..n][k] == r[k];
    } else if k < 2 * n {
      assert r[n..2 * n][k - n] == r[k];
    } else {
      assert r[2 * n..][k - 2 * n] == r[k];
    }
  }

  /** The first row of metric `m`'s block. */
  function BlockStart(m: Metric, n: nat): nat
  {
    match m
    case AvgPrice => 0
    case AvgBattery => n
    case PctOled => 2 * n
  }

  /** Each metric has exactly one row per year of the table. */
  lemma TrendsCoverYears(df: seq<Laptop>, m: Metric)
    ensures YearsWith(ComputeTrends(df), m) == YearSet(df)
  {
    forall y | y in YearSet(df)
      ensures y in YearsWith(ComputeTrends(df), m)
    {
      TrendsHasYear(df, m, y);
    }
    forall y | y in YearsWith(ComputeTrends(df), m)
      ensures y in YearSet(df)
    {
      var k :| 0 <= k < |ComputeTrends(df)| && ComputeTrends(df)[k].metric == m && ComputeTrends(df)[k].releaseYear == y;
      TrendsRowYear(df, k);
    }
  }

  /** Every year of the table has a row of metric `m`. */
  lemma TrendsHasYear(df: seq<Laptop>, m: Metric, y: int)
    requires y in YearSet(df)
    ensures y in YearsWith(ComputeTrends(df), m)
  {
    var ys := Years(df);
    assert y in ys;
    var j :| 0 <= j < |ys| && ys[j] == y;
    var k := BlockStart(m, |ys|) + j;
    TrendsAt(df, m, j);
    var r := ComputeTrends(df);
    assert 0 <= k < |r| && r[k].metric == m && r[k].releaseYear == y;
  }

  /** Position `j` of metric `m`'s block is the row of `m` for the `j`-th year. */
  lemma TrendsAt(df: seq<Laptop>, m: Metric, j: int)
    requires 0 <= j < |Years(df)|
    ensures var k := BlockStart(m, |Years(df)|) + j;
      k < |ComputeTrends(df)| &&
      ComputeTrends(df)[k].metric == m && ComputeTrends(df)[k].releaseYear == Years(df)[j]
  {
    var r, ys := ComputeTrends(df), Years(df);
    var n := |ys|;
    match m
    case AvgPrice => assert r[..n][j] == r[j];
    case AvgBattery => assert r[n..2 * n][j] == r[n + j];
    case PctOled => assert r[2 * n..][j] == r[2 * n + j];
  }

  /** Every row of the long table is about a year of the table. */
  lemma TrendsRowYear(df: seq<Laptop>, k: int)
    requires 0 <= k < |ComputeTrends(df)|
    ensures ComputeTrends(df)[k].releaseYear in YearSet(df)
  {
    var ys := Years(df);
    var n := |ys|;
    TrendsLayout(df, k);
    var j := if k < n then k else if k < 2 * n then k - n else k - 2 * n;
    assert ComputeTrends(df)[k].releaseYear == ys[j];
    YearsInTable(df, j);
  }

  /** Each listed year is the year of some row. */
  lemma YearsInTable(df: seq<Laptop>, j: int)
    requires 0 <= j < |Years(df)|
    ensures Years(df)[j] in YearSet(df)
  {
    assert Years(df)[j] in Years(df);
  }

  /** Within a metric the years are strictly ascending, the order `groupby` produces. */
  lemma TrendsAscending(df: seq<Laptop>, k: int, l: int)
    requires 0 <= k < l < |ComputeTrends(df)|
    requires ComputeTrends(df)[k].metric == ComputeTrends(df)[l].metric
    ensures ComputeTrends(df)[k].releaseYear < ComputeTrends(df)[l].releaseYear
  {
    TrendsLayout(df, k);
    TrendsLayout(df, l);
  }

  /** The long table is empty exactly when the input table is. */
  lemma TrendsEmpty(df: seq<Laptop>)
    ensures df == [] <==> ComputeTrends(df) == []
  {
    if df != [] {
      assert df[0].releaseYear in Years(df);
    }
  }
}
