# Laptop trends dashboard — a Dafny model of its core

This project models the core of the laptop-trends dashboard. That core is
the data-processing module and the parts of the Streamlit page that work on
the filtered table.

- **Loading.** `load_data` normalises the CSV table. Brand names are
  stripped and title-cased. Missing prices and batteries are filled with the
  median of the column. (A price or battery cell holding text that does not
  parse makes `load_data` raise, because the median of a text column cannot
  be taken; the model treats such a cell as missing.) A missing screen size becomes 13.3
  and a missing release year becomes 2025; years are then cast to integers.
  Two flags are derived: `is_ai_cpu` and `is_oled`.
- **Filtering.** `filter_data` is a conjunctive filter. It narrows by brand,
  then by an inclusive price range, then by an inclusive screen range, then
  by the AI-CPU selector ("Усі", "Із AI", "Без AI").
- **Brand share.** `compute_brand_share` counts the rows of each present
  brand (`value_counts`), most frequent first.
- **Trends.** `compute_trends` builds the long-format table. It has one block
  per metric: `avg_price`, then `avg_battery`, then `pct_oled`. Each block
  has one row per release year, in ascending order.
- **Sanitising.** Before display, `sanitize_text_columns` defuses
  `http://` and `https://` in every text column, writing `[:]//` for the
  `://`. When the regular-expression replace raises, it falls back to
  replacing every `://`. It then cuts cells longer than 300 characters to
  300 characters plus `...`. The card view undoes the escape to get the
  thumbnail URL, or uses a placeholder image.
- **Catalog.** The catalog sorts the filtered rows by price and counts the
  pages (`max(1, ceil(total / page_size))`). It keeps the current page in
  the session state, moved by the Prev and Next buttons and the jump input,
  and shows the slice of rows on the current page, after sanitising the
  text cells of the sorted rows.

Modules:

| module | file | contents |
|---|---|---|
| `Wrappers` | wrappers.dfy | `Option`, the missing cell |
| `Seqs` | seqs.dfy | filtering a sequence by a mask, subsequences |
| `Text` | text.dfy | Python's `strip`, `title`, `lower`, substring search, `replace` |
| `Stats` | stats.dfy | sum, mean, minimum, maximum, ascending sort, median over the present cells |
| `DataProcessing` | data_processing.dfy | `load_data`, `filter_data`, `compute_brand_share`, `compute_trends` |
| `Sanitize` | sanitize.dfy | `sanitize_text_columns` and the thumbnail un-escape |
| `Catalog` | catalog.dfy | the price sort, the sanitised listings, the page count, the page slice, the `Pager` class |

Modelling choices:

- **Numbers.** Numbers are exact `real`s. A missing cell is `None`.
  Pandas' median and mean skip missing cells and are `None` (NaN) when no
  cell is present. A price or battery cell with unparseable text makes the
  source raise (see "## Left out"); the model reads it as `None`.
- **Case mapping.** Case mapping covers ASCII letters. The whitespace that
  `strip` removes is Python's full set.
- **Sort order.** `value_counts` and `sort_values` are modelled as stable
  insertion sorts. The source does not fix the order of ties, so the
  contracts do not state it either.
- **Regex fallback.** Which text columns take the fallback branch of the
  sanitiser is a parameter (`failing`), because it depends on pandas raising
  an exception.
- **Pager.** The page counter is a class whose methods update its one field.
  The value the jump input returns is a parameter. The number input raises
  when its value lies outside `[1, total_pages]`, and the catalog catches
  that and shows an error; the model reports it as `ok == false`.

The trends table follows the code rather than the `year`/`value` columns
the trend chart asks for (app.py:342-344). Each row carries `release_year`, the
metric name and the three value columns. Only the metric's own column is
filled; the other two are `None` (NaN), as `pd.concat` leaves them.

## Model

| member | source | states |
|---|---|---|
| DataProcessing.NormalizeBrand | src/data_processing.py:7 | a brand stays missing iff it was missing; the result has no surrounding whitespace, is title-cased, and differs from the stripped brand only in letter case |
| DataProcessing.TruncateToInt | src/data_processing.py:11 | `astype(int)` truncates toward zero: the result lies within 1 of the value, on the zero side |
| DataProcessing.AiCpu | src/data_processing.py:13 | the flag holds iff the CPU is present and contains "ultra" or "ai" in any case; the "Ryzen AI" alternative adds nothing |
| DataProcessing.OledDisplay | src/data_processing.py:14 | the flag holds iff the display type is present and has the letters o, l, e, d in a row, each in either case |
| Text.ContainsNoCaseAt | src/data_processing.py:13-14 | searching the lowered text (`case=False`) is the same as matching the needle position by position with each character lowered |
| DataProcessing.OledIgnoresCase | src/data_processing.py:14 | display names that agree once lowered get the same OLED flag |
| DataProcessing.OledExamples | src/data_processing.py:14 | "OLED", "oled" and "2.8K Oled" are flagged; "LCD" and a missing name are not |
| DataProcessing.LoadData | src/data_processing.py:4-15 | same number of rows; each row is normalised using the medians of the raw price and battery columns; present prices are kept; a missing price becomes the median, which lies between the smallest and largest present price; no price stays missing when one is present; screen default 13.3; year default 2025; whole years are kept; both flags are as above |
| DataProcessing.LoadedRows | src/data_processing.py:8-14 | normalising each row with the two column medians fills the table as `load_data` promises: present prices and batteries are kept and missing ones become the median; screen sizes default to 13.3 and years to 2025; the AI and OLED flags hold exactly for the matching CPU and display names |
| Stats.Median | src/data_processing.py:8 | the median lies between the two middle values of the sorted values, and so between the smallest and largest value |
| Stats.MedianSplits | src/data_processing.py:8-10 | the median splits the values in halves: at least half of them are at most the median and at least half are at least the median |
| Stats.MedianOf | src/data_processing.py:8 | the median exists iff some value is present, and lies between the smallest and largest present value |
| Stats.MeanOf | src/data_processing.py:38-39 | the mean exists iff some value is present, and lies between the smallest and largest present value |
| Text.Strip | src/data_processing.py:7 | the result is a contiguous piece of the input with no whitespace at either end, and everything cut off on either side is whitespace |
| Text.TitleIsTitleCased | src/data_processing.py:7 | `title` is idempotent: its result is title-cased and titling it again changes nothing |
| Text.StripEmptyIffBlank | app.py:285 | `s.strip()` is empty iff every character of `s` is whitespace |
| DataProcessing.Narrow | src/data_processing.py:19-20 | one boolean-mask selection: the kept rows are exactly the rows the mask accepts, in their order |
| DataProcessing.NarrowPrice | src/data_processing.py:21-22 | after the price step, the rows are those of the input that pass the brand test and the inclusive price range |
| DataProcessing.NarrowScreen | src/data_processing.py:23-24 | after the screen step, the rows also lie in the inclusive screen range |
| DataProcessing.NarrowAi | src/data_processing.py:25-28 | after the AI step, the rows also have `is_ai_cpu` for "Із AI" and lack it for "Без AI"; any other label leaves them |
| DataProcessing.FilterData | src/data_processing.py:17-29 | the result is the input restricted to the rows that meet every given criterion |
| DataProcessing.FilterSelects | src/data_processing.py:17-29 | the result is a subsequence of the input in the same order; a row is in it iff it is in the input and meets every criterion; each kept row keeps its number of copies; with no criteria the input comes back unchanged |
| DataProcessing.TallySpec | src/data_processing.py:32 | the tally lists each present brand exactly once, with the number of rows that have it, and no absent brand |
| DataProcessing.SortByCountSpec | src/data_processing.py:32 | ordering by count keeps the same brand counts and puts them in non-increasing order |
| DataProcessing.ShareCounts | src/data_processing.py:31-34 | the value counts list distinct brands in non-increasing count order, each with its count of rows; the counts add up to the number of rows with a brand |
| DataProcessing.ComputeBrandShare | src/data_processing.py:31-34 | distinct brands, most frequent first; a brand is listed iff some row has it, with that many rows (at least one); the counts sum to the rows with a brand; an empty table gives an empty share |
| DataProcessing.Years | src/data_processing.py:38-40 | the group keys: strictly ascending, and a year is listed iff some row has it |
| DataProcessing.AverageMeaning | src/data_processing.py:38-39 | a year's average price or battery exists iff some row of that year has the value, and lies between the smallest and largest such value |
| DataProcessing.FractionBounds | src/data_processing.py:40 | a share `c / n` of a non-empty group lies in [0, 1], and is 1 or 0 exactly when all or none of the rows count |
| DataProcessing.OledShareSpec | src/data_processing.py:40 | the mean of the OLED flags of a non-empty group lies in [0, 1]; it is 1 iff every row is OLED and 0 iff none is |
| DataProcessing.OledShareMeaning | src/data_processing.py:40 | a year's OLED share exists iff the year occurs, lies in [0, 1], is 1 iff all of that year's rows are OLED and 0 iff none is |
| DataProcessing.TrendRowFor | src/data_processing.py:42-45 | a long-format row carries its year and metric name; only that metric's column holds the group's value; the other two are missing |
| DataProcessing.ComputeTrends | src/data_processing.py:36-47 | three rows per year: first the `avg_price` block, then `avg_battery`, then `pct_oled`, each over the ascending years |
| DataProcessing.BlockRow | src/data_processing.py:42-44 | row `k` of one metric's frame is the row for the `k`-th year of the group keys |
| DataProcessing.TrendsAt | src/data_processing.py:45 | position `j` of a metric's block in the concatenated table exists and is that metric's row for the `j`-th year |
| DataProcessing.TrendsRow | src/data_processing.py:42-45 | every row of the table is the row for its own year and metric |
| DataProcessing.TrendsLayout | src/data_processing.py:45 | with `n` years, rows below `n` are `avg_price`, rows from `n` to `2n` are `avg_battery` and the rest are `pct_oled`; each row's year is the year at its position within its block |
| DataProcessing.TrendsCoverYears | src/data_processing.py:38-40 | each metric has a row for exactly the years that occur in the input |
| DataProcessing.TrendsAscending | src/data_processing.py:38-45 | within one metric, a later row has a strictly later year |
| DataProcessing.TrendsEmpty | src/data_processing.py:36-47 | the table is empty iff the input is empty |
| Sanitize.EscapeUrlFree | app.py:175 | the regex replace only touches URLs: text without `http://` and `https://` is left unchanged |
| Sanitize.EscapeUrlsTwoReplaces | app.py:175 | the regex replace equals replacing every `https://` by `https[:]//` and then every `http://` by `http[:]//`: only the separator after `http` or `https` changes, everywhere in the text, and nothing else |
| DataProcessing.MetricLabels | src/data_processing.py:42-44 | the `metric` column holds `avg_price`, `avg_battery` and `pct_oled`, and two series share a label only if they are the same series |
| Sanitize.BranchesDiffer | app.py:175-177 | the regex branch leaves `ftp://x` alone; the fallback turns it into `ftp[:]//x` |
| Sanitize.EscapeLeavesNoUrl | app.py:175 | after the regex replace, no `http://` or `https://` is left anywhere in the text |
| Sanitize.UnescapeEscapeUrls | app.py:175 | replacing `[:]//` by `://` again, as the card view does, gives back the text when the text had no `[:]//` of its own |
| Sanitize.FallbackLeavesNoSeparator | app.py:177 | after the fallback replace, no `://` is left, so no URL either |
| Sanitize.UnescapeSeparators | app.py:177 | un-escaping gives back the text after the fallback replace too, when the text had no `[:]//` of its own |
| Sanitize.Truncate | app.py:178 | at most 303 characters; a cell of at most 300 is kept; a longer one becomes its first 300 characters followed by `...` |
| Sanitize.TruncateKeepsAbsent | app.py:178 | truncating cannot create a pattern without a `.` that the cell did not contain |
| Sanitize.SanitizeCell | app.py:174-178 | a sanitised cell is at most 303 characters and holds no URL; after the fallback it holds no `://`; a cell that was short enough is the escaped text unchanged |
| Sanitize.SanitizeTextColumns | app.py:170-179 | same columns and names; non-text columns unchanged; each text column is sanitised cell by cell, with the fallback exactly where the regex replace failed; every text cell is then present, at most 303 characters and URL-free |
| Sanitize.ThumbnailUrl | app.py:284-288 | a missing or blank thumbnail gives the placeholder image; any other is un-escaped |
| Sanitize.MissingThumbnailIsNan | app.py:284-288 | a missing thumbnail cell is sanitised to the text `nan`, which is not blank, so the card view uses `nan` as the image source and not the placeholder |
| Sanitize.ThumbnailRoundTrip | app.py:284-288 | the thumbnail the card view computes from a sanitised URL is the original URL, when the URL is not blank, holds no `[:]//` and fits in 300 characters once escaped |
| Catalog.ListingCell | app.py:173-178 | each of the four text cells of a sanitised listing (`brand`, `model`, `cpu`, `display_type`) is that cell sanitised, on the fallback branch when its column failed |
| Catalog.ListingClean | app.py:173-178 | every text cell of a sanitised listing is present, at most 303 characters long and URL-free |
| Catalog.SanitizeListing | app.py:173-178 | sanitising keeps a listing's price, screen size, battery, year and both flags |
| Catalog.ListingsByColumn | app.py:170-179 | sanitising the listings row by row gives, for each text column, exactly that column as `sanitize_text_columns` rewrites it |
| Catalog.SanitizeKeepsPriceOrder | app.py:243-246 | sanitising after the price sort keeps the rows sorted by price |
| Catalog.SortByPrice | app.py:243 | the same rows (as a multiset), ordered by ascending price, rows without a price last |
| Catalog.TotalPages | app.py:250 | the page count is at least 1; it is the fewest pages of `page_size` rows that hold all rows; one page for no rows |
| Catalog.PageStartIs | app.py:272 | page `page` starts at row `(page - 1) * page_size` |
| Catalog.Page | app.py:272-274 | the slice has at most `page_size` rows: the rows from the page's start on, as many as exist (exactly `page_size` when enough remain, none when the start is past the end) |
| Catalog.PagesCoverRows | app.py:248-274 | pages 1 to the page count, one after another, are exactly the rows, in order |
| Catalog.RowOnPage | app.py:248-274 | every row is shown on an existing page, at position `i % page_size` of page `i / page_size + 1` |
| Catalog.PageSorted | app.py:243-274 | every page of the price-sorted table is itself sorted by price |
| Catalog.ButtonsEffect | app.py:257-266 | the buttons keep a valid page valid, and leave it alone when neither is clicked |
| Catalog.Pager.constructor | app.py:252-253 | the session starts on page 1 |
| Catalog.Pager.Prev | app.py:257-260 | Prev moves back one page unless already on page 1 or below |
| Catalog.Pager.Next | app.py:263-266 | Next moves forward one page unless already on the last page or beyond; it never passes the last page |
| Catalog.Pager.Jump | app.py:267-270 | the page becomes the jump input's value |
| Catalog.Pager.Render | app.py:255-270 | the buttons act first; the jump input fails iff their result lies outside the page range, leaving that result; otherwise the page becomes the input's value; a run that starts on a valid page never fails |
| Catalog.ShowCatalog | app.py:241-274 | rows are shown iff the buttons leave the page within `[1, total_pages]`; then the page becomes the jump value, otherwise it keeps the buttons' result; the shown rows are that page of the price-sorted, sanitised rows: sorted by price, at most `page_size`, every text cell clean; a run that starts on a valid page never fails |

## Left out

- Reading and writing CSV files (`read_csv`, `to_csv`). `LoadData` starts from parsed rows whose numeric cells are already coerced.
- LoadData: the branches for an absent `battery_wh` or `release_year` column (src/data_processing.py:10-11, the default 50 and a one-cell series) are not modelled. Every row carries every column.
- LoadData: a non-empty table whose `brand`, `cpu` or `display_type` column holds no string cell at all is read as a float column, and `.str.strip()` / `.str.contains(...)` then raise (src/data_processing.py:7, 13-14); `load_data` fails there, while the model returns a table (a missing brand stays missing, a missing CPU or display gives a false flag). A column whose every cell looks like a number has the same fate and is not modelled either.
- Catalog.SanitizeListing: `sanitize_text_columns` skips a text column with no string cell (app.py:173 selects object columns only) and keeps NaN there, where the model writes "nan"; the card prints "nan" either way.
- LoadData: the price and battery medians are taken over the coerced cells. The source takes `median()` of the raw column, which agrees when the column is numeric. On a raw column holding text, pandas refuses to take the median.
- Unicode case mapping beyond ASCII letters, in `title`, `lower` and the case-insensitive matches.
- IEEE floating-point rounding in means, medians and comparisons. The model computes with exact reals.
- The order of rows with equal counts or equal prices. The source's sorts do not fix it.
- Streamlit layout and widgets other than the pager: sliders, multiselect, page styling, the card HTML and the four-column grid, the details button, the CSV download and the summary metrics.
- The Plotly charts, including the chart's `year`/`value` columns, which `compute_trends` does not produce (app.py:342-344).
- Logging and the text of error messages.
- The background-image helper src/ui/background.py.
- The drop of a `url` column before sanitising (app.py:244-245).
- ShowCatalog: the listing record has no thumbnail column, so the card view's image source is modelled separately by `ThumbnailUrl`; `MissingThumbnailIsNan` states what it does with a thumbnail that was missing before sanitising.
- SanitizeTextColumns: when the regex replace raises is not modelled; the set of failing column names is a parameter.
- SanitizeTextColumns: a text column holding non-string objects is modelled as strings and missing cells only; a missing cell becomes "nan".
- ThumbnailUrl: a thumbnail that is not a string, or an absent thumbnail column, is modelled as a missing thumbnail.
- Catalog.Pager.Render: the jump input's returned value is a parameter, because Streamlit's widget state is not modelled. The model requires it to lie within the input's own bounds, which Streamlit enforces.
