# Stock Dash, modelled in Dafny

Stock Dash is a single-page stock dashboard. The user types a company name. The
dashboard resolves it to a ticker symbol through a search endpoint and keeps the
symbol, its currency and its time zone in the session. It then shows prices, key
figures and news for that symbol. This project models the logic beside the user
interface and proves properties of it:

- `StatementMerge` (utility/backend.py `merge_and_fill`): merges an annual and a
  quarterly financial statement into one figure per line item. A statement is a
  column count plus, per line item, one optional cell per column. The tables are
  joined side by side, annual columns first and then quarterly ones, by position.
  Each row is back-filled and its first column is kept.
- `Formatting` (`format_num` on integers, including their conversion to a
  double, and `format_pct`'s missing-value case).
- `Lookup` (`get_ticker_symbol` after the HTTP request, `get_currency_from_ticker`,
  `get_timezone_from_ticker`, `get_company_logo`).
- `Currency` (StockDash.py's three currency tables, the base currency, the
  selector's default entry, the price symbol).
- `Session` (the `st.session_state` fields and how entering a new company name
  updates them). It holds a pure `Step` function and a `SessionState` class whose
  `EnterName` method assigns the fields one by one, as the script does, and is
  proved equal to `Step`.
- `PriceHistory` (reindexing a daily-or-coarser price history onto every calendar
  day and forward-filling its four price columns). The `History` class holds the
  table and its `FillDailyGaps` method reassigns it.
- `News` (the defaults used for missing news-article fields).
- `Json` (provider payloads as JSON values, with Python truthiness and `dict.get`)
  and `Wrappers` (`Option`, `Result`).

Where the source raises an exception it does not catch, the model returns an
`Err` or a `Raised` outcome rather than excluding that input with a
precondition, except where "## Left out" says otherwise.

Edge cases of the code that the model keeps as they are:
- The merge fails when the combined table has no columns, because `iloc[:, 0]`
  raises. That includes two empty tables, which one might expect to merge to
  an empty mapping.
- Merge columns are ordered by position, not by date. When both tables hold the
  same period date, both columns are kept and the annual one wins.
- The time-zone accessor can fail: `pytz.timezone` raises for an unknown name.
- The symbol resolver lets a missing `quotes` or `symbol` key raise. It returns
  the first quote's symbol as stored, so a null or empty symbol sends the
  script down its not-found path.
- `format_num` converts an integer to a double before formatting it. Beyond
  2^53 the printed digits are those of the nearest double, not the integer's
  own (2^53 + 1 prints as 2^53), and an integer that rounds to 2^1024 or more
  raises OverflowError.
- The session fields are assigned one at a time, not replaced as a unit. When the
  time-zone lookup raises, the symbol, name and currency are already updated and
  the time zone is not.
- On the not-found path, StockDash.py lines 83-84 read `ticker_obj`, which that
  path never assigns, so the rerun stops with an error. The model keeps the field
  updates of lines 79-82 and returns `Raised(UnboundTicker)`.

## Model

| member | source | states |
|---|---|---|
| `StatementMerge.MergeAndFill` | utility/backend.py:41-44 | the merge fails exactly when the two tables have no columns between them; otherwise its keys are exactly the union of both tables' line items |
| `StatementMerge.Concat` | utility/backend.py:42 | the joined table has the two widths added and the union of the line items; each row holds the annual cells in their positions, then the quarterly cells, with missing cells for a table lacking the line item |
| `StatementMerge.BackFill` | utility/backend.py:43 | present cells stay; a missing cell takes the value of the cell to its right, and a missing last cell stays missing |
| `StatementMerge.BackFillAt` | utility/backend.py:43 | each back-filled cell is the first present value from that column rightwards |
| `StatementMerge.MergePicksFirstPresent` | utility/backend.py:42-43 | each merged value is the first present cell of the line item's combined row: annual columns left to right, then quarterly ones, with missing cells for a table lacking the row |
| `StatementMerge.FirstPresentAppend` | utility/backend.py:42-43 | scanning annual then quarterly cells, the quarterly cells matter only when no annual cell is present |
| `StatementMerge.FirstPresentNone` | utility/backend.py:43 | a row has no first present value exactly when all its cells are missing |
| `StatementMerge.FirstPresentAt` | utility/backend.py:43 | the first present value is the cell at the first present position |
| `StatementMerge.MergeAnnualWins` | utility/backend.py:42-43 | a line item with a present annual cell takes its first present annual cell, whatever the quarterly table holds |
| `StatementMerge.MergeQuarterlyFills` | utility/backend.py:42-43 | a line item the annual table lacks, or holds only missing cells for, takes its first present quarterly cell |
| `StatementMerge.MergeMissingIffAllMissing` | utility/backend.py:43 | the merged value is missing if and only if every cell of the line item in both tables is missing |
| `Formatting.FormatNum` | utility/backend.py:59-60 | the result is "N/A" if and only if the value is missing; it is an overflow error if and only if the value rounded to a double is 2^1024 or more |
| `Formatting.IntToFloat` | utility/backend.py:60 | `float(n)`: an overflow error if and only if the rounded magnitude is 2^1024 or more; otherwise the rounded magnitude with the sign of `n` |
| `Formatting.RoundToDouble` | utility/backend.py:60 | the magnitude of `float(m)`: an integer of at most 53 bits (below 2^53) is kept exactly; any other moves by at most half the weight of the last bit kept |
| `Formatting.RoundToDoubleNearest` | utility/backend.py:60 | beyond 53 bits the converted value is a multiple of the weight of the last kept bit, and on a tie the even multiple |
| `Formatting.FormatNumExact` | utility/backend.py:60 | an integer below 2^53 in magnitude is printed with its own digits and sign |
| `Formatting.FormatNumBeyondDoublePrecision` | utility/backend.py:60 | a 54-bit multiple of 4 and its successor convert to the same double and print the same, so 2^53 + 1 prints as 2^53 |
| `Formatting.BitLengthBound` | utility/backend.py:60 | a number has at most k binary digits exactly when it is below 2^k, so the bit-length bounds of the contracts above are the thresholds 2^53 and 2^1024 |
| `Formatting.FormatNumOfInt` | utility/backend.py:60 | for an integer that converts: minus its commas the output is the decimal notation of the rounded double; the first group has 1-3 digits and every later one exactly 3, with no leading zero; a negative number has one leading '-' unless it rounds to zero; never "N/A" |
| `Formatting.Grouped` | utility/backend.py:60 | the `,` separator on a natural number: without its commas the plain decimal notation; a first group of 1-3 digits and later groups of exactly 3; a leading '0' only for 0 |
| `Formatting.FormatInt` | utility/backend.py:60 | `,.0f` on an integer value: a leading '-' exactly for a negative number, then the grouped digits of its magnitude, with no leading zero |
| `Formatting.FormatNumRoundTrip` | utility/backend.py:60 | reading the digits of a formatted natural number below 2^53 back gives the number |
| `Formatting.FormatPct` | utility/backend.py:56-57 | a missing value prints "N/A"; a present one prints its percentage rendering |
| `Lookup.TickerSymbol` | utility/backend.py:13-17 | a missing `quotes` key in a 200 answer is an error, and so is a first quote without `symbol`, each if and only if; a non-200 answer or an empty quote list gives None; otherwise the first quote's symbol as stored, whatever its type |
| `Lookup.TickerSymbolNotFound` | utility/backend.py:13-17 | the script's `if symbol:` fails exactly for a non-200 answer, an empty quote list, or a falsy first symbol |
| `Lookup.CurrencyOf` | utility/backend.py:26-28 | the stored currency whenever the key exists, null included; "Unknown" only when it is absent |
| `Lookup.TimezoneOf` | utility/backend.py:19-24 | UTC when the zone field is absent or falsy; the named zone when the zone database knows it; an error otherwise |
| `Lookup.CompanyLogo` | utility/backend.py:30-39 | a logo exactly when the request answers 200, and then exactly the logo service's base URL followed by the domain |
| `Lookup.LogoDomain` | utility/backend.py:31 | the domain is the squashed name followed by ".com", and has no space and no upper-case letter |
| `Lookup.LogoDomainOfSquashed` | utility/backend.py:31 | the domain of the already-squashed name is the same domain |
| `Lookup.Squash` | utility/backend.py:31 | no space and no upper-case letter is left and nothing is added; a name of spaces only gives the empty string; a name without spaces is lower-cased character by character |
| `Lookup.SquashAppend` | utility/backend.py:31 | squashing distributes over concatenation, so with the single-character cases above the result is fixed for every name |
| `Lookup.LowerChar` | utility/backend.py:31 | `lower()` on one character: an ASCII capital becomes its lower-case letter, every other character is unchanged |
| `Lookup.SquashIdempotent` | utility/backend.py:31 | stripping spaces and lower-casing a second time changes nothing |
| `Currency.IndexOf` | StockDash.py:105 | `list.index`: a position holding the element, with no earlier occurrence |
| `Currency.BaseCurrency` | StockDash.py:88 | the session currency when it is truthy, "USD" otherwise; always truthy |
| `Currency.DefaultCurrencyIndex` | StockDash.py:104-105 | the index is within the list; the list holds the base currency there when it is listed; the index is 0 otherwise |
| `Currency.DefaultSelection` | StockDash.py:88-105 | the selector opens on the session currency when that is listed, and on "USD" otherwise |
| `Currency.CurrencySymbol` | StockDash.py:123 | the symbol of a known code, the code itself otherwise |
| `Json.Truthy` | StockDash.py:72 | Python truthiness: exactly None, False, 0, "", [] and {} are falsy |
| `Json.Get` | utility/backend.py:28 | `dict.get`: the stored value whenever the key exists, null included; the default only when it is absent |
| `Currency.TablesAgree` | StockDash.py:43-68 | the rate table, the symbol table and the ten distinct entries of the selector list cover the same codes, and each listed code has a symbol other than itself |
| `Session.Step` | StockDash.py:70-84 | the same name changes nothing; a failed search changes nothing; a truthy symbol sets symbol, name and currency, then the zone unless its lookup raises; a falsy one resets symbol and currency to none and the zone to UTC, stores the name, and stops at line 83 |
| `Session.StepKeepsConsistent` | StockDash.py:70-85 | the selected symbol stays either none or truthy; a found symbol enables the dashboard and a failed lookup disables it |
| `Session.DashboardEnabled` | StockDash.py:85 | in a consistent session the dashboard is shown exactly when a symbol is selected |
| `Session.StepRemembersName` | StockDash.py:70-82 | unless the search raised, the session stores the entered name, so the same name entered again changes nothing |
| `Session.SessionState.constructor` | StockDash.py:28-35 | the first run stores no symbol (None), no currency, an empty name and UTC |
| `Session.SessionState.EnterName` | StockDash.py:70-84 | the fields after the field-by-field updates, and the outcome, are those `Step` gives for the fields before |
| `PriceHistory.DayRange` | StockDash.py:187 | one entry for every day from the first to the last day of the index |
| `PriceHistory.Reindex` | StockDash.py:188 | one cell per day of the range |
| `PriceHistory.ReindexCells` | StockDash.py:187-188 | every original cell lands on its own day, and every added day is missing |
| `PriceHistory.ForwardFill` | StockDash.py:189 | present cells stay; a missing cell repeats the cell above it; a missing first cell stays missing |
| `PriceHistory.ForwardFillCells` | StockDash.py:189 | forward-fill keeps the length and every present cell; a cell ends up missing exactly when no cell up to it is present |
| `PriceHistory.ForwardFillNearest` | StockDash.py:189 | a missing cell takes the value of the nearest present cell before it |
| `PriceHistory.History.FillDailyGaps` | StockDash.py:186-189 | other intervals leave the table unchanged; daily ones reindex every column onto the full day range, then forward-fill the four price columns, or stop with an error if one is absent |
| `News.Nested` | StockDash.py:352-354 | `get(key, {})`: the empty dictionary when the key is absent, the stored dictionary when it is one, an error when it is not |
| `News.HeadlineOf` | StockDash.py:350-354 | the title defaults to "No title", the link to "#", the provider to "Unknown Source" and the logo to none, each only when its key is missing; the article fails if and only if its content, link, provider or logo holder is not a dictionary |
| `News.DefaultsForMissingFields` | StockDash.py:351-354 | content with no optional field gives all four defaults; a title stored as null stays null |

## Left out

- Network I/O: the search request and the logo request (utility/backend.py:12, 34). Their outcomes are parameters. Transport exceptions in the search are not modelled.
- Lookup.TickerSymbol: a body that is not JSON, and a `quotes` value that is not a list of objects, are not modelled.
- The market-data library (`yf.Ticker`, `info`, `history`, the financial tables, `get_news`, `get_complete_data`). The info payload, the price table and the articles are inputs.
- Floating point. This covers the exchange rates and their arithmetic (StockDash.py:116-138), price scaling (184) and the `.2f` renderings (329, 334). The rate table is held as exact decimals and only its keys are used.
- Formatting.FormatNum: models integer inputs only; formatting a non-integer float (rounding its fraction half to even) is not modelled.
- Formatting.FormatPct: the percentage rendering of a present value is a parameter, so nothing is proved about it.
- `format_date` and `format_news_date`: the rendered date depends on the host's local time zone and platform range limits.
- Lookup.TimezoneOf: the zone database is a parameter; pytz's own name handling (for example its case-insensitive "UTC") is part of it.
- Lookup.CompanyLogo: lower-cases ASCII letters only; the Unicode case mapping of `str.lower()` is not modelled.
- Time-zone localisation and conversion of the price index (StockDash.py:191-194).
- PriceHistory: the index is modelled as whole day numbers. Timestamps that fall between grid points of the daily range are not modelled.
- PriceHistory.History.FillDailyGaps: requires a non-empty, strictly increasing index. Reindexing an index with duplicate labels raises in pandas, and that error path is not modelled; an unsorted index is not modelled either.
- The Streamlit layout, widgets, auto-refresh and chart construction (StockDash.py:24-26, 93-228, 240-378).
- Session.Step: the currency and zone come from the info parameter. Fetching the info through `yf.Ticker(symbol)` is not modelled.
