# Ryanair price scraper, modelled in Dafny

This project models the core of a small Ryanair fare scraper, `main.py`. The program is run once a day. It:

- measures how many days have passed since a fixed start date (2025-09-22);
- derives `days_left = max(30 - days_passed, 0)`;
- for every departure offset from `days_left` down to 0:
  - builds the flight-search URL for a London–Barcelona return trip (3 nights, 2 adults);
  - reads the departure and return prices off the loaded result page;
  - appends one row to a CSV file;
- writes a header row first when the CSV file does not exist yet.

The model is split into these modules:

- `Dates`: Python's `datetime` calendar arithmetic. It covers:
  - the proleptic Gregorian calendar;
  - `toordinal` day numbers;
  - the years 1..9999 that `datetime` accepts;
  - `date + timedelta(days=n)` (`AddDays`);
  - `(b - a).days` (`DaysBetween`);
  - `strftime("%Y-%m-%d")` (`Format`), with a parser that reads it back.
- `Text`: what the program does with strings, and readers used to state properties of its output:
  - `str.strip()`;
  - rendering an `int` with an f-string;
  - joining the query parameters with `&`;
  - splitting and cutting at a character, and parsing an integer back. The program never does these. The model uses them only to read its URL and its cells back.
- `RyanairUrl`: `build_ryanair_url`.
  - The query string is a list of name/value pairs rendered as `?n=v&n=v…`.
  - A parser reads a URL back into its address and pairs, so properties of the URL text can be stated as lookups of parameter values.
  - A return date outside `datetime`'s range is the `OverflowError` of the source. The model returns it as a `Failure`.
- `Prices`: the decision logic of `scrape_prices`.
  - The browser is reduced to a `Page`. A page says whether the price boxes appeared before the 15-second wait gave up, and lists the boxes found afterwards.
  - For each box, the page gives the text of its integer part and of its decimal part. A missing part is `None`, which stands for the exception `find_element` raises.
- `Scraper`: the `__main__` block.
  - The CSV file is the sequence of rows it holds. Whether the file existed is a boolean. Today's date is a parameter.
  - The page loaded for a URL is a function `fetch: string -> Page` given by the caller.
  - `Run` is a method whose loop appends rows to the file. It is proved equal to the specification function `RunLedger`, and the lemmas about the window, the offsets and the header are stated about that function.

Before the start date, `days_passed` is negative, so `days_left` is more than 30. The run then scrapes more than 31 offsets. The furthest departure is still the start date plus 30 days (`Scraper.WindowEnd`), so this is consistent with the stated 30-day countdown and is not treated as a defect.

## Model

| member | source | states |
|---|---|---|
| Dates.DaysBetween | main.py:141-153 | `(b - a).days` is the number of days that, added to `a`, reach `b` |
| Dates.AddDays | main.py:41 | `d + timedelta(days=n)`: a valid calendar date whose day number is that of `d` plus `n` |
| Dates.AddDaysIff | main.py:41 | adding `n` days to `d` gives `e` exactly when `(e - d).days == n` |
| Dates.AddDaysAdditive | main.py:147-153 | adding `a` days then `b` days is adding `a + b` days (departure + stay) |
| Dates.AddDaysInverse | main.py:147-153 | going `n` days forward and `n` back returns to the start date |
| Dates.OrdinalInjective | main.py:141 | distinct dates have distinct day numbers, so day differences identify dates |
| Dates.InRangeByOrdinal | main.py:41 | a date is one `datetime` can hold exactly when its day number lies between those of 0001-01-01 and 9999-12-31 |
| Dates.InRangeBetween | main.py:147-148 | a date between two representable dates is representable, so the departure date fits when the return date does |
| Dates.NextDay | main.py:147 | the next calendar day is valid and one day number later |
| Dates.PrevDay | main.py:147 | the previous calendar day is valid and one day number earlier |
| Dates.Format | main.py:40 | `strftime("%Y-%m-%d")` gives 10 characters: 4 digits, `-`, 2 digits, `-`, 2 digits |
| Dates.ParseFormat | main.py:40-41 | the formatted date reads back as the same date, so the string loses nothing |
| Dates.FormatInjective | main.py:40-41 | different dates give different date strings |
| Text.Strip | main.py:90-91 | `.strip()` returns a slice of its input that neither starts nor ends with whitespace, and everything cut off is whitespace |
| Text.StripUnpadded | main.py:90-91 | text without surrounding whitespace is unchanged by `.strip()` |
| Text.StripPadded | main.py:90-91 | whitespace added on either side does not change the result of `.strip()` |
| Text.IntToString | main.py:45-51 | the f-string rendering of an int is non-empty, made of digits with a leading `-` exactly when the value is negative |
| Text.IntToStringCanonical | main.py:45-51 | the f-string rendering of an int has no leading zero: its first digit is 0 only for 0 itself |
| Text.StripOmits | main.py:90-91 | `.strip()` adds no character: a character absent from the text is absent from the result |
| Text.ParseIntToString | main.py:45 | the f-string rendering of the adult count reads back as the same integer |
| Text.SplitJoin | main.py:44-55 | parts without the separator, joined with it, split back into the same parts |
| Text.CutAt | main.py:92 | cutting `a + c + b` at the first `c` gives `a` and `b` when `a` holds no `c` |
| RyanairUrl.QueryPairs | main.py:44-55 | the query holds 22 name/value pairs; which name carries which value is stated by QueryNamesDistinct, QueryDatesAgree, QueryPlacesAgree, QueryPartyAgree and QueryFlagsAgree |
| RyanairUrl.BuildUrl | main.py:38-57 | fails exactly when the return date leaves `datetime`'s range (the `OverflowError` of line 41) |
| RyanairUrl.BuildUrlFields | main.py:40-57 | on success the returned `date_out` is the formatted departure date, `date_in` is the formatted date `stay_days` later, and the URL is the base address followed by the query of those dates rendered as `?n=v&n=v…` |
| RyanairUrl.BuildUrlDates | main.py:40-41 | `date_out` parses back to the departure date, and `date_in` parses to a date exactly `stay_days` after it |
| RyanairUrl.BuildUrlQuery | main.py:43-57 | the URL is the base address followed by the query, and reads back as that address and the 22 parameters in source order |
| RyanairUrl.BuildUrlReadsBack | main.py:44-57 | in the built URL, `dateOut` and `tpStartDate` both hold the departure date, `dateIn` and `tpEndDate` the return date, and `adults` and `tpAdults` the adult count |
| RyanairUrl.QueryDatesAgree | main.py:47-52 | the plain and `tp` date parameters carry the same departure and return dates |
| RyanairUrl.QueryPlacesAgree | main.py:50-54 | the plain and `tp` airport parameters carry the same origin and destination |
| RyanairUrl.QueryPartyAgree | main.py:45-51 | `adults` and `tpAdults` agree; teens, children and infants are 0 under both sets of names |
| RyanairUrl.QueryFlagsAgree | main.py:48-53 | `isConnectedFlight` is `false` and `isReturn` is `true`; `discount` and `tpDiscount` are both `0`, and `promoCode` and `tpPromoCode` are both empty |
| RyanairUrl.QueryNamesDistinct | main.py:44-55 | no parameter name occurs twice in the query |
| RyanairUrl.QueryNamesPlain | main.py:44-55 | no parameter name contains `=` or `&` |
| RyanairUrl.QuerySeparable | main.py:44-55 | when no value contains `&`, the query's pairs can be recovered from its text |
| RyanairUrl.ParseRenderQuery | main.py:44-55 | a separable pair list rendered as `n=v&…` parses back to the same list |
| RyanairUrl.ParseRenderUrl | main.py:57 | an address without `?` followed by a rendered query reads back as that address and those pairs |
| RyanairUrl.LookupAt | main.py:44-55 | with distinct names, looking up a pair's name gives its value |
| Prices.PriceText | main.py:90-92 | a read price is the stripped integer part, `.`, and the stripped decimal part, and is never `N/A` |
| Prices.ScrapePrices | main.py:60-104 | a timeout gives `N/A, N/A`; each side is not `N/A` exactly when the wait succeeded and its box (first for departure, second for return) exists with both parts, and is then that box's price text |
| Prices.FewWidgets | main.py:86-96 | with no box both sides are `N/A`; with at most one box the return side is `N/A` |
| Prices.DepartureIsolated | main.py:88-94 | whatever the second box holds, including a failure to read it, the departure price is unchanged |
| Prices.ReturnIsolated | main.py:96-102 | whatever the first box holds, the return price is unchanged |
| Prices.LaterWidgetsIgnored | main.py:88-102 | boxes after the second do not change the result |
| Prices.PriceTextSplits | main.py:92 | a read price cut at its first `.` gives back the stripped integer and decimal parts when the integer text has no `.` |
| Prices.PriceIgnoresPadding | main.py:90-92 | whitespace around the page text of either part, each padded on its own, does not show in the price |
| Scraper.DaysLeft | main.py:141-142 | `days_left` is never negative; it is 0 exactly when at least 30 days have passed, and otherwise adds up with the days passed to 30 |
| Scraper.WindowEnd | main.py:141-147 | while the window is open, today + `days_left` is always the start date + 30, also before the start date |
| Scraper.DaysLeftNextDay | main.py:141-142 | a day later, `days_left` is one less, stopping at 0 |
| Scraper.HeaderRows | main.py:126-135 | a new file gets exactly one header row, an existing one none |
| Scraper.Cells | main.py:128-154 | a row's CSV cells are six, one per column name; they equal the column names exactly for the header, so no record reads as a header; a record's `days_before_departure` cell reads back as its value |
| Scraper.FitsDeparture | main.py:147-148 | when an offset's return date fits in `datetime`'s range, so does its departure date |
| Scraper.BuildFits | main.py:147-149 | from a departure date in range, the trip's URL is built exactly when the return date fits |
| Scraper.RecordAt | main.py:147-154 | one loop iteration: for a non-negative offset a row exists exactly when its return date fits in `datetime`'s range (otherwise the `OverflowError`), and the row is a record whose `days_before_departure` is the offset; RecordAtFields states its other cells |
| Scraper.Entry | main.py:153-154 | the row written for a departure date is a record whose `days_before_departure` is the day count from today to that date |
| Scraper.RecordAtFields | main.py:146-154 | a row holds the scrape date, the offset as `days_before_departure`, the formatted departure date, the formatted date 3 days later, and the prices read from that trip's page |
| Scraper.FitsBelow | main.py:146 | if an offset's dates fit, so do those of the offset below it |
| Scraper.Scan | main.py:146-154 | the `for` loop over offsets `i` down to 0, as the rows it writes and how it ends: at most `i + 1` rows, and exactly `i + 1` when it finishes |
| Scraper.ScanRows | main.py:146-154 | the loop's rows are those of offsets `i, i-1, …` in that order |
| Scraper.ScanAllOrNothing | main.py:146-154 | when the offsets that fit are closed downward, the loop finishes exactly when the first offset fits, and otherwise fails before writing |
| Scraper.AppendRows | main.py:146-154 | the loop appends the rows of offsets `n` down to 0 to the file, stopping at the first offset whose date overflows |
| Scraper.Run | main.py:121-154 | the file afterwards is the previous contents, then the header when the file was new, then the rows of the scan over `days_left` down to 0 |
| Scraper.RunOffsets | main.py:142-154 | a finished run appends `days_left + 1` records whose `days_before_departure` count down one by one from `days_left` to 0 |
| Scraper.RunFinishes | main.py:146-151 | a run finishes exactly when the return date of its furthest offset fits in `datetime`'s range, and otherwise writes no record |
| Scraper.RunHeader | main.py:121-135 | a run keeps the previous contents, and among its new rows the only header is the first, present exactly when the file was new |
| Scraper.HeaderOnce | main.py:121-135 | a file created by one run and extended by a later one holds the header once, as its first row, followed only by records |
| Scraper.WindowRun | main.py:141-146 | a run 0 to 30 days after the start date finishes with `31 - days_passed` rows |
| Scraper.PastWindowRun | main.py:141-154 | after the window has closed, when today + 3 days is within `datetime`'s range, a run finishes with one record, for offset 0 (today's departures) |
| Scraper.ExampleDays | main.py:141-142 | on the start date `days_left` is 30; on 2025-10-25, 33 days later, it is 0 |
| Scraper.StartDateRun | main.py:141-154 | the run on 2025-09-22 finishes with 31 rows, for offsets 30 down to 0 |
| Scraper.LateRun | main.py:141-154 | the run on 2025-10-25 finishes with one row, for offset 0 |

## Left out

- The Selenium driver is not modelled: starting Chrome, loading the page, dismissing the cookie banner, `time.sleep` and `driver.quit`. The model starts from the `Page` the driver would expose.
- Exceptions other than the missing price elements are not modelled. These are a crashed or disconnected driver, a failed page load, and errors from `.text`. The exception handler at main.py:93-94 and main.py:101-102 is modelled for the missing-element case only.
- Page loading is modelled as a deterministic function of the URL. Live prices that change between requests are not modelled.
- Logging is not modelled, and neither is the CSV module's quoting of fields or its line endings. A row is its six cells (Scraper.Cells), not the text of a CSV line.
- Opening the file in append mode is modelled as appending to the sequence of rows. `os.path.isfile` becomes the `fileExists` parameter. A write error is not modelled.
- `datetime.today()` is a parameter, the date `today` of the run. The time of day is dropped because only dates are used.
- Text.IsSpace: `.strip()` is modelled for ASCII whitespace: space, characters 9 to 13 and characters 28 to 31. Python also strips non-ASCII whitespace such as U+0085 and U+00A0, which the model keeps.
- Dates.Format: the year is always padded to four digits. Some platforms' `strftime` writes years below 1000 unpadded. Such years are only reached by running with a clock set before the year 1000.
- RyanairUrl.BuildUrl: the query is modelled as name/value pairs rendered with `?`, `&` and `=`, not as the f-string's character literal. The two give the same text for the source's constant pairs. BuildUrlFields states the URL text itself. The reader behind BuildUrlQuery takes a part without `=` as an empty value, so the read-back alone does not fix the text.
- RyanairUrl.BuildUrlQuery: stated only for an origin and destination without `&`. A code containing `&` would make the query ambiguous. The configured codes "LON" and "BCN" do not contain one.
- RyanairUrl.BuildUrlReadsBack: stated only for an origin and destination without `&`, for the same reason as BuildUrlQuery.
- `setup_logger` (main.py:24-35) and the Chrome options (main.py:111-117) are not modelled. They only configure logging and the browser.
