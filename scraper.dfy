/** The scraper's main run: the countdown window measured from the start
    date, and the loop that writes one CSV row per departure offset, from the
    furthest day of the window down to today, after a header row when the
    file is new. The CSV file is the sequence of rows it holds; the page
    loaded for a URL comes from a function given by the caller. */
module Scraper {
  import opened Wrappers
  import opened Text
  import opened Dates
  import opened RyanairUrl
  import opened Prices

  /** The run's configuration. */
  const StartDate := Date(2025, 9, 22)
  const Origin := "LON"
  const Destination := "BCN"
  const StayDays := 3
  const Adults := 2

  /** The countdown starts 30 days ahead of the start date. */
  const Window := 30

  /** The six column names of the header row, in order. */
  const Columns: seq<string> :=
    ["scrape_date", "days_before_departure", "date_out", "date_in", "departure_price",
     "return_price"]

  /** A CSV row: the header, or one scraped departure. */
  datatype Row =
    | Header
    | Record(scrapeDate: string, daysBeforeDeparture: int, dateOut: string, dateIn: string,
             departurePrice: string, returnPrice: string)

  /** How a run ends: after the last offset, or on the OverflowError of a
      date leaving datetime's range. */
  datatype Outcome = Finished | Crashed

  /** days_left: 30 minus the days passed since the start date, never
      negative (and more than 30 before the start date). */
  function DaysLeft(today: Date): (n: nat)
    requires Valid(today)
    ensures n == 0 <==> DaysBetween(StartDate, today) >= Window
    ensures n > 0 ==> n + DaysBetween(StartDate, today) == Window
  {
    var passed := DaysBetween(StartDate, today);
    if Window - passed > 0 then Window - passed else 0
  }

  /** Until the window closes, the furthest departure scraped is the same day
      whatever day the run happens on, also before the start date: the start
      date plus 30 days. */
  lemma WindowEnd(today: Date)
    requires Valid(today) && DaysBetween(StartDate, today) < Window
    ensures AddDays(today, DaysLeft(today)) == AddDays(StartDate, Window)
  {
    OrdinalInjective(AddDays(today, DaysLeft(today)), AddDays(StartDate, Window));
  }

  /** Each day shortens the window by one until it reaches 0. */
  lemma DaysLeftNextDay(today: Date)
    requires Valid(today)
    ensures DaysLeft(NextDay(today)) == if DaysLeft(today) > 0 then DaysLeft(today) - 1 else 0
  {
  }

  /** The header row written to a new file, none for an existing one. */
  function HeaderRows(fileExists: bool): (rows: seq<Row>)
    ensures |rows| <= 1 && (rows != [] <==> !fileExists)
    ensures forall k :: 0 <= k < |rows| ==> rows[k] == Header
  {
    if fileExists then [] else [Header]
  }

  /** The cells csv.writer writes for a row: the column names for the header,
      the six values for a record, with days_before_departure rendered by
      str(). The header's cells never read as a record's, and a record's
      day count reads back from its cell. */
  function Cells(row: Row): (cells: seq<string>)
    ensures |cells| == |Columns|
    ensures cells == Columns <==> row.Header?
    ensures row.Record? ==> ParseInt(cells[1]) == Some(row.daysBeforeDeparture)
    ensures row.Record? ==>
              cells[0] == row.scrapeDate && cells[2] == row.dateOut && cells[3] == row.dateIn
              && cells[4] == row.departurePrice && cells[5] == row.returnPrice
  {
    match row
    case Header => Columns
    case Record(scrapeDate, days, dateOut, dateIn, departure, ret) =>
      var count := IntToString(days);
      ParseIntToString(days);
      assert count[0] != Columns[1][0];
      [scrapeDate, count, dateOut, dateIn, departure, ret]
  }

  /** Offset i can be scraped: its return date is inside datetime's range. */
  predicate Fits(today: Date, i: int)
    requires Valid(today)
  {
    InRange(AddDays(today, i + StayDays))
  }

  /** When an offset fits, its departure date fits too: it lies between today
      and the return date. */
  lemma FitsDeparture(today: Date, i: int)
    requires InRange(today)
    ensures i >= 0 && Fits(today, i) ==> InRange(AddDays(today, i))
  {
    AddDaysAdditive(today, i, StayDays);
    if i >= 0 && Fits(today, i) {
      InRangeBetween(today, AddDays(today, i), AddDays(today, i + StayDays));
    }
  }

  /** From a departure date in range, the trip's URL can be built exactly
      when the offset fits. */
  lemma BuildFits(today: Date, i: int)
    requires InRange(today)
    ensures InRange(AddDays(today, i)) ==>
              (BuildUrl(AddDays(today, i), StayDays, Origin, Destination, Adults).Success?
               <==> Fits(today, i))
  {
    AddDaysAdditive(today, i, StayDays);
  }

  /** The row for departure offset i, or None when the departure or the return
      date leaves datetime's range (the OverflowError that ends the run). For a
      non-negative offset the row exists exactly when its return date fits,
      and the row is a record tagged with the offset itself. */
  function RecordAt(today: Date, i: int, fetch: string -> Page): (r: Option<Row>)
    requires InRange(today)
    ensures i >= 0 ==> (r.Some? <==> Fits(today, i))
    ensures r.Some? ==> r.value.Record? && r.value.daysBeforeDeparture == i
  {
    var depDate := AddDays(today, i);
    FitsDeparture(today, i);
    BuildFits(today, i);
    if !InRange(depDate) then None
    else
      match BuildUrl(depDate, StayDays, Origin, Destination, Adults)
      case Failure(_) => None
      case Success(u) => Some(Entry(today, depDate, u, ScrapePrices(fetch(u.url))))
  }

  /** The row written for a departure date: the scrape date, the days from
      today to the departure, the trip's two date strings and its prices. */
  function Entry(today: Date, depDate: Date, u: SearchUrl, q: Quote): (row: Row)
    requires InRange(today) && Valid(depDate)
    ensures row.Record? && row.daysBeforeDeparture == DaysBetween(today, depDate)
  {
    Record(Format(today), DaysBetween(today, depDate), u.dateOut, u.dateIn, q.departure, q.ret)
  }

  /** A row carries the scrape date, the offset itself as
      days_before_departure, the departure date and the date stay_days later,
      and the prices read from the page of the trip's URL. */
  lemma RecordAtFields(today: Date, i: int, fetch: string -> Page)
    requires InRange(today) && RecordAt(today, i, fetch).Some?
    ensures InRange(AddDays(today, i)) && InRange(AddDays(today, i + StayDays))
    ensures BuildUrl(AddDays(today, i), StayDays, Origin, Destination, Adults).Success?
    ensures var u := BuildUrl(AddDays(today, i), StayDays, Origin, Destination, Adults).value;
            var q := ScrapePrices(fetch(u.url));
            RecordAt(today, i, fetch)
            == Some(Record(Format(today), i, Format(AddDays(today, i)),
                           Format(AddDays(today, i + StayDays)), q.departure, q.ret))
  {
    var depDate := AddDays(today, i);
    AddDaysAdditive(today, i, StayDays);
    assert AddDays(depDate, StayDays) == AddDays(today, i + StayDays);
    var u := BuildUrl(depDate, StayDays, Origin, Destination, Adults).value;
    var q := ScrapePrices(fetch(u.url));
    assert RecordAt(today, i, fetch)
           == Some(Record(Format(today), DaysBetween(today, depDate), u.dateOut, u.dateIn,
                          q.departure, q.ret));
    BuildUrlFields(depDate, StayDays, Origin, Destination, Adults);
    var dateIn := Format(AddDays(today, i + StayDays));
    assert u.dateIn == dateIn;
    assert DaysBetween(today, depDate) == i;
  }

  /** Once an offset fits, so does the one below it. */
  lemma FitsBelow(today: Date, i: int)
    requires InRange(today) && i >= 1 && Fits(today, i)
    ensures Fits(today, i - 1)
  {
    InRangeBetween(today, AddDays(today, i - 1 + StayDays), AddDays(today, i + StayDays));
  }

  /** The row written for each offset, as a function of the offset. */
  function RowsOf(today: Date, fetch: string -> Page): int -> Option<Row>
    requires InRange(today)
  {
    i => RecordAt(today, i, fetch)
  }

  /** The loop over offsets i, i - 1, ..., 0 as the rows it writes and how it
      ends: it stops at the first offset that has no row. */
  function Scan(rowAt: int -> Option<Row>, i: int): (r: (seq<Row>, Outcome))
    ensures |r.0| <= if i < 0 then 0 else i + 1
    ensures r.1 == Finished ==> |r.0| == if i < 0 then 0 else i + 1
    decreases if i < 0 then 0 else i + 1
  {
    if i < 0 then ([], Finished)
    else
      match rowAt(i)
      case None => ([], Crashed)
      case Some(row) =>
        var (rest, outcome) := Scan(rowAt, i - 1);
        ([row] + rest, outcome)
  }

  /** The rows of a scan are the rows of offsets i, i - 1, ... in that order. */
  lemma {:induction false} ScanRows(rowAt: int -> Option<Row>, i: int)
    ensures forall k :: 0 <= k < |Scan(rowAt, i).0| ==> rowAt(i - k) == Some(Scan(rowAt, i).0[k])
    decreases if i < 0 then 0 else i + 1
  {
    if i >= 0 && rowAt(i).Some? {
      ScanRows(rowAt, i - 1);
      var rows := Scan(rowAt, i).0;
      var rest := Scan(rowAt, i - 1).0;
      assert rows == [rowAt(i).value] + rest;
      forall k | 1 <= k < |rows|
        ensures rowAt(i - k) == Some(rows[k])
      {
        assert rows[k] == rest[k - 1];
      }
    }
  }

  /** One step of the scan: an offset with a row puts it before the rows of
      the offsets below. */
  lemma ScanStep(rowAt: int -> Option<Row>, i: int, row: Row)
    requires i >= 0 && rowAt(i) == Some(row)
    ensures Scan(rowAt, i) == ([row] + Scan(rowAt, i - 1).0, Scan(rowAt, i - 1).1)
  {
  }

  /** When an offset has a row exactly when it satisfies ok, and ok holds of
      every offset below one it holds of, the scan writes all its rows or
      none: it finishes exactly when ok holds of the first offset, and it
      crashes only before writing anything. */
  lemma {:induction false} ScanAllOrNothing(rowAt: int -> Option<Row>, ok: int -> bool, i: int)
    requires i >= 0
    requires forall j :: 0 <= j <= i ==> (rowAt(j).Some? <==> ok(j))
    requires forall j :: 1 <= j <= i && ok(j) ==> ok(j - 1)
    ensures Scan(rowAt, i).1 == Finished <==> ok(i)
    ensures Scan(rowAt, i).1 == Crashed ==> Scan(rowAt, i).0 == []
    decreases i
  {
    if ok(i) && i >= 1 {
      ScanAllOrNothing(rowAt, ok, i - 1);
    }
  }

  /** The scraper's offsets have a row exactly when they fit. */
  lemma RowsFit(today: Date, fetch: string -> Page, n: int)
    requires InRange(today)
    ensures forall j :: 0 <= j <= n ==> (RowsOf(today, fetch)(j).Some? <==> Fits(today, j))
  {
  }

  /** An offset below one that fits fits too. */
  lemma FitsDownward(today: Date, n: int)
    requires InRange(today)
    ensures forall j :: 1 <= j <= n && Fits(today, j) ==> Fits(today, j - 1)
  {
    forall j | 1 <= j <= n && Fits(today, j)
      ensures Fits(today, j - 1)
    {
      FitsBelow(today, j);
    }
  }

  /** What a run leaves in the file: the rows already there, the header if the
      file was new, then the rows of the scan over the window. */
  function RunLedger(prior: seq<Row>, fileExists: bool, today: Date, fetch: string -> Page)
    : seq<Row>
    requires InRange(today)
  {
    prior + HeaderRows(fileExists) + Scan(RowsOf(today, fetch), DaysLeft(today)).0
  }

  /** The for loop over offsets n, n - 1, ..., 0: appends the row of each
      offset, and stops at the first offset without one (the exception that
      ends the run; the rows written before it stay in the file). */
  method AppendRows(start: seq<Row>, rowAt: int -> Option<Row>, n: int)
    returns (ledger: seq<Row>, outcome: Outcome)
    ensures ledger == start + Scan(rowAt, n).0
    ensures outcome == Scan(rowAt, n).1
  {
    ledger := start;
    var i := n;
    outcome := Finished;
    while i >= 0
      invariant i <= n
      invariant ledger + Scan(rowAt, i).0 == start + Scan(rowAt, n).0
      invariant Scan(rowAt, i).1 == Scan(rowAt, n).1
      decreases i + 1
    {
      var row := rowAt(i);
      if row.None? {
        outcome := Crashed;
        return;
      }
      ScanStep(rowAt, i, row.value);
      ledger := ledger + [row.value];
      i := i - 1;
    }
  }

  /** The __main__ block: writes the header to a new file, then one row per
      offset from days_left down to 0, each row built from the trip's URL and
      the prices scraped from its page, stopping when a date overflows. */
  method Run(prior: seq<Row>, fileExists: bool, today: Date, fetch: string -> Page)
    returns (ledger: seq<Row>, outcome: Outcome)
    requires InRange(today)
    ensures ledger == RunLedger(prior, fileExists, today, fetch)
    ensures outcome == Scan(RowsOf(today, fetch), DaysLeft(today)).1
  {
    ledger := prior;
    if !fileExists {
      ledger := ledger + [Header];
    }
    var daysLeft := DaysLeft(today);
    ledger, outcome := AppendRows(ledger, RowsOf(today, fetch), daysLeft);
  }

  /** Every row a row function gives is a record tagged with its own offset. */
  ghost predicate OffsetTagged(rowAt: int -> Option<Row>)
  {
    forall j :: rowAt(j).Some? ==> rowAt(j).value.Record? && rowAt(j).value.daysBeforeDeparture == j
  }

  /** A finished scan from offset n of tagged rows holds n + 1 records whose
      days_before_departure count down one by one from n to 0. */
  lemma ScanOffsets(rowAt: int -> Option<Row>, n: nat)
    requires OffsetTagged(rowAt)
    ensures var (rows, outcome) := Scan(rowAt, n);
            outcome == Finished ==>
              |rows| == n + 1
              && (forall k :: 0 <= k < |rows| ==> rows[k].Record? && rows[k].daysBeforeDeparture == n - k)
              && (forall j, k :: 0 <= j < k < |rows| ==>
                    rows[j].daysBeforeDeparture > rows[k].daysBeforeDeparture)
              && rows[n].daysBeforeDeparture == 0
  {
    ScanRows(rowAt, n);
    var rows := Scan(rowAt, n).0;
    forall k | 0 <= k < |rows|
      ensures rows[k].Record? && rows[k].daysBeforeDeparture == n - k
    {
      assert rowAt(n - k) == Some(rows[k]);
    }
  }

  /** The scraper's rows are tagged with their offsets. */
  lemma RowsTagged(today: Date, fetch: string -> Page)
    requires InRange(today)
    ensures OffsetTagged(RowsOf(today, fetch))
  {
  }

  /** A run that finishes appends days_left + 1 rows whose
      days_before_departure count down one by one from days_left to 0. */
  lemma RunOffsets(today: Date, fetch: string -> Page)
    requires InRange(today)
    ensures var n := DaysLeft(today);
            var (rows, outcome) := Scan(RowsOf(today, fetch), n);
            outcome == Finished ==>
              |rows| == n + 1
              && (forall k :: 0 <= k < |rows| ==> rows[k].Record? && rows[k].daysBeforeDeparture == n - k)
              && (forall j, k :: 0 <= j < k < |rows| ==>
                    rows[j].daysBeforeDeparture > rows[k].daysBeforeDeparture)
              && rows[n].daysBeforeDeparture == 0
  {
    RowsTagged(today, fetch);
    ScanOffsets(RowsOf(today, fetch), DaysLeft(today));
  }

  /** A run finishes exactly when the return date of its furthest offset fits
      in datetime's range, and otherwise crashes before writing a row. */
  lemma RunFinishes(today: Date, fetch: string -> Page)
    requires InRange(today)
    ensures var (rows, outcome) := Scan(RowsOf(today, fetch), DaysLeft(today));
            (outcome == Finished <==> Fits(today, DaysLeft(today)))
            && (outcome == Crashed ==> rows == [])
  {
    var n := DaysLeft(today);
    RowsFit(today, fetch, n);
    FitsDownward(today, n);
    ScanAllOrNothing(RowsOf(today, fetch), j => Fits(today, j), n);
  }

  /** Every row of a scan over tagged rows is a record. */
  lemma ScanTagged(rowAt: int -> Option<Row>, i: int)
    requires OffsetTagged(rowAt)
    ensures forall k :: 0 <= k < |Scan(rowAt, i).0| ==> Scan(rowAt, i).0[k].Record?
  {
    ScanRows(rowAt, i);
  }

  /** Appending the header rows and then records to a file keeps what was
      there, and the only header among the new rows is the first, present
      exactly when the file was new. */
  lemma AppendedHeader(prior: seq<Row>, fileExists: bool, rows: seq<Row>)
    requires forall k :: 0 <= k < |rows| ==> rows[k].Record?
    ensures var ledger := prior + HeaderRows(fileExists) + rows;
            |ledger| >= |prior| && ledger[..|prior|] == prior
            && (forall k :: |prior| <= k < |ledger| && ledger[k] == Header ==>
                  k == |prior| && !fileExists)
            && (!fileExists ==> ledger[|prior|] == Header)
  {
    var ledger := prior + HeaderRows(fileExists) + rows;
    var h := |HeaderRows(fileExists)|;
    assert forall k :: |prior| + h <= k < |ledger| ==> ledger[k] == rows[k - |prior| - h];
  }

  /** The rows a run appends hold a header exactly when the file was new, and
      then only as their first row. */
  lemma RunHeader(prior: seq<Row>, fileExists: bool, today: Date, fetch: string -> Page)
    requires InRange(today)
    ensures var ledger := RunLedger(prior, fileExists, today, fetch);
            |ledger| >= |prior| && ledger[..|prior|] == prior
            && (forall k :: |prior| <= k < |ledger| && ledger[k] == Header ==>
                  k == |prior| && !fileExists)
            && (!fileExists ==> ledger[|prior|] == Header)
  {
    RowsTagged(today, fetch);
    ScanTagged(RowsOf(today, fetch), DaysLeft(today));
    AppendedHeader(prior, fileExists, Scan(RowsOf(today, fetch), DaysLeft(today)).0);
  }

  /** A file created by one run and extended by a later one holds the header
      once, as its first row. */
  lemma HeaderOnce(first: Date, second: Date, fetch1: string -> Page, fetch2: string -> Page)
    requires InRange(first) && InRange(second)
    ensures var ledger := RunLedger(RunLedger([], false, first, fetch1), true, second, fetch2);
            ledger[0] == Header && forall k :: 0 < k < |ledger| ==> ledger[k].Record?
  {
    var once := RunLedger([], false, first, fetch1);
    RunHeader([], false, first, fetch1);
    RunHeader(once, true, second, fetch2);
  }

  /** A run inside the window finishes, with one row for each of the
      31 - days_passed remaining days (RunOffsets gives their offsets): on the
      start date 31 rows, for offsets 30 down to 0. */
  lemma WindowRun(today: Date, fetch: string -> Page)
    requires InRange(today) && 0 <= DaysBetween(StartDate, today) <= Window
    ensures Scan(RowsOf(today, fetch), DaysLeft(today)).1 == Finished
    ensures |Scan(RowsOf(today, fetch), DaysLeft(today)).0|
            == Window + 1 - DaysBetween(StartDate, today)
  {
    var end := AddDays(today, DaysLeft(today) + StayDays);
    InRangeByOrdinal(StartDate);
    InRangeByOrdinal(end);
    RunFinishes(today, fetch);
    RunOffsets(today, fetch);
  }

  /** After the window has closed a run scrapes one row, for today's
      departures. */
  lemma PastWindowRun(today: Date, fetch: string -> Page)
    requires InRange(today) && DaysBetween(StartDate, today) >= Window
    requires Fits(today, 0)
    ensures DaysLeft(today) == 0
    ensures Scan(RowsOf(today, fetch), DaysLeft(today)).1 == Finished
    ensures |Scan(RowsOf(today, fetch), DaysLeft(today)).0| == 1
    ensures Scan(RowsOf(today, fetch), DaysLeft(today)).0[0].Record?
    ensures Scan(RowsOf(today, fetch), DaysLeft(today)).0[0].daysBeforeDeparture == 0
  {
    RunFinishes(today, fetch);
    RunOffsets(today, fetch);
  }

  /** The two dates of the example runs: the start date itself is day 0 of
      the window, and 2025-10-25 is 33 days on, past it. */
  lemma ExampleDays()
    ensures InRange(StartDate) && DaysBetween(StartDate, StartDate) == 0
    ensures InRange(Date(2025, 10, 25)) && DaysBetween(StartDate, Date(2025, 10, 25)) == 33
    ensures DaysLeft(StartDate) == 30 && DaysLeft(Date(2025, 10, 25)) == 0
  {
  }

  /** The run on the start date writes 31 rows, for offsets 30 down to 0. */
  lemma StartDateRun(fetch: string -> Page)
    ensures var (rows, outcome) := Scan(RowsOf(StartDate, fetch), DaysLeft(StartDate));
            outcome == Finished && |rows| == 31
            && forall k :: 0 <= k < 31 ==> rows[k].Record? && rows[k].daysBeforeDeparture == 30 - k
  {
    ExampleDays();
    WindowRun(StartDate, fetch);
    RunOffsets(StartDate, fetch);
  }

  /** The run on 2025-10-25, past the window, writes one row, for offset 0. */
  lemma LateRun(fetch: string -> Page)
    ensures var (rows, outcome) := Scan(RowsOf(Date(2025, 10, 25), fetch), DaysLeft(Date(2025, 10, 25)));
            outcome == Finished && |rows| == 1
            && rows[0].Record? && rows[0].daysBeforeDeparture == 0
  {
    var today := Date(2025, 10, 25);
    ExampleDays();
    InRangeByOrdinal(AddDays(today, StayDays));
    PastWindowRun(today, fetch);
    RunOffsets(today, fetch);
  }
}
