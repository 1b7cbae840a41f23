/** What scrape_prices reads from a loaded result page. The browser is
    abstracted to what the function inspects: whether the selected-date price
    boxes appeared before the wait gave up, and, for each box found afterwards,
    the text of its integer part and of its decimal part (None where the
    element is missing, which makes find_element raise). */
module Prices {
  import opened Wrappers
  import opened Text

  /** The placeholder written when a price cannot be read. */
  const NA := "N/A"

  /** One "div.date-item__price--selected" box: the text of its
      "span.price__integers" and "span.price__decimals" children, if present. */
  datatype Widget = Widget(integers: Option<string>, decimals: Option<string>)

  /** The page after the load: pricesAppeared is false when the 15-second wait
      for the price boxes timed out; widgets are the boxes found afterwards,
      in page order. */
  datatype Page = Page(pricesAppeared: bool, widgets: seq<Widget>)

  /** The pair scrape_prices returns: departure price, return price. */
  datatype Quote = Quote(departure: string, ret: string)

  /** A box whose price can be read: both parts are present. */
  predicate Readable(w: Widget)
  {
    w.integers.Some? && w.decimals.Some?
  }

  /** The text a readable box yields: the stripped integer part, a dot, the
      stripped decimal part. */
  function PriceText(w: Widget): (s: string)
    requires Readable(w)
    ensures |s| == |Strip(w.integers.value)| + 1 + |Strip(w.decimals.value)|
    ensures s[..|Strip(w.integers.value)|] == Strip(w.integers.value)
    ensures s[|Strip(w.integers.value)|] == '.'
    ensures s[|Strip(w.integers.value)| + 1..] == Strip(w.decimals.value)
    ensures s != NA
  {
    Strip(w.integers.value) + "." + Strip(w.decimals.value)
  }

  /** One side of the quote: the price of box k, or "N/A" when there is no
      such box or one of its parts is missing (the caught exception). */
  function Side(widgets: seq<Widget>, k: nat): string
  {
    if |widgets| >= k + 1 then
      if Readable(widgets[k]) then PriceText(widgets[k]) else NA
    else NA
  }

  /** scrape_prices: both sides "N/A" on a timeout; otherwise the departure
      price from the first box and the return price from the second, each
      falling back to "N/A" on its own. */
  function ScrapePrices(page: Page): (q: Quote)
    ensures !page.pricesAppeared ==> q == Quote(NA, NA)
    ensures q.departure != NA <==>
              page.pricesAppeared && |page.widgets| >= 1 && Readable(page.widgets[0])
    ensures q.ret != NA <==>
              page.pricesAppeared && |page.widgets| >= 2 && Readable(page.widgets[1])
    ensures q.departure != NA ==> q.departure == PriceText(page.widgets[0])
    ensures q.ret != NA ==> q.ret == PriceText(page.widgets[1])
  {
    if !page.pricesAppeared then Quote(NA, NA)
    else
      Quote(Side(page.widgets, 0), Side(page.widgets, 1))
  }

  /** With no box both sides are "N/A"; with a single box the return side is. */
  lemma FewWidgets(page: Page)
    ensures |page.widgets| == 0 ==> ScrapePrices(page) == Quote(NA, NA)
    ensures |page.widgets| <= 1 ==> ScrapePrices(page).ret == NA
  {
  }

  /** Whatever the second box holds, the departure side is the same: a failure
      reading the return price does not touch the departure price. */
  lemma DepartureIsolated(page: Page, w: Widget)
    requires |page.widgets| >= 2
    ensures ScrapePrices(page.(widgets := page.widgets[1 := w])).departure
            == ScrapePrices(page).departure
  {
    var other := page.(widgets := page.widgets[1 := w]);
    assert other.widgets[0] == page.widgets[0];
  }

  /** Whatever the first box holds, the return side is the same. */
  lemma ReturnIsolated(page: Page, w: Widget)
    requires |page.widgets| >= 1
    ensures ScrapePrices(page.(widgets := page.widgets[0 := w])).ret == ScrapePrices(page).ret
  {
    var other := page.(widgets := page.widgets[0 := w]);
    assert |other.widgets| >= 2 ==> other.widgets[1] == page.widgets[1];
  }

  /** Boxes after the second are never read. */
  lemma LaterWidgetsIgnored(page: Page, extra: seq<Widget>)
    requires |page.widgets| >= 2
    ensures ScrapePrices(page.(widgets := page.widgets + extra)) == ScrapePrices(page)
  {
    var other := page.(widgets := page.widgets + extra);
    assert other.widgets[0] == page.widgets[0] && other.widgets[1] == page.widgets[1];
  }

  /** A read price splits back at its dot into the stripped integer and
      decimal parts, when the integer text holds no dot itself. */
  lemma PriceTextSplits(w: Widget)
    requires Readable(w) && '.' !in w.integers.value
    ensures Cut(PriceText(w), '.') == (Strip(w.integers.value), Strip(w.decimals.value))
  {
    StripOmits(w.integers.value, '.');
    CutAt(Strip(w.integers.value), Strip(w.decimals.value), '.');
  }

  /** Surrounding whitespace in the page text does not show in the price,
      whatever whitespace pads each of the two parts. */
  lemma PriceIgnoresPadding(ints: string, decs: string, leftInts: string, rightInts: string,
                            leftDecs: string, rightDecs: string)
    requires AllSpace(leftInts) && AllSpace(rightInts)
    requires AllSpace(leftDecs) && AllSpace(rightDecs)
    ensures PriceText(Widget(Some(leftInts + ints + rightInts), Some(leftDecs + decs + rightDecs)))
            == PriceText(Widget(Some(ints), Some(decs)))
  {
    StripPadded(ints, leftInts, rightInts);
    StripPadded(decs, leftDecs, rightDecs);
  }
}
