/** The flight-search URL of main.py's build_ryanair_url: the departure date,
    the return date stay_days later, both as "YYYY-MM-DD", and a fixed query
    string that names the same trip twice, once with plain parameter names and
    once with "tp"-prefixed names. */
module RyanairUrl {
  import opened Wrappers
  import opened Text
  import opened Dates

  /** The search page: the site's address followed by the flight-selection path. */
  const SiteAddress := "https://www.ryanair.com"
  const SelectPath := "/ie/en/trip/flights/select"
  const BaseUrl := SiteAddress + SelectPath

  /** The OverflowError datetime raises when date + timedelta leaves the years
      MinYear .. MaxYear. */
  datatype DateError = DateOverflow

  /** What build_ryanair_url returns: the URL and the two date strings it encodes. */
  datatype SearchUrl = SearchUrl(url: string, dateOut: string, dateIn: string)

  type Param = (string, string)

  /** The query of the source's f-string as its name/value pairs, in the
      source's order: the trip under plain names, then again under
      "tp"-prefixed names. */
  function QueryPairs(dateOut: string, dateIn: string, origin: string, destination: string,
                      adults: string): (ps: seq<Param>)
    ensures |ps| == 22
  {
    [("adults", adults), ("teens", "0"), ("children", "0"), ("infants", "0"),
     ("dateOut", dateOut), ("dateIn", dateIn),
     ("isConnectedFlight", "false"), ("discount", "0"), ("promoCode", ""),
     ("isReturn", "true"),
     ("originMac", origin), ("destinationIata", destination),
     ("tpAdults", adults), ("tpTeens", "0"), ("tpChildren", "0"), ("tpInfants", "0"),
     ("tpStartDate", dateOut), ("tpEndDate", dateIn),
     ("tpDiscount", "0"), ("tpPromoCode", ""),
     ("tpOriginMac", origin), ("tpDestinationIata", destination)]
  }

  function RenderParam(p: Param): string
  {
    p.0 + "=" + p.1
  }

  function RenderParams(ps: seq<Param>): (parts: seq<string>)
    ensures |parts| == |ps|
    ensures forall i :: 0 <= i < |ps| ==> parts[i] == RenderParam(ps[i])
  {
    if ps == [] then [] else [RenderParam(ps[0])] + RenderParams(ps[1..])
  }

  /** A query string: "?" and the name=value pairs joined by "&". */
  function RenderQuery(ps: seq<Param>): string
  {
    "?" + Join(RenderParams(ps), '&')
  }

  function ParseParam(s: string): Param
  {
    Cut(s, '=')
  }

  /** The name/value pairs of the text after a URL's "?". */
  function ParseQuery(q: string): (ps: seq<Param>)
  {
    var parts := Split(q, '&');
    seq(|parts|, i requires 0 <= i < |parts| => ParseParam(parts[i]))
  }

  /** A URL cut at its first "?": the address, and the pairs of its query. */
  function ParseUrl(url: string): (string, seq<Param>)
  {
    var (address, query) := Cut(url, '?');
    (address, ParseQuery(query))
  }

  /** The value of the first pair named key. */
  function Lookup(ps: seq<Param>, key: string): Option<string>
  {
    if ps == [] then None
    else if ps[0].0 == key then Some(ps[0].1)
    else Lookup(ps[1..], key)
  }

  /** A pair list reads back from its query string when no name holds "=" or
      "&" and no value holds "&". */
  predicate Separable(ps: seq<Param>)
  {
    forall i :: 0 <= i < |ps| ==> '=' !in ps[i].0 && '&' !in ps[i].0 && '&' !in ps[i].1
  }

  lemma ParseRenderQuery(ps: seq<Param>)
    requires |ps| >= 1 && Separable(ps)
    ensures ParseQuery(Join(RenderParams(ps), '&')) == ps
  {
    var parts := RenderParams(ps);
    forall p | p in parts
      ensures '&' !in p
    {
      var i :| 0 <= i < |parts| && parts[i] == p;
      assert p == ps[i].0 + ['='] + ps[i].1;
    }
    SplitJoin(parts, '&');
    forall i | 0 <= i < |ps|
      ensures ParseParam(parts[i]) == ps[i]
    {
      CutAt(ps[i].0, ps[i].1, '=');
      assert parts[i] == ps[i].0 + ['='] + ps[i].1;
    }
  }

  /** No two pairs share a name. */
  predicate NamesDistinct(ps: seq<Param>)
  {
    forall i, j :: 0 <= i < j < |ps| ==> ps[i].0 != ps[j].0
  }

  lemma {:induction false} LookupAt(ps: seq<Param>, i: nat)
    requires i < |ps| && NamesDistinct(ps)
    ensures Lookup(ps, ps[i].0) == Some(ps[i].1)
  {
    if i > 0 {
      LookupAt(ps[1..], i - 1);
    }
  }

  /** Every parameter name occurs once in the query, so a name has one value. */
  lemma QueryNamesDistinct(dateOut: string, dateIn: string, origin: string, destination: string,
                           adults: string)
    ensures NamesDistinct(QueryPairs(dateOut, dateIn, origin, destination, adults))
  {
    var q := QueryPairs(dateOut, dateIn, origin, destination, adults);
    forall i, j | 0 <= i < j < |q|
      ensures q[i].0 != q[j].0
    {
      // length and third character tell the 22 names apart
      assert |q[i].0| >= 3 && |q[j].0| >= 3;
      assert |q[i].0| != |q[j].0| || q[i].0[2] != q[j].0[2];
    }
  }

  /** build_ryanair_url: Failure when the return date leaves datetime's range
      (the OverflowError of date + timedelta), otherwise the base URL followed by
      the query, and the two date strings. */
  function BuildUrl(dateOut: Date, stayDays: int, origin: string, destination: string,
                    adults: int): (r: Result<SearchUrl, DateError>)
    requires InRange(dateOut)
    ensures r.Failure? <==> !InRange(AddDays(dateOut, stayDays))
  {
    var dateOutStr := Format(dateOut);
    var dateIn := AddDays(dateOut, stayDays);
    if !InRange(dateIn) then Failure(DateOverflow)
    else
      var dateInStr := Format(dateIn);
      var query := QueryPairs(dateOutStr, dateInStr, origin, destination, IntToString(adults));
      Success(SearchUrl(BaseUrl + RenderQuery(query), dateOutStr, dateInStr))
  }

  /** On success the two date strings are the departure date and the date
      stay_days later, in "YYYY-MM-DD" form, and the URL is the base address
      followed by the rendered query of those dates. */
  lemma BuildUrlFields(dateOut: Date, stayDays: int, origin: string, destination: string,
                       adults: int)
    requires InRange(dateOut)
    ensures var r := BuildUrl(dateOut, stayDays, origin, destination, adults);
            r.Success? ==>
              InRange(AddDays(dateOut, stayDays))
              && r.value.dateOut == Format(dateOut)
              && r.value.dateIn == Format(AddDays(dateOut, stayDays))
              && r.value.url
                 == BaseUrl + RenderQuery(QueryPairs(r.value.dateOut, r.value.dateIn, origin,
                                                     destination, IntToString(adults)))
  {
  }

  /** The two date strings are the departure date and the date stay_days
      later, each readable back from its "YYYY-MM-DD" text. */
  lemma BuildUrlDates(dateOut: Date, stayDays: int, origin: string, destination: string,
                      adults: int)
    requires InRange(dateOut)
    ensures var r := BuildUrl(dateOut, stayDays, origin, destination, adults);
            r.Success? ==>
              ParseIso(r.value.dateOut) == Some(dateOut)
              && ParseIso(r.value.dateIn).Some?
              && DaysBetween(dateOut, ParseIso(r.value.dateIn).value) == stayDays
  {
    ParseFormat(dateOut);
    if InRange(AddDays(dateOut, stayDays)) {
      ParseFormat(AddDays(dateOut, stayDays));
    }
  }

  /** dateOut and tpStartDate carry the departure date, dateIn and tpEndDate
      the return date. */
  lemma QueryDatesAgree(dateOut: string, dateIn: string, origin: string, destination: string,
                        adults: string)
    ensures var q := QueryPairs(dateOut, dateIn, origin, destination, adults);
            Lookup(q, "dateOut") == Lookup(q, "tpStartDate") == Some(dateOut)
            && Lookup(q, "dateIn") == Lookup(q, "tpEndDate") == Some(dateIn)
  {
    var q := QueryPairs(dateOut, dateIn, origin, destination, adults);
    QueryNamesDistinct(dateOut, dateIn, origin, destination, adults);
    assert Lookup(q, "dateOut") == Lookup(q, "tpStartDate") == Some(dateOut) by {
      LookupAt(q, 4);
      LookupAt(q, 16);
    }
    LookupAt(q, 5);
    LookupAt(q, 17);
  }

  /** originMac and tpOriginMac carry the origin, destinationIata and
      tpDestinationIata the destination. */
  lemma QueryPlacesAgree(dateOut: string, dateIn: string, origin: string, destination: string,
                         adults: string)
    ensures var q := QueryPairs(dateOut, dateIn, origin, destination, adults);
            Lookup(q, "originMac") == Lookup(q, "tpOriginMac") == Some(origin)
            && Lookup(q, "destinationIata") == Lookup(q, "tpDestinationIata") == Some(destination)
  {
    var q := QueryPairs(dateOut, dateIn, origin, destination, adults);
    QueryNamesDistinct(dateOut, dateIn, origin, destination, adults);
    LookupAt(q, 10);
    LookupAt(q, 20);
    LookupAt(q, 11);
    LookupAt(q, 21);
  }

  /** adults and tpAdults carry the same count; teens, children and infants
      are 0 under both sets of names. */
  lemma QueryPartyAgree(dateOut: string, dateIn: string, origin: string, destination: string,
                        adults: string)
    ensures var q := QueryPairs(dateOut, dateIn, origin, destination, adults);
            Lookup(q, "adults") == Lookup(q, "tpAdults") == Some(adults)
            && Lookup(q, "teens") == Lookup(q, "tpTeens") == Some("0")
            && Lookup(q, "children") == Lookup(q, "tpChildren") == Some("0")
            && Lookup(q, "infants") == Lookup(q, "tpInfants") == Some("0")
  {
    var q := QueryPairs(dateOut, dateIn, origin, destination, adults);
    QueryNamesDistinct(dateOut, dateIn, origin, destination, adults);
    LookupAt(q, 0);
    LookupAt(q, 12);
    LookupAt(q, 1);
    LookupAt(q, 13);
    LookupAt(q, 2);
    LookupAt(q, 14);
    LookupAt(q, 3);
    LookupAt(q, 15);
  }

  /** isConnectedFlight is "false" and isReturn "true"; discount and
      tpDiscount are both "0", promoCode and tpPromoCode both empty. */
  lemma QueryFlagsAgree(dateOut: string, dateIn: string, origin: string, destination: string,
                        adults: string)
    ensures var q := QueryPairs(dateOut, dateIn, origin, destination, adults);
            Lookup(q, "isConnectedFlight") == Some("false")
            && Lookup(q, "isReturn") == Some("true")
            && Lookup(q, "discount") == Lookup(q, "tpDiscount") == Some("0")
            && Lookup(q, "promoCode") == Lookup(q, "tpPromoCode") == Some("")
  {
    var q := QueryPairs(dateOut, dateIn, origin, destination, adults);
    QueryNamesDistinct(dateOut, dateIn, origin, destination, adults);
    LookupAt(q, 6);
    LookupAt(q, 9);
    LookupAt(q, 7);
    LookupAt(q, 18);
    LookupAt(q, 8);
    LookupAt(q, 19);
  }

  /** A URL built from a base address without "?" and a separable pair list
      reads back as that address and that list. */
  lemma ParseRenderUrl(address: string, ps: seq<Param>)
    requires '?' !in address && |ps| >= 1 && Separable(ps)
    ensures ParseUrl(address + RenderQuery(ps)) == (address, ps)
  {
    ParseRenderQuery(ps);
    CutAt(address, Join(RenderParams(ps), '&'), '?');
    assert address + RenderQuery(ps) == address + ['?'] + Join(RenderParams(ps), '&');
  }

  /** No parameter name holds "=" or "&" (checked in two halves, to keep
      each proof small). */
  lemma QueryNamesPlain(dateOut: string, dateIn: string, origin: string, destination: string,
                        adults: string)
    ensures var q := QueryPairs(dateOut, dateIn, origin, destination, adults);
            forall i :: 0 <= i < |q| ==> '=' !in q[i].0 && '&' !in q[i].0
  {
    var q := QueryPairs(dateOut, dateIn, origin, destination, adults);
    assert forall i :: 0 <= i < 11 ==> '=' !in q[i].0 && '&' !in q[i].0 by {
      PlainNamesFirstHalf(dateOut, dateIn, origin, destination, adults);
    }
    assert forall i :: 11 <= i < |q| ==> '=' !in q[i].0 && '&' !in q[i].0 by {
      PlainNamesSecondHalf(dateOut, dateIn, origin, destination, adults);
    }
  }

  lemma PlainNamesFirstHalf(dateOut: string, dateIn: string, origin: string, destination: string,
                            adults: string)
    ensures var q := QueryPairs(dateOut, dateIn, origin, destination, adults);
            forall i :: 0 <= i < 11 ==> '=' !in q[i].0 && '&' !in q[i].0
  {
  }

  lemma PlainNamesSecondHalf(dateOut: string, dateIn: string, origin: string, destination: string,
                             adults: string)
    ensures var q := QueryPairs(dateOut, dateIn, origin, destination, adults);
            forall i :: 11 <= i < |q| ==> '=' !in q[i].0 && '&' !in q[i].0
  {
  }

  lemma QuerySeparable(dateOut: string, dateIn: string, origin: string, destination: string,
                       adults: string)
    requires '&' !in dateOut && '&' !in dateIn && '&' !in origin && '&' !in destination
    requires '&' !in adults
    ensures Separable(QueryPairs(dateOut, dateIn, origin, destination, adults))
  {
    QueryNamesPlain(dateOut, dateIn, origin, destination, adults);
  }

  /** Date strings and rendered counts hold no "&". */
  lemma FieldsPlain(dateOut: Date, dateIn: Date, adults: int)
    requires InRange(dateOut) && InRange(dateIn)
    ensures '&' !in Format(dateOut) && '&' !in Format(dateIn) && '&' !in IntToString(adults)
  {
  }

  /** The built URL reads back as the base address and the query's pairs, so
      the agreements of QueryDatesAgree, QueryPlacesAgree and QueryPartyAgree
      hold of the URL text itself. */
  lemma BuildUrlQuery(dateOut: Date, stayDays: int, origin: string, destination: string,
                      adults: int)
    requires InRange(dateOut)
    requires '&' !in origin && '&' !in destination
    ensures var r := BuildUrl(dateOut, stayDays, origin, destination, adults);
            r.Success? ==>
              ParseUrl(r.value.url)
              == (BaseUrl, QueryPairs(r.value.dateOut, r.value.dateIn, origin, destination,
                                      IntToString(adults)))
  {
    var r := BuildUrl(dateOut, stayDays, origin, destination, adults);
    if r.Success? {
      var u := r.value;
      var a := IntToString(adults);
      var ps := QueryPairs(u.dateOut, u.dateIn, origin, destination, a);
      BuildUrlFields(dateOut, stayDays, origin, destination, adults);
      FieldsPlain(dateOut, AddDays(dateOut, stayDays), adults);
      QuerySeparable(u.dateOut, u.dateIn, origin, destination, a);
      assert '?' !in BaseUrl by {
        assert '?' !in SiteAddress && '?' !in SelectPath;
      }
      ParseRenderUrl(BaseUrl, ps);
    }
  }

  /** Reading the built URL's parameters back gives the departure date under
      dateOut and tpStartDate, the return date under dateIn and tpEndDate, and
      the adult count under adults and tpAdults. */
  lemma BuildUrlReadsBack(dateOut: Date, stayDays: int, origin: string, destination: string,
                          adults: int)
    requires InRange(dateOut)
    requires '&' !in origin && '&' !in destination
    ensures var r := BuildUrl(dateOut, stayDays, origin, destination, adults);
            r.Success? ==>
              var ps := ParseUrl(r.value.url).1;
              Lookup(ps, "dateOut") == Lookup(ps, "tpStartDate") == Some(Format(dateOut))
              && Lookup(ps, "dateIn") == Lookup(ps, "tpEndDate")
                 == Some(Format(AddDays(dateOut, stayDays)))
              && Lookup(ps, "adults") == Lookup(ps, "tpAdults") == Some(IntToString(adults))
  {
    var r := BuildUrl(dateOut, stayDays, origin, destination, adults);
    if r.Success? {
      BuildUrlQuery(dateOut, stayDays, origin, destination, adults);
      BuildUrlFields(dateOut, stayDays, origin, destination, adults);
      var a := IntToString(adults);
      QueryDatesAgree(r.value.dateOut, r.value.dateIn, origin, destination, a);
      QueryPartyAgree(r.value.dateOut, r.value.dateIn, origin, destination, a);
    }
  }
}
