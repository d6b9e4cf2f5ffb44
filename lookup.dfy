/** The lookup helpers of utility/backend.py: how a symbol-search response is read
    (`get_ticker_symbol`), the currency and time-zone defaults over a ticker's info
    payload, and the company-logo URL. The HTTP requests themselves are outside the
    model: their outcome is a parameter. */
module Lookup {
  import opened Wrappers
  import opened Json

  /** One entry of the search response's `quotes` array: the JSON value of its
      "symbol" field, `None` when the entry has no such field. */
  datatype Quote = Quote(symbol: Option<Json>)

  /** The search endpoint's answer: its status code and, from the JSON body, the
      `quotes` array (`None` when the body has no "quotes" key). */
  datatype SearchResponse = SearchResponse(status: int, quotes: Option<seq<Quote>>)

  datatype SearchError =
    /** `results["quotes"]` raises KeyError. */
    | MissingQuotes
    /** `results["quotes"][0]["symbol"]` raises KeyError. */
    | MissingSymbol

  /** `get_ticker_symbol`, after the request: the returned value, `Null` for Python's
      `None`, or `Err` for an exception the function lets through. The first quote's
      symbol is returned as stored, whatever its type. */
  function TickerSymbol(response: SearchResponse): (r: Result<Json, SearchError>)
    ensures r == Err(MissingQuotes) <==> response.status == 200 && response.quotes.None?
    ensures r == Err(MissingSymbol) <==>
              && response.status == 200
              && response.quotes.Some? && response.quotes.value != []
              && response.quotes.value[0].symbol.None?
    ensures response.status != 200 || response.quotes == Some([]) ==> r == Ok(Null)
    ensures response.status == 200 && response.quotes.Some? && response.quotes.value != [] &&
            response.quotes.value[0].symbol.Some? ==>
              r == Ok(response.quotes.value[0].symbol.value)
  {
    if response.status == 200 then
      match response.quotes
      case None => Err(MissingQuotes)
      case Some(quotes) =>
        if quotes == [] then Ok(Null)
        else if quotes[0].symbol.None? then Err(MissingSymbol)
        else Ok(quotes[0].symbol.value)
    else
      Ok(Null)
  }

  /** The search result the script treats as "no symbol" (`if symbol:` fails) comes
      exactly from a failed request, an empty quote list, or a first symbol that is
      itself falsy: null, empty, zero or false. */
  lemma TickerSymbolNotFound(response: SearchResponse)
    requires TickerSymbol(response).Ok?
    ensures !Truthy(TickerSymbol(response).value) <==>
              || response.status != 200
              || response.quotes == Some([])
              || !Truthy(response.quotes.value[0].symbol.value)
  {
  }

  const CURRENCY_KEY := "currency"
  const TIMEZONE_KEY := "exchangeTimezoneName"

  /** The literal returned when the info payload has no currency field. */
  const UNKNOWN_CURRENCY: Json := Str("Unknown")

  /** `get_currency_from_ticker`, on the ticker's info payload. */
  function CurrencyOf(info: map<string, Json>): (r: Json)
    ensures CURRENCY_KEY in info ==> r == info[CURRENCY_KEY]
    ensures CURRENCY_KEY !in info ==> r == UNKNOWN_CURRENCY
  {
    Get(info, CURRENCY_KEY, UNKNOWN_CURRENCY)
  }

  /** A time zone, kept as an opaque name. */
  datatype Zone = Zone(name: string)

  const UTC := Zone("UTC")

  datatype TimezoneError =
    /** `pytz.timezone(tz)` raises: UnknownTimeZoneError for a string it does not
        know, an AttributeError for a truthy value that is not a string. Neither is
        caught. */
    | UnknownTimeZone(value: Json)

  /** `get_timezone_from_ticker`, on the ticker's info payload; `zones` is the zone
      database `pytz.timezone` consults. */
  function TimezoneOf(info: map<string, Json>, zones: map<string, Zone>): (r: Result<Zone, TimezoneError>)
    ensures TIMEZONE_KEY !in info ==> r == Ok(UTC)
    ensures TIMEZONE_KEY in info && !Truthy(info[TIMEZONE_KEY]) ==> r == Ok(UTC)
    ensures TIMEZONE_KEY in info && Truthy(info[TIMEZONE_KEY]) ==>
              if info[TIMEZONE_KEY].Str? && info[TIMEZONE_KEY].s in zones
              then r == Ok(zones[info[TIMEZONE_KEY].s])
              else r == Err(UnknownTimeZone(info[TIMEZONE_KEY]))
  {
    var tz := Get(info, TIMEZONE_KEY, Null);
    if Truthy(tz) then
      if tz.Str? && tz.s in zones then Ok(zones[tz.s]) else Err(UnknownTimeZone(tz))
    else
      Ok(UTC)
  }

  /** `c.lower()` on an ASCII letter; every other character is left as it is. */
  function LowerChar(c: char): (d: char)
    ensures 'A' <= c <= 'Z' ==> d as int == c as int - 'A' as int + 'a' as int
    ensures !('A' <= c <= 'Z') ==> d == c
    ensures !('A' <= d <= 'Z')
  {
    if 'A' <= c <= 'Z' then (c - 'A' + 'a') as char else c
  }

  predicate NoSpaceNoUpper(s: string) {
    forall i :: 0 <= i < |s| ==> s[i] != ' ' && !('A' <= s[i] <= 'Z')
  }

  /** `name.replace(" ", "").lower()`: no space or upper-case letter is left and
      nothing is added; a name of spaces only becomes empty, and a name without spaces
      is lower-cased character by character. With `SquashAppend` this fixes the
      result on every name. */
  function Squash(name: string): (r: string)
    ensures NoSpaceNoUpper(r)
    ensures |r| <= |name|
    ensures (forall i :: 0 <= i < |name| ==> name[i] == ' ') ==> r == []
    ensures (forall i :: 0 <= i < |name| ==> name[i] != ' ') ==>
              |r| == |name| && forall i :: 0 <= i < |r| ==> r[i] == LowerChar(name[i])
  {
    if name == [] then []
    else (if name[0] == ' ' then [] else [LowerChar(name[0])]) + Squash(name[1..])
  }

  const LOGO_BASE := "https://logo.clearbit.com/"
  const DOMAIN_SUFFIX := ".com"

  /** The guessed company web domain: the squashed name followed by ".com", so it has
      no space and no upper-case letter. */
  function LogoDomain(name: string): (d: string)
    ensures |d| >= |DOMAIN_SUFFIX| && d[|d| - |DOMAIN_SUFFIX|..] == DOMAIN_SUFFIX
    ensures d[..|d| - |DOMAIN_SUFFIX|] == Squash(name)
    ensures NoSpaceNoUpper(d)
  {
    var d := Squash(name) + DOMAIN_SUFFIX;
    assert d[|d| - |DOMAIN_SUFFIX|..] == DOMAIN_SUFFIX;
    assert d[..|d| - |DOMAIN_SUFFIX|] == Squash(name);
    d
  }

  /** What the logo request comes to: an HTTP status, or an exception in the transport. */
  datatype FetchOutcome = Status(code: int) | TransportFailure

  /** `get_company_logo(name)`, given the outcome of requesting its URL. */
  function CompanyLogo(name: string, fetch: FetchOutcome): (r: Option<string>)
    ensures r.Some? <==> fetch == Status(200)
    ensures r.Some? ==> r.value == LOGO_BASE + LogoDomain(name)
  {
    var logoUrl := LOGO_BASE + LogoDomain(name);
    if fetch == Status(200) then Some(logoUrl) else None
  }

  /** Squashing distributes over concatenation. */
  lemma {:induction false} SquashAppend(s: string, t: string)
    ensures Squash(s + t) == Squash(s) + Squash(t)
  {
    if s == [] {
      assert s + t == t;
    } else {
      assert (s + t)[1..] == s[1..] + t;
      SquashAppend(s[1..], t);
    }
  }

  /** Squashing a name that is already squashed changes nothing, so the domain only
      depends on the name up to spaces and ASCII case. */
  lemma {:induction false} SquashIdempotent(name: string)
    ensures Squash(Squash(name)) == Squash(name)
  {
    if name != [] {
      SquashIdempotent(name[1..]);
      var head := if name[0] == ' ' then [] else [LowerChar(name[0])];
      SquashAppend(head, Squash(name[1..]));
      if head != [] {
        assert Squash(head) == head by {
          assert head[1..] == [];
        }
      }
    }
  }

  /** The domain depends on the name only up to spaces and ASCII case. */
  lemma LogoDomainOfSquashed(name: string)
    ensures LogoDomain(Squash(name)) == LogoDomain(name)
  {
    SquashIdempotent(name);
  }
}
