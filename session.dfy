/** The dashboard's session state in StockDash.py (`st.session_state`): the selected
    symbol, its currency and time zone, and the company name last entered, and how a
    newly entered name updates them. */
module Session {
  import opened Wrappers
  import opened Json
  import opened Lookup

  datatype State = State(selectedSymbol: Json, currency: Json, companyName: string, timezone: Zone)

  /** The values the first run of the script stores. */
  const INITIAL := State(Null, Null, "", UTC)

  /** Why a rerun of the script stopped with an exception. */
  datatype Failure =
    | SearchFailed(search: SearchError)
    | TimezoneFailed(timezone: TimezoneError)
    /** Lines 83-84 read `ticker_obj`, which the not-found branch never binds. */
    | UnboundTicker

  datatype Outcome =
    /** The entered name is the session's: nothing is looked up. */
    | Unchanged
    /** A symbol was found and the session now follows it. */
    | Selected(symbol: Json)
    | Raised(failure: Failure)

  /** The session after `name` is entered: `response` is the symbol search's answer,
      `info` the provider's info payload for the symbol found, `zones` pytz's zone
      database. */
  function Step(s: State, name: string, response: SearchResponse, info: map<string, Json>, zones: map<string, Zone>): (r: (State, Outcome))
    ensures r.1 == Unchanged <==> name == s.companyName
    ensures name == s.companyName ==> r.0 == s
    ensures name != s.companyName && TickerSymbol(response).Err? ==>
              r == (s, Raised(SearchFailed(TickerSymbol(response).error)))
    ensures name != s.companyName && TickerSymbol(response).Ok? && !Truthy(TickerSymbol(response).value) ==>
              r == (State(Null, Null, name, UTC), Raised(UnboundTicker))
    ensures name != s.companyName && TickerSymbol(response).Ok? && Truthy(TickerSymbol(response).value) ==>
              && r.0.selectedSymbol == TickerSymbol(response).value
              && r.0.companyName == name
              && r.0.currency == CurrencyOf(info)
              && (TimezoneOf(info, zones).Ok? ==>
                    r.0.timezone == TimezoneOf(info, zones).value && r.1 == Selected(TickerSymbol(response).value))
              && (TimezoneOf(info, zones).Err? ==>
                    r.0.timezone == s.timezone && r.1 == Raised(TimezoneFailed(TimezoneOf(info, zones).error)))
  {
    if name == s.companyName then (s, Unchanged)
    else
      match TickerSymbol(response)
      case Err(e) => (s, Raised(SearchFailed(e)))
      case Ok(symbol) =>
        if Truthy(symbol) then
          var chosen := s.(selectedSymbol := symbol, companyName := name, currency := CurrencyOf(info));
          match TimezoneOf(info, zones)
          case Ok(zone) => (chosen.(timezone := zone), Selected(symbol))
          case Err(e) => (chosen, Raised(TimezoneFailed(e)))
        else
          (State(Null, Null, name, UTC), Raised(UnboundTicker))
  }

  /** The selected symbol is either none or a value the dashboard treats as a symbol:
      never a stored falsy value such as the empty string. */
  predicate Consistent(s: State) {
    s.selectedSymbol == Null || Truthy(s.selectedSymbol)
  }

  /** Line 85: the dashboard is shown only while a symbol is selected; in a
      consistent session that is exactly when the symbol is not none. */
  predicate DashboardEnabled(s: State)
    ensures Consistent(s) ==> (DashboardEnabled(s) <==> s.selectedSymbol != Null)
  {
    Truthy(s.selectedSymbol)
  }

  /** A step keeps the session consistent; a found symbol enables the dashboard and a
      failed lookup disables it. */
  lemma StepKeepsConsistent(s: State, name: string, response: SearchResponse, info: map<string, Json>, zones: map<string, Zone>)
    requires Consistent(s)
    ensures var r := Step(s, name, response, info, zones);
            && Consistent(r.0)
            && (r.1.Selected? ==> DashboardEnabled(r.0))
            && (r.1 == Raised(UnboundTicker) ==> !DashboardEnabled(r.0))
  {
  }

  /** Unless the search itself failed, the session remembers the entered name, so the
      next rerun with the same text looks nothing up again. */
  lemma StepRemembersName(s: State, name: string, response: SearchResponse, info: map<string, Json>, zones: map<string, Zone>,
                          response': SearchResponse, info': map<string, Json>, zones': map<string, Zone>)
    requires !Step(s, name, response, info, zones).1.Raised? || !Step(s, name, response, info, zones).1.failure.SearchFailed?
    ensures var s' := Step(s, name, response, info, zones).0;
            s'.companyName == name && Step(s', name, response', info', zones') == (s', Unchanged)
  {
  }

  /** `st.session_state`, updated field by field as the script does. */
  class SessionState {
    var selectedSymbol: Json
    var currency: Json
    var companyName: string
    var timezone: Zone

    function Current(): State
      reads this
    {
      State(selectedSymbol, currency, companyName, timezone)
    }

    /** Lines 28-35 on the first run. */
    constructor ()
      ensures Current() == INITIAL
    {
      selectedSymbol := Null;
      currency := Null;
      companyName := "";
      timezone := UTC;
    }

    /** Lines 70-84 for the entered `name`. */
    method EnterName(name: string, response: SearchResponse, info: map<string, Json>, zones: map<string, Zone>)
      returns (outcome: Outcome)
      modifies this
      ensures (Current(), outcome) == Step(old(Current()), name, response, info, zones)
    {
      if name == companyName {
        return Unchanged;
      }
      var symbol := TickerSymbol(response);
      if symbol.Err? {
        return Raised(SearchFailed(symbol.error));
      }
      if Truthy(symbol.value) {
        selectedSymbol := symbol.value;
        companyName := name;
      } else {
        selectedSymbol := Null;
        currency := Null;
        timezone := UTC;
        companyName := name;
        return Raised(UnboundTicker);
      }
      currency := CurrencyOf(info);
      var zone := TimezoneOf(info, zones);
      if zone.Err? {
        return Raised(TimezoneFailed(zone.error));
      }
      timezone := zone.value;
      outcome := Selected(symbol.value);
    }
  }
}
