/** The currency tables of StockDash.py and the rules that pick the dashboard's base
    currency, the currency selector's default entry and the symbol printed in front
    of converted prices. */
module Currency {
  import opened Json

  /** The selector's options, in display order. */
  const CURRENCY_LIST: seq<string> := ["USD", "EUR", "GBP", "JPY", "CHF", "CAD", "AUD", "CNY", "INR", "SGD"]

  /** Static exchange rates to US dollars (decimal values; the source holds binary floats). */
  const RATES_TO_USD: map<string, real> := map[
    "USD" := 1.0, "EUR" := 1.10, "GBP" := 1.26, "JPY" := 0.0073, "CHF" := 1.12,
    "CAD" := 0.74, "AUD" := 0.67, "CNY" := 0.14, "INR" := 0.012, "SGD" := 0.73]

  const CURRENCY_SYMBOLS: map<string, string> := map[
    "USD" := "$", "EUR" := "€", "GBP" := "£", "JPY" := "¥", "CHF" := "Fr",
    "CAD" := "C$", "AUD" := "A$", "CNY" := "¥", "INR" := "₹", "SGD" := "S$"]

  const FALLBACK_CURRENCY: Json := Str("USD")

  /** The position of the first occurrence of `x` in `s` (Python's `list.index`). */
  function IndexOf<T(==)>(s: seq<T>, x: T): (i: nat)
    requires x in s
    ensures i < |s| && s[i] == x
    ensures forall j :: 0 <= j < i ==> s[j] != x
  {
    if s[0] == x then 0 else 1 + IndexOf(s[1..], x)
  }

  /** `st.session_state.currency or "USD"`. */
  function BaseCurrency(sessionCurrency: Json): (r: Json)
    ensures Truthy(r)
    ensures Truthy(sessionCurrency) ==> r == sessionCurrency
    ensures !Truthy(sessionCurrency) ==> r == FALLBACK_CURRENCY
  {
    if Truthy(sessionCurrency) then sessionCurrency else FALLBACK_CURRENCY
  }

  /** Whether `base_currency in currency_list` (a non-string is never in it). */
  predicate Listed(base: Json) {
    base.Str? && base.s in CURRENCY_LIST
  }

  /** `default_currency_index`: the selector opens on the base currency when it is
      listed, and on the first entry otherwise. */
  function DefaultCurrencyIndex(base: Json): (idx: nat)
    ensures idx < |CURRENCY_LIST|
    ensures Listed(base) ==> CURRENCY_LIST[idx] == base.s
    ensures !Listed(base) ==> idx == 0
  {
    if Listed(base) then IndexOf(CURRENCY_LIST, base.s) else 0
  }

  /** `currency_symbols.get(c, c)`: the symbol of a known code, the code itself otherwise. */
  function CurrencySymbol(c: string): (sym: string)
    ensures c in CURRENCY_SYMBOLS ==> sym == CURRENCY_SYMBOLS[c]
    ensures c !in CURRENCY_SYMBOLS ==> sym == c
  {
    if c in CURRENCY_SYMBOLS then CURRENCY_SYMBOLS[c] else c
  }

  /** The three tables cover the same ten codes, each listed once, so every code the
      selector offers has a rate and a symbol of its own. */
  lemma TablesAgree()
    ensures |CURRENCY_LIST| == 10
    ensures forall i, j :: 0 <= i < j < |CURRENCY_LIST| ==> CURRENCY_LIST[i] != CURRENCY_LIST[j]
    ensures RATES_TO_USD.Keys == CURRENCY_SYMBOLS.Keys == set c | c in CURRENCY_LIST
    ensures forall c :: c in CURRENCY_LIST ==> CurrencySymbol(c) == CURRENCY_SYMBOLS[c] != c
  {
  }

  /** The selector's default entry is the session currency when that is a listed
      code, and "USD" in every other case (missing, empty or unlisted currency). */
  lemma DefaultSelection(sessionCurrency: Json)
    ensures var idx := DefaultCurrencyIndex(BaseCurrency(sessionCurrency));
            if Listed(sessionCurrency) then CURRENCY_LIST[idx] == sessionCurrency.s
            else CURRENCY_LIST[idx] == "USD"
  {
  }
}
