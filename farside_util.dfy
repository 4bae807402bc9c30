/** `getConfig` and `monthName`. */
module FarsideUtil {
  import opened Wrappers
  import opened FarsideConfig
  import opened Seqs

  /** The fallback index: `Object.keys(ETF_TICKERS_CONFIG).length`. */
  function FallbackIndex(): nat {
    |EtfTickersConfig|
  }

  /**
   * `getConfig(ticker)`: a known ticker's entry, otherwise a default entry that names the
   * ticker as its own provider, links to "/" and sorts after every known ticker.
   */
  function GetConfig(ticker: string): (c: TickerConfig)
    ensures ticker in Tickers(EtfTickersConfig) ==> Some(c) == Lookup(EtfTickersConfig, ticker)
    ensures ticker !in Tickers(EtfTickersConfig) ==>
      c == TickerConfig(ticker, 11, Colors("black", "white"), "/")
  {
    match Lookup(EtfTickersConfig, ticker)
    case Some(config) => config
    case None => TickerConfig(ticker, FallbackIndex(), Colors("black", "white"), "/")
  }

  /** The configured entry of each declared bitcoin ticker. */
  lemma GetConfigKnown(i: nat)
    requires i < |EtfTickersConfig|
    ensures GetConfig(EtfTickersConfig[i].ticker) == EtfTickersConfig[i].config
    ensures GetConfig(EtfTickersConfig[i].ticker).index == i
  {
    EtfTickersConfigIndexed();
    LookupEntry(EtfTickersConfig, i);
  }

  /** Unknown tickers sort after every known one. */
  lemma FallbackSortsLast(known: string, unknown: string)
    requires known in Tickers(EtfTickersConfig) && unknown !in Tickers(EtfTickersConfig)
    ensures GetConfig(known).index < GetConfig(unknown).index
  {
    var i := IndexOf(Tickers(EtfTickersConfig), known);
    GetConfigKnown(i);
  }

  const MonthNames: seq<string> := ["January", "February", "March", "April", "May", "June",
    "July", "August", "September", "October", "November", "December"]

  /** `monthName(i)`: the English name of month `i` (0 is January), `None` for `undefined`. */
  function MonthName(i: int): (m: Option<string>)
    ensures m.Some? <==> 0 <= i < 12
  {
    if 0 <= i < |MonthNames| then Some(MonthNames[i]) else None
  }

  /** Distinct months have distinct names. */
  lemma MonthNameInjective(i: int, j: int)
    requires MonthName(i).Some? && MonthName(i) == MonthName(j)
    ensures i == j
  {
  }
}
