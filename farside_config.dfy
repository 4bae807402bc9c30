/**
 * The per-ticker configuration tables: provider, sort index, a colour per theme and a
 * link. Record entries are kept in declaration order, which is also `Object.keys` order.
 */
module FarsideConfig {
  import opened Wrappers
  import opened Seqs
  import opened Sorting

  /** A colour for each of the two themes; both are always present. */
  datatype Colors = Colors(light: string, dark: string)

  datatype TickerConfig = TickerConfig(provider: string, index: nat, colors: Colors, url: string)

  datatype Entry = Entry(ticker: string, config: TickerConfig)

  /** `ETF_TICKERS_CONFIG`, the bitcoin ETFs. */
  const EtfTickersConfig: seq<Entry> := [
    Entry("IBIT", TickerConfig("Blackrock", 0, Colors("#616161", "#616161"),
      "https://www.blackrock.com/us/individual/products/333011/ishares-bitcoin-trust")),
    Entry("FBTC", TickerConfig("Fidelity", 1, Colors("#368727", "#368727"),
      "https://institutional.fidelity.com/advisors/investment-solutions/asset-classes/alternatives/fidelity-wise-origin-bitcoin-fund")),
    Entry("BITB", TickerConfig("Bitwise", 2, Colors("#22c96a", "#22c96a"), "https://bitbetf.com/")),
    Entry("ARKB", TickerConfig("Ark", 3, Colors("#8264FF", "#8264FF"), "https://www.ark-funds.com/funds/arkb/")),
    Entry("BTCO", TickerConfig("Invesco", 4, Colors("#000AD2", "#6366f1"),
      "https://www.invesco.com/us/financial-products/etfs/product-detail?audienceType=Advisor&ticker=BTCO")),
    Entry("EZBC", TickerConfig("Franklin", 5, Colors("#2563eb", "#b3d4fc"),
      "https://www.franklintempleton.com/strategies/bitcoin-etf")),
    Entry("BRRR", TickerConfig("Valkyrie", 6, Colors("#242428", "#cfff24"), "https://coinshares.com/us/etf/brrr/")),
    Entry("HODL", TickerConfig("VanEck", 7, Colors("#17468F", "#1d4ed8"),
      "https://www.vaneck.com/us/en/investments/bitcoin-etf-hodl/overview/")),
    Entry("BTCW", TickerConfig("WTree", 8, Colors("#05a9b1", "#05a9b1"),
      "https://www.wisdomtree.com/investments/etfs/crypto/btcw")),
    Entry("GBTC", TickerConfig("Grayscale Bitcoin Trust", 9, Colors("#5b21b6", "#c5bfe4"),
      "https://etfs.grayscale.com/gbtc")),
    Entry("BTC", TickerConfig("Grayscale BTC", 10, Colors("#5b21b6", "#c5bfe4"), "https://etfs.grayscale.com/btc"))
  ]

  /** `ETH_ETF_TICKERS_CONFIG`, the ether ETFs. */
  const EthEtfTickersConfig: seq<Entry> := [
    Entry("ETHA", TickerConfig("Blackrock", 0, Colors("#616161", "#616161"),
      "https://www.blackrock.com/us/individual/products/333011/ishares-bitcoin-trust")),
    Entry("FETH", TickerConfig("Fidelity", 1, Colors("#368727", "#368727"),
      "https://institutional.fidelity.com/advisors/investment-solutions/asset-classes/alternatives/fidelity-wise-origin-bitcoin-fund")),
    Entry("ETHW", TickerConfig("Bitwise", 2, Colors("#22c96a", "#22c96a"), "https://bitbetf.com/")),
    Entry("CETH", TickerConfig("21 Shares", 3, Colors("#8264FF", "#8264FF"), "https://www.21shares.com/en-us/product/ceth")),
    Entry("ETHV", TickerConfig("VanEck", 4, Colors("#000AD2", "#6366f1"),
      "https://www.vaneck.com/us/en/investments/bitcoin-etf-hodl/overview/")),
    Entry("QETH", TickerConfig("Invesco", 5, Colors("#2563eb", "#b3d4fc"),
      "https://www.invesco.com/us/financial-products/etfs/product-detail?audienceType=Advisor&ticker=BTCO")),
    Entry("EZET", TickerConfig("Franklin", 6, Colors("#17468F", "#1d4ed8"),
      "https://www.franklintempleton.com/strategies/franklin-ethereum-etf-ezet")),
    Entry("ETHE", TickerConfig("Grayscale ETHE", 7, Colors("#05a9b1", "#05a9b1"), "https://etfs.grayscale.com/ethe")),
    Entry("ETH", TickerConfig("Grayscale ETH", 8, Colors("#5b21b6", "#c5bfe4"), "https://etfs.grayscale.com/eth"))
  ]

  function Tickers(table: seq<Entry>): (ts: seq<string>)
    ensures |ts| == |table| && forall i :: 0 <= i < |table| ==> ts[i] == table[i].ticker
  {
    seq(|table|, i requires 0 <= i < |table| => table[i].ticker)
  }

  /** The sort keys of a table: each entry's `index`. */
  function IndexKeys(table: seq<Entry>): (ks: seq<real>)
    ensures |ks| == |table| && forall i :: 0 <= i < |table| ==> ks[i] == table[i].config.index as real
  {
    seq(|table|, i requires 0 <= i < |table| => table[i].config.index as real)
  }

  /** `table[ticker]`: the entry with that ticker, `None` for `undefined`. */
  function Lookup(table: seq<Entry>, ticker: string): (c: Option<TickerConfig>)
    ensures c.None? <==> ticker !in Tickers(table)
    ensures c.Some? ==> c.value == table[IndexOf(Tickers(table), ticker)].config
  {
    if ticker in Tickers(table) then Some(table[IndexOf(Tickers(table), ticker)].config) else None
  }

  /** Entry `i` carries index `i`, and no ticker is declared twice. */
  ghost predicate WellIndexed(table: seq<Entry>) {
    (forall i :: 0 <= i < |table| ==> table[i].config.index == i) && Distinct(Tickers(table))
  }

  lemma {:induction false} LookupEntry(table: seq<Entry>, i: nat)
    requires WellIndexed(table) && i < |table|
    ensures Lookup(table, table[i].ticker) == Some(table[i].config)
  {
    IndexOfDistinct(Tickers(table), i);
  }

  /** The bitcoin tickers, in declaration order. */
  lemma EtfTickersListed()
    ensures Tickers(EtfTickersConfig)
      == ["IBIT", "FBTC", "BITB", "ARKB", "BTCO", "EZBC", "BRRR", "HODL", "BTCW", "GBTC", "BTC"]
  {
  }

  lemma EtfTickersDistinct()
    ensures Distinct(["IBIT", "FBTC", "BITB", "ARKB", "BTCO", "EZBC", "BRRR", "HODL", "BTCW", "GBTC", "BTC"])
  {
  }

  /** The bitcoin table has 11 entries with indices 0..10 in declaration order. */
  lemma EtfTickersConfigIndexed()
    ensures |EtfTickersConfig| == 11 && WellIndexed(EtfTickersConfig)
    ensures Tickers(EtfTickersConfig)
      == ["IBIT", "FBTC", "BITB", "ARKB", "BTCO", "EZBC", "BRRR", "HODL", "BTCW", "GBTC", "BTC"]
  {
    EtfTickersListed();
    EtfTickersDistinct();
  }

  /** The ether tickers, in declaration order. */
  lemma EthEtfTickersListed()
    ensures Tickers(EthEtfTickersConfig) == ["ETHA", "FETH", "ETHW", "CETH", "ETHV", "QETH", "EZET", "ETHE", "ETH"]
  {
  }

  lemma EthEtfTickersDistinct()
    ensures Distinct(["ETHA", "FETH", "ETHW", "CETH", "ETHV", "QETH", "EZET", "ETHE", "ETH"])
  {
  }

  /** The ether table has 9 entries with indices 0..8 in declaration order. */
  lemma EthEtfTickersConfigIndexed()
    ensures |EthEtfTickersConfig| == 9 && WellIndexed(EthEtfTickersConfig)
  {
    EthEtfTickersListed();
    EthEtfTickersDistinct();
  }

  /** Every entry of a table has a non-empty colour for each theme. */
  ghost predicate ColorsSet(table: seq<Entry>) {
    forall i :: 0 <= i < |table| ==> table[i].config.colors.light != "" && table[i].config.colors.dark != ""
  }

  lemma EtfColorsSet()
    ensures ColorsSet(EtfTickersConfig)
  {
  }

  lemma EthEtfColorsSet()
    ensures ColorsSet(EthEtfTickersConfig)
  {
  }

  /** Every entry of both tables has a non-empty colour for each theme. */
  lemma ColorsDefined()
    ensures forall e :: e in EtfTickersConfig + EthEtfTickersConfig ==>
      e.config.colors.light != "" && e.config.colors.dark != ""
  {
    EtfColorsSet();
    EthEtfColorsSet();
    var all := EtfTickersConfig + EthEtfTickersConfig;
    forall e | e in all ensures e.config.colors.light != "" && e.config.colors.dark != "" {
      var k :| 0 <= k < |all| && all[k] == e;
      if k >= |EtfTickersConfig| {
        assert e == EthEtfTickersConfig[k - |EtfTickersConfig|];
      }
    }
  }

  /** The tickers of a table in ascending `index` order (a stable sort). */
  function TickersByIndex(table: seq<Entry>): (ts: seq<string>)
    ensures |ts| == |table|
  {
    var order := SortedIndices(IndexKeys(table));
    seq(|table|, p requires 0 <= p < |table| => table[order[p]].ticker)
  }

  /** Index order of a well-indexed table is its declaration order. */
  lemma {:induction false} SortByIndexIsDeclarationOrder(table: seq<Entry>)
    requires WellIndexed(table)
    ensures SortedIndices(IndexKeys(table)) == Range(0, |table|)
    ensures TickersByIndex(table) == Tickers(table)
  {
    SortFromIncreasing(0, IndexKeys(table));
  }

  /** Sorting the bitcoin tickers by index gives IBIT, FBTC, …, GBTC, BTC. */
  lemma EtfTickersByIndex()
    ensures TickersByIndex(EtfTickersConfig)
      == ["IBIT", "FBTC", "BITB", "ARKB", "BTCO", "EZBC", "BRRR", "HODL", "BTCW", "GBTC", "BTC"]
  {
    EtfTickersConfigIndexed();
    SortByIndexIsDeclarationOrder(EtfTickersConfig);
  }
}
