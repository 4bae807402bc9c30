/**
 * The two charts built from the cumulated days: the area chart over every ticker with
 * `roundNToXDecimals(x)`, and the percent chart without GBTC with `roundNToXDecimals(x, 2)`.
 * Both sort their series by `getConfig(ticker).index`.
 */
module Charts {
  import opened Rows
  import opened Externals
  import opened Seqs
  import opened FarsideConfig
  import opened FarsideUtil
  import opened ChartSeries

  /** `getConfig(ticker).index`, the key the series are sorted by. */
  function ConfigIndex(t: string): (i: int)
    ensures t in Tickers(EtfTickersConfig) ==> 0 <= i < FallbackIndex()
    ensures t !in Tickers(EtfTickersConfig) ==> i == FallbackIndex()
  {
    if t in Tickers(EtfTickersConfig) then
      FallbackSortsLast(t, "");
      GetConfig(t).index
    else GetConfig(t).index
  }

  /** The `useEffect` body of the area chart. */
  method AreaChart(env: Env, days: seq<Row>, tickers: seq<string>) returns (timestamps: seq<string>, series: seq<Serie>)
    requires Distinct(tickers)
    ensures timestamps == Ticks(env, days)
    ensures series == Chart(env, days, tickers, false, env.roundDefault, ConfigIndex)
  {
    timestamps, series := BuildSeries(env, days, tickers, false, env.roundDefault, ConfigIndex);
  }

  /** The `useEffect` body of the percent chart. */
  method PercentChart(env: Env, days: seq<Row>, tickers: seq<string>) returns (timestamps: seq<string>, series: seq<Serie>)
    requires Distinct(tickers)
    ensures timestamps == Ticks(env, days)
    ensures series == Chart(env, days, tickers, true, env.round2, ConfigIndex)
  {
    timestamps, series := BuildSeries(env, days, tickers, true, env.round2, ConfigIndex);
  }

  /** The area chart's day total runs over every ticker. */
  lemma AreaSerie(env: Env, days: seq<Row>, tickers: seq<string>, x: Serie)
    requires x in Chart(env, days, tickers, false, env.roundDefault, ConfigIndex)
    ensures x.key in tickers && x.index == GetConfig(x.key).index && x.showSerie
    ensures |x.flows| == |days| && |x.flowsPercent| == |days|
    ensures forall d :: 0 <= d < |days| ==>
      x.flowsPercent[d] == Rounded(env.roundDefault, Guarded(x.flows[d], DayTotal(env, days[d], tickers), CheckZero(days[d])))
  {
    ChartSerie(env, days, tickers, false, env.roundDefault, ConfigIndex, x);
    KeptAll(tickers);
    forall d | 0 <= d < |days|
      ensures x.flowsPercent[d] == Rounded(env.roundDefault, Guarded(x.flows[d], DayTotal(env, days[d], tickers), CheckZero(days[d])))
    {
      assert x.flowsPercent[d] ==
        Rounded(env.roundDefault, Guarded(x.flows[d], DayTotal(env, days[d], Kept(tickers, false)), CheckZero(days[d])));
    }
  }

  /** GBTC never gets a percent series. */
  lemma PercentNoGbtc(env: Env, days: seq<Row>, tickers: seq<string>, x: Serie)
    requires x in Chart(env, days, tickers, true, env.round2, ConfigIndex)
    ensures x.key != "GBTC" && x.key in tickers
  {
    ChartSerie(env, days, tickers, true, env.round2, ConfigIndex, x);
  }

  /** Changing a day's GBTC cell changes no percent-chart day total. */
  lemma {:induction false} GbtcIgnored(env: Env, day: Row, ks: seq<string>, v: Value)
    requires "GBTC" !in ks
    ensures DayTotal(env, Set(day, "GBTC", v), ks) == DayTotal(env, day, ks)
  {
    if ks != [] {
      var t := ks[|ks| - 1];
      assert t in ks;
      GetSetOther(day, "GBTC", v, t);
      GbtcIgnored(env, day, ks[..|ks| - 1], v);
    }
  }

  /** The percent chart's kept tickers exclude GBTC, so its day totals ignore GBTC's cell. */
  lemma PercentTotalIgnoresGbtc(env: Env, day: Row, tickers: seq<string>, v: Value)
    ensures DayTotal(env, Set(day, "GBTC", v), Kept(tickers, true)) == DayTotal(env, day, Kept(tickers, true))
  {
    KeptMembers(tickers, true);
    GbtcIgnored(env, day, Kept(tickers, true), v);
  }

  /** In either chart, the configured tickers come first, in config order, then the others. */
  lemma KnownFirst(env: Env, days: seq<Row>, tickers: seq<string>, skipGbtc: bool, round: real -> real, p: nat, q: nat)
    requires var c := Chart(env, days, tickers, skipGbtc, round, ConfigIndex); p < q < |c|
    ensures var c := Chart(env, days, tickers, skipGbtc, round, ConfigIndex);
      GetConfig(c[p].key).index <= GetConfig(c[q].key).index &&
      (c[p].key !in Tickers(EtfTickersConfig) ==> c[q].key !in Tickers(EtfTickersConfig))
  {
    var c := Chart(env, days, tickers, skipGbtc, round, ConfigIndex);
    ByIndexOrder(Visible(Built(env, days, tickers, skipGbtc, round, ConfigIndex)));
    ChartSerie(env, days, tickers, skipGbtc, round, ConfigIndex, c[p]);
    ChartSerie(env, days, tickers, skipGbtc, round, ConfigIndex, c[q]);
  }
}
