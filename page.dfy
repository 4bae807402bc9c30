/** The page's data pipeline: parse and enrich, rank the days, build the cumulated copy. */
module Page {
  import opened Rows
  import opened Externals
  import opened Seqs
  import opened Sorting
  import opened Ranking
  import opened PageEnrich
  import opened PageRank
  import opened PageCumulate

  /**
   * `farsideData` (enriched, then ranked in place), `tickers`, and the cumulated deep
   * copy handed to the charts.
   */
  method BuildPage(env: Env, raw: seq<Row>) returns (farsideData: array<Row>, tickers: seq<string>, cumulated: array<Row>)
    requires forall i :: 0 <= i < |raw| ==> DistinctKeys(raw[i])
    ensures fresh(farsideData) && fresh(cumulated)
    ensures var days := Enriched(env, Kept(env, raw));
      farsideData.Length == |days| &&
      forall i :: 0 <= i < |days| ==>
        farsideData[i] == Ranked(days, SortedIndices(DescendingKeys(days)), "Date", i)
    ensures tickers == TickersOf(env, Kept(env, raw)) && Distinct(tickers)
    ensures cumulated[..] == Cumulated(env, farsideData[..], tickers)
  {
    var days;
    days, tickers := Enrich(env, raw);
    TickersOfSpec(env, Kept(env, raw));
    farsideData := new Row[|days|](i requires 0 <= i < |days| => days[i]);
    assert farsideData[..] == days;
    RankDays(farsideData);
    cumulated := Cumulate(env, farsideData, tickers);
  }
}
