/**
 * The charts' input: a copy of the stored flows sorted by close-of-business time, in which
 * each ticker's cell is replaced by its running sum (NaN counted as 0).
 */
module ChartsWrapper {
  import opened Wrappers
  import opened Rows
  import opened Externals
  import opened Seqs
  import opened Sorting
  import opened PageCumulate

  /** The sort keys of `(curr, next) => time(curr) - time(next)`: ascending time. */
  function TimeKeys(env: Env, rows: seq<Row>): (keys: seq<real>)
    ensures |keys| == |rows|
    ensures forall i :: 0 <= i < |rows| ==> keys[i] == env.timeOf(Get(rows[i], "close_of_bussiness_hour")) as real
  {
    seq(|rows|, i requires 0 <= i < |rows| => env.timeOf(Get(rows[i], "close_of_bussiness_hour")) as real)
  }

  /** `[...flows].sort(...)` by close-of-business time. */
  function ByTime(env: Env, rows: seq<Row>): (s: seq<Row>)
    ensures |s| == |rows|
  {
    SortedBy(rows, TimeKeys(env, rows))
  }

  /**
   * The sorted copy holds the same rows, earliest first; rows with the same time keep
   * their input order.
   */
  lemma ByTimeSpec(env: Env, rows: seq<Row>)
    ensures multiset(ByTime(env, rows)) == multiset(rows)
    ensures forall p, q :: 0 <= p < q < |rows| ==>
      env.timeOf(Get(ByTime(env, rows)[p], "close_of_bussiness_hour")) <=
      env.timeOf(Get(ByTime(env, rows)[q], "close_of_bussiness_hour"))
    ensures forall p, q :: (0 <= p < q < |rows| &&
      env.timeOf(Get(ByTime(env, rows)[p], "close_of_bussiness_hour")) ==
      env.timeOf(Get(ByTime(env, rows)[q], "close_of_bussiness_hour"))) ==>
      SortedIndices(TimeKeys(env, rows))[p] < SortedIndices(TimeKeys(env, rows))[q]
  {
    SortedBySpec(rows, TimeKeys(env, rows));
  }

  /**
   * Sort a copy of the flows by time, then day by day replace each ticker's cell by its
   * cleaned number plus, after the first day, the previous day's cell (`|| 0`).  The input
   * array and its rows are left alone.
   */
  method CumulateFlows(env: Env, flows: array<Row>, tickers: seq<string>) returns (sorted: array<Row>)
    requires Distinct(tickers)
    ensures fresh(sorted) && sorted[..] == Cumulated(env, ByTime(env, flows[..]), tickers)
  {
    var rows := ByTime(env, flows[..]);
    sorted := new Row[|rows|](i requires 0 <= i < |rows| => rows[i]);
    var d := 0;
    while d < sorted.Length
      invariant 0 <= d <= sorted.Length == |rows|
      invariant forall k :: 0 <= k < d ==> sorted[k] == CumRow(env, rows, tickers, k, |tickers|)
      invariant forall k :: d <= k < sorted.Length ==> sorted[k] == rows[k]
    {
      CumulateSortedDay(env, sorted, rows, tickers, d);
      d := d + 1;
    }
    assert sorted[..] == Cumulated(env, rows, tickers);
  }

  /** The inner loop over the tickers for day `d`. */
  method CumulateSortedDay(env: Env, sorted: array<Row>, rows: seq<Row>, tickers: seq<string>, d: nat)
    requires Distinct(tickers) && d < sorted.Length == |rows| && sorted[d] == rows[d]
    requires d > 0 ==> sorted[d - 1] == CumRow(env, rows, tickers, d - 1, |tickers|)
    modifies sorted
    ensures sorted[d] == CumRow(env, rows, tickers, d, |tickers|)
    ensures forall k :: 0 <= k < sorted.Length && k != d ==> sorted[k] == old(sorted[k])
  {
    var m := 0;
    while m < |tickers|
      invariant 0 <= m <= |tickers|
      invariant sorted[d] == CumRow(env, rows, tickers, d, m)
      invariant forall k :: 0 <= k < sorted.Length && k != d ==> sorted[k] == old(sorted[k])
    {
      SortedCellStep(env, rows, tickers, d, m);
      CumulateSortedTicker(env, sorted, tickers[m], d);
      m := m + 1;
    }
  }

  /** Day `d`'s cell of `t` after one pass: its number (NaN as 0) plus the previous day's `|| 0`. */
  function SortedCell(env: Env, cur: Row, prev: Row, t: string, first: bool): Row {
    var flow := ToNumber(Get(cur, t), env.numberOf);
    var updatedFlow := if flow.None? then 0.0 else flow.value;
    if first then Set(cur, t, Num(updatedFlow))
    else
      var previous := ToNumber(Get(prev, t), env.numberOf);
      Set(cur, t, Num(updatedFlow + if previous.None? || previous.value == 0.0 then 0.0 else previous.value))
  }

  /** One pass of the inner loop, on the cells of day `d` and the day before. */
  method CumulateSortedTicker(env: Env, sorted: array<Row>, ticker: string, d: nat)
    requires d < sorted.Length
    modifies sorted
    ensures sorted[d] == SortedCell(env, old(sorted[d]), if d > 0 then old(sorted[d - 1]) else [], ticker, d == 0)
    ensures forall k :: 0 <= k < sorted.Length && k != d ==> sorted[k] == old(sorted[k])
  {
    var flow := ToNumber(Get(sorted[d], ticker), env.numberOf);
    var updatedFlow := if flow.None? then 0.0 else flow.value;
    if d == 0 {
      sorted[d] := Set(sorted[d], ticker, Num(updatedFlow));
    } else {
      var previous := ToNumber(Get(sorted[d - 1], ticker), env.numberOf);
      var prevFlow := if previous.None? || previous.value == 0.0 then 0.0 else previous.value;
      sorted[d] := Set(sorted[d], ticker, Num(updatedFlow + prevFlow));
    }
  }

  /** One pass cumulates one more ticker of day `d`. */
  lemma SortedCellStep(env: Env, rows: seq<Row>, tickers: seq<string>, d: nat, m: nat)
    requires d < |rows| && m < |tickers| && Distinct(tickers)
    ensures var prev := if d > 0 then CumRow(env, rows, tickers, d - 1, |tickers|) else [];
      SortedCell(env, CumRow(env, rows, tickers, d, m), prev, tickers[m], d == 0) == CumRow(env, rows, tickers, d, m + 1)
  {
    var t := tickers[m];
    var before := CumRow(env, rows, tickers, d, m);
    CumulateStep(env, rows, tickers, d, m);
    var flow := ToNumber(Get(before, t), env.numberOf);
    assert (if flow.None? then 0.0 else flow.value) == Clean(env, Get(rows[d], t));
    assert CumRow(env, rows, tickers, d, m + 1) == Set(before, t, Num(RunningFlow(env, rows, t, d)));
    if d > 0 {
      var prev := CumRow(env, rows, tickers, d - 1, |tickers|);
      assert ToNumber(Get(prev, t), env.numberOf) == Some(RunningFlow(env, rows, t, d - 1));
    }
  }
}
