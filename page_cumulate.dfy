/**
 * The page's cumulated copy: a deep copy of the ranked days in which every ticker's
 * cell becomes the running sum, up to that day, of the ticker's flows (NaN counted as 0).
 */
module PageCumulate {
  import opened Wrappers
  import opened Rows
  import opened Externals
  import opened Seqs

  /** Ticker `t`'s cleaned flow on each day up to and including day `d`. */
  function Flows(env: Env, rows: seq<Row>, t: string, d: nat): (fs: seq<real>)
    requires d < |rows|
    ensures |fs| == d + 1 && forall k :: 0 <= k <= d ==> fs[k] == Clean(env, Get(rows[k], t))
  {
    seq(d + 1, k requires 0 <= k <= d => Clean(env, Get(rows[k], t)))
  }

  /** The value the loop leaves in day `d`'s cell of `t`: this flow plus the previous day's. */
  function RunningFlow(env: Env, rows: seq<Row>, t: string, d: nat): real
    requires d < |rows|
  {
    if d == 0 then Clean(env, Get(rows[0], t))
    else Clean(env, Get(rows[d], t)) + RunningFlow(env, rows, t, d - 1)
  }

  /** The running flow is the prefix sum of the cleaned flows. */
  lemma {:induction false} RunningFlowIsPrefixSum(env: Env, rows: seq<Row>, t: string, d: nat)
    requires d < |rows|
    ensures RunningFlow(env, rows, t, d) == Sum(Flows(env, rows, t, d))
  {
    var fs := Flows(env, rows, t, d);
    if d == 0 {
      assert fs[..0] == [];
    } else {
      RunningFlowIsPrefixSum(env, rows, t, d - 1);
      assert fs[..d] == Flows(env, rows, t, d - 1);
    }
  }

  /** Day `d` once the first `m` tickers have been cumulated. */
  function CumRow(env: Env, rows: seq<Row>, tickers: seq<string>, d: nat, m: nat): Row
    requires d < |rows| && m <= |tickers|
  {
    if m == 0 then rows[d]
    else Set(CumRow(env, rows, tickers, d, m - 1), tickers[m - 1], Num(RunningFlow(env, rows, tickers[m - 1], d)))
  }

  /** A column that is not among the first `m` tickers is carried over unchanged. */
  lemma {:induction false} CumRowOther(env: Env, rows: seq<Row>, tickers: seq<string>, d: nat, m: nat, k: string)
    requires d < |rows| && m <= |tickers| && k !in tickers[..m]
    ensures Get(CumRow(env, rows, tickers, d, m), k) == Get(rows[d], k)
  {
    if m > 0 {
      assert tickers[..m - 1] == tickers[..m][..m - 1];
      CumRowOther(env, rows, tickers, d, m - 1, k);
      GetSetOther(CumRow(env, rows, tickers, d, m - 1), tickers[m - 1], Num(RunningFlow(env, rows, tickers[m - 1], d)), k);
    }
  }

  /** Each of the first `m` tickers holds its running flow. */
  lemma {:induction false} CumRowTicker(env: Env, rows: seq<Row>, tickers: seq<string>, d: nat, m: nat, i: nat)
    requires d < |rows| && i < m <= |tickers| && Distinct(tickers)
    ensures Get(CumRow(env, rows, tickers, d, m), tickers[i]) == Some(Num(RunningFlow(env, rows, tickers[i], d)))
  {
    if i < m - 1 {
      CumRowTicker(env, rows, tickers, d, m - 1, i);
      GetSetOther(CumRow(env, rows, tickers, d, m - 1), tickers[m - 1], Num(RunningFlow(env, rows, tickers[m - 1], d)), tickers[i]);
    }
  }

  /** The cumulated copy, day by day. */
  function Cumulated(env: Env, rows: seq<Row>, tickers: seq<string>): (cum: seq<Row>)
    ensures |cum| == |rows|
  {
    seq(|rows|, d requires 0 <= d < |rows| => CumRow(env, rows, tickers, d, |tickers|))
  }

  /**
   * `cloneDeep(farsideData)` then, day by day, cumulate each ticker's cell. The input
   * array is only read.
   */
  method Cumulate(env: Env, data: array<Row>, tickers: seq<string>) returns (cum: array<Row>)
    requires Distinct(tickers)
    ensures fresh(cum) && cum[..] == Cumulated(env, data[..], tickers)
  {
    var rows := data[..];
    cum := new Row[data.Length](i requires 0 <= i < data.Length reads data => data[i]);
    var d := 0;
    while d < cum.Length
      invariant 0 <= d <= cum.Length == |rows|
      invariant forall k :: 0 <= k < d ==> cum[k] == CumRow(env, rows, tickers, k, |tickers|)
      invariant forall k :: d <= k < cum.Length ==> cum[k] == rows[k]
    {
      CumulateDay(env, cum, rows, tickers, d);
      d := d + 1;
    }
    assert cum[..] == Cumulated(env, rows, tickers);
  }

  /**
   * The inner loop over the tickers for day `d`: replace the cell by its cleaned number
   * and, after day 0, add the previous day's (already cumulated) cell.
   */
  method CumulateDay(env: Env, cum: array<Row>, rows: seq<Row>, tickers: seq<string>, d: nat)
    requires Distinct(tickers) && d < cum.Length == |rows| && cum[d] == rows[d]
    requires d > 0 ==> cum[d - 1] == CumRow(env, rows, tickers, d - 1, |tickers|)
    modifies cum
    ensures cum[d] == CumRow(env, rows, tickers, d, |tickers|)
    ensures forall k :: 0 <= k < cum.Length && k != d ==> cum[k] == old(cum[k])
  {
    var m := 0;
    while m < |tickers|
      invariant 0 <= m <= |tickers|
      invariant cum[d] == CumRow(env, rows, tickers, d, m)
      invariant forall k :: 0 <= k < cum.Length && k != d ==> cum[k] == old(cum[k])
    {
      CumulateCell(env, rows, tickers, d, m);
      CumulateTicker(env, cum, tickers[m], d);
      m := m + 1;
    }
  }

  /**
   * The inner loop's two writes to one cell: its cleaned number, then, unless on day 0,
   * that number plus the previous day's cell.
   */
  function CellUpdate(env: Env, row: Row, prev: Row, t: string, first: bool): Row
    requires !first ==> ToNumber(Get(prev, t), env.numberOf).Some?
  {
    var flow := ToNumber(Get(row, t), env.numberOf);
    var written := Set(row, t, Num(if flow.None? then 0.0 else flow.value));
    if first then written
    else Set(written, t, Num(ToNumber(Get(written, t), env.numberOf).value + ToNumber(Get(prev, t), env.numberOf).value))
  }

  /** One ticker of day `d`: update its cell in place, reading the previous day's after day 0. */
  method CumulateTicker(env: Env, cum: array<Row>, ticker: string, d: nat)
    requires d < cum.Length
    requires d > 0 ==> ToNumber(Get(cum[d - 1], ticker), env.numberOf).Some?
    modifies cum
    ensures cum[d] == CellUpdate(env, old(cum[d]), if d > 0 then old(cum[d - 1]) else [], ticker, d == 0)
    ensures forall k :: 0 <= k < cum.Length && k != d ==> cum[k] == old(cum[k])
  {
    var flow := ToNumber(Get(cum[d], ticker), env.numberOf);
    cum[d] := Set(cum[d], ticker, Num(if flow.None? then 0.0 else flow.value));
    if d > 0 {
      var current := ToNumber(Get(cum[d], ticker), env.numberOf);
      var previous := ToNumber(Get(cum[d - 1], ticker), env.numberOf);
      cum[d] := Set(cum[d], ticker, Num(current.value + previous.value));
    }
  }

  /** One cell update cumulates one more ticker of day `d`. */
  lemma CumulateCell(env: Env, rows: seq<Row>, tickers: seq<string>, d: nat, m: nat)
    requires d < |rows| && m < |tickers| && Distinct(tickers)
    ensures d > 0 ==> ToNumber(Get(CumRow(env, rows, tickers, d - 1, |tickers|), tickers[m]), env.numberOf).Some?
    ensures var prev := if d > 0 then CumRow(env, rows, tickers, d - 1, |tickers|) else [];
      CellUpdate(env, CumRow(env, rows, tickers, d, m), prev, tickers[m], d == 0) == CumRow(env, rows, tickers, d, m + 1)
  {
    var t := tickers[m];
    var before := CumRow(env, rows, tickers, d, m);
    var flow := ToNumber(Get(before, t), env.numberOf);
    var x := if flow.None? then 0.0 else flow.value;
    CumulateStep(env, rows, tickers, d, m);
    assert x == Clean(env, Get(rows[d], t));
    var written := Set(before, t, Num(x));
    assert CumRow(env, rows, tickers, d, m + 1) == Set(before, t, Num(RunningFlow(env, rows, t, d)));
    if d > 0 {
      var y := RunningFlow(env, rows, t, d - 1);
      assert ToNumber(Get(written, t), env.numberOf) == Some(x);
      assert ToNumber(Get(CumRow(env, rows, tickers, d - 1, |tickers|), t), env.numberOf) == Some(y);
      assert RunningFlow(env, rows, t, d) == x + y;
      SetSet(before, t, Num(x), Num(x + y));
    }
  }

  /** The facts one pass of the inner loop relies on. */
  lemma CumulateStep(env: Env, rows: seq<Row>, tickers: seq<string>, d: nat, m: nat)
    requires d < |rows| && m < |tickers| && Distinct(tickers)
    ensures Get(CumRow(env, rows, tickers, d, m), tickers[m]) == Get(rows[d], tickers[m])
    ensures d > 0 ==>
      Get(CumRow(env, rows, tickers, d - 1, |tickers|), tickers[m]) == Some(Num(RunningFlow(env, rows, tickers[m], d - 1)))
  {
    assert tickers[m] !in tickers[..m];
    CumRowOther(env, rows, tickers, d, m, tickers[m]);
    if d > 0 {
      CumRowTicker(env, rows, tickers, d - 1, |tickers|, m);
    }
  }

  /**
   * The cumulated copy has one day per input day; each ticker's cell is the prefix sum
   * of its cleaned flows; every other column is the input's.
   */
  lemma CumulatedSpec(env: Env, rows: seq<Row>, tickers: seq<string>, d: nat, k: string)
    requires Distinct(tickers) && d < |rows|
    ensures k in tickers ==> Get(Cumulated(env, rows, tickers)[d], k) == Some(Num(Sum(Flows(env, rows, k, d))))
    ensures k !in tickers ==> Get(Cumulated(env, rows, tickers)[d], k) == Get(rows[d], k)
  {
    if k in tickers {
      var i := IndexOf(tickers, k);
      CumRowTicker(env, rows, tickers, d, |tickers|, i);
      RunningFlowIsPrefixSum(env, rows, k, d);
    } else {
      assert tickers[..|tickers|] == tickers;
      CumRowOther(env, rows, tickers, d, |tickers|, k);
    }
  }

  /**
   * Day 0's ticker cell is its cleaned flow; each later day's is its cleaned flow plus
   * the previous day's cumulated cell.
   */
  lemma CumulatedStep(env: Env, rows: seq<Row>, tickers: seq<string>, d: nat, t: string)
    requires Distinct(tickers) && d < |rows| && t in tickers
    ensures d == 0 ==> Get(Cumulated(env, rows, tickers)[0], t) == Some(Num(Clean(env, Get(rows[0], t))))
    ensures d > 0 ==> var cum := Cumulated(env, rows, tickers);
      Get(cum[d - 1], t).Some? && Get(cum[d - 1], t).value.Num? &&
      Get(cum[d], t) == Some(Num(Clean(env, Get(rows[d], t)) + Get(cum[d - 1], t).value.n))
  {
    var i := IndexOf(tickers, t);
    CumRowTicker(env, rows, tickers, d, |tickers|, i);
    if d > 0 {
      CumRowTicker(env, rows, tickers, d - 1, |tickers|, i);
    }
  }
}
