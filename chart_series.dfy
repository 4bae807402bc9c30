/**
 * The series builder shared by the area chart and the percent chart: per day, one axis
 * label; per ticker, one series holding the day's flow and the flow's share of the day's
 * total; then only the series with a nonzero flow are kept, sorted by config index.  The
 * percent chart skips GBTC and rounds to two decimals; the area chart skips nothing.
 */
module ChartSeries {
  import opened Wrappers
  import opened Rows
  import opened Externals
  import opened Seqs
  import opened Sorting

  /** A flow as the series hold it: `Number(cell ?? 0)`, finite or NaN. */
  datatype Number = Finite(x: real) | NaN

  /**
   * A pushed share: a finite percentage, or an infinity (a nonzero flow over a zero total),
   * negative when the flow is.
   */
  datatype Percent = Share(p: real) | Infinite(negative: bool)

  datatype Serie = Serie(index: int, key: string, flows: seq<Number>, flowsPercent: seq<Percent>, showSerie: bool)

  /** `Number(day[ticker] ?? 0)`. */
  function CellFlow(env: Env, day: Row, t: string): Number {
    match Get(day, t)
    case None => Finite(0.0)
    case Some(v) =>
      match ToNumber(Some(v), env.numberOf)
      case None => NaN
      case Some(x) => Finite(x)
  }

  /** JavaScript `+` on numbers: NaN absorbs. */
  function Plus(a: Number, b: Number): Number {
    if a.NaN? || b.NaN? then NaN else Finite(a.x + b.x)
  }

  /** A number is truthy when it is neither 0 nor NaN. */
  predicate Truthy(n: Number) {
    n.Finite? && n.x != 0.0
  }

  /** The percent chart's `if (ticker === GBTC) continue`. */
  predicate Skipped(skipGbtc: bool, t: string) {
    skipGbtc && t == "GBTC"
  }

  /** The tickers that get a series, in ticker order. */
  function Kept(ts: seq<string>, skipGbtc: bool): (ks: seq<string>)
    ensures |ks| <= |ts|
  {
    if ts == [] then []
    else Kept(ts[..|ts| - 1], skipGbtc) + (if Skipped(skipGbtc, ts[|ts| - 1]) then [] else [ts[|ts| - 1]])
  }

  /** `totalFlowsForDay`: the day's flows over the kept tickers, added from 0. */
  function DayTotal(env: Env, day: Row, ks: seq<string>): Number {
    if ks == [] then Finite(0.0)
    else Plus(DayTotal(env, day, ks[..|ks| - 1]), CellFlow(env, day, ks[|ks| - 1]))
  }

  /** `day.TotalCheck === 0`. */
  predicate CheckZero(day: Row) {
    Get(day, "TotalCheck") == Some(Num(0.0))
  }

  /**
   * `flow / total * 100` after the guard: 0 when `TotalCheck` is 0 or the quotient is NaN
   * (a NaN operand, or 0 / 0); a nonzero flow over a zero total is an infinity of the
   * flow's sign (the total starts from 0, so it is never -0).
   */
  function Guarded(flow: Number, total: Number, checkZero: bool): Percent {
    if checkZero || flow.NaN? || total.NaN? then Share(0.0)
    else if total.x == 0.0 then (if flow.x == 0.0 then Share(0.0) else Infinite(flow.x < 0.0))
    else Share(flow.x / total.x * 100.0)
  }

  /** `roundNToXDecimals` on a finite share; an infinite one is taken to pass through with its sign. */
  function Rounded(round: real -> real, p: Percent): Percent {
    match p
    case Share(x) => Share(round(x))
    case Infinite(negative) => Infinite(negative)
  }

  // The series as stated per ticker.

  function FlowsOf(env: Env, days: seq<Row>, t: string): (fs: seq<Number>)
    ensures |fs| == |days| && forall d :: 0 <= d < |days| ==> fs[d] == CellFlow(env, days[d], t)
  {
    seq(|days|, d requires 0 <= d < |days| => CellFlow(env, days[d], t))
  }

  /** The share pushed for day `d`, from the day's total over the kept tickers `ks`. */
  function PercentOf(env: Env, day: Row, t: string, ks: seq<string>, round: real -> real): Percent {
    Rounded(round, Guarded(CellFlow(env, day, t), DayTotal(env, day, ks), CheckZero(day)))
  }

  function PercentsOf(env: Env, days: seq<Row>, t: string, ks: seq<string>, round: real -> real): (ps: seq<Percent>)
    ensures |ps| == |days| && forall d :: 0 <= d < |days| ==> ps[d] == PercentOf(env, days[d], t, ks, round)
  {
    seq(|days|, d requires 0 <= d < |days| => PercentOf(env, days[d], t, ks, round))
  }

  /** Some flow is truthy. */
  predicate Shown(fs: seq<Number>) {
    exists d :: 0 <= d < |fs| && Truthy(fs[d])
  }

  function SerieOf(env: Env, days: seq<Row>, t: string, ks: seq<string>, round: real -> real, indexOf: string -> int): Serie {
    Serie(indexOf(t), t, FlowsOf(env, days, t), PercentsOf(env, days, t, ks, round), Shown(FlowsOf(env, days, t)))
  }

  /** The series after the day loop: none without days, else one per kept ticker. */
  function Built(env: Env, days: seq<Row>, tickers: seq<string>, skipGbtc: bool, round: real -> real, indexOf: string -> int): (series: seq<Serie>)
    ensures days == [] ==> series == []
    ensures days != [] ==> |series| == |Kept(tickers, skipGbtc)|
  {
    var ks := Kept(tickers, skipGbtc);
    if days == [] then []
    else seq(|ks|, i requires 0 <= i < |ks| => SerieOf(env, days, ks[i], ks, round, indexOf))
  }

  /** `.filter((serie) => serie.flows.length && serie.showSerie)`. */
  function Visible(series: seq<Serie>): (v: seq<Serie>)
    ensures |v| <= |series|
  {
    if series == [] then []
    else
      var last := series[|series| - 1];
      Visible(series[..|series| - 1]) + (if |last.flows| > 0 && last.showSerie then [last] else [])
  }

  function SerieIndexKeys(series: seq<Serie>): (keys: seq<real>)
    ensures |keys| == |series| && forall i :: 0 <= i < |series| ==> keys[i] == series[i].index as real
  {
    seq(|series|, i requires 0 <= i < |series| => series[i].index as real)
  }

  /** `.sort((curr, next) => curr.index - next.index)`. */
  function ByIndex(series: seq<Serie>): (s: seq<Serie>)
    ensures |s| == |series|
  {
    SortedBy(series, SerieIndexKeys(series))
  }

  /** The chart's series. */
  function Chart(env: Env, days: seq<Row>, tickers: seq<string>, skipGbtc: bool, round: real -> real, indexOf: string -> int): seq<Serie> {
    ByIndex(Visible(Built(env, days, tickers, skipGbtc, round, indexOf)))
  }

  /** One axis label per day, in day order. */
  function Ticks(env: Env, days: seq<Row>): (ts: seq<string>)
    ensures |ts| == |days| && forall d :: 0 <= d < |days| ==> ts[d] == env.formatTick(Get(days[d], "Date"))
  {
    seq(|days|, d requires 0 <= d < |days| => env.formatTick(Get(days[d], "Date")))
  }

  // The loop's intermediate state.

  /** A series once day `d`'s flow has been pushed but not yet its share. */
  function Flowed(env: Env, days: seq<Row>, d: nat, t: string, ks: seq<string>, round: real -> real, indexOf: string -> int): Serie
    requires d < |days|
  {
    Serie(indexOf(t), t, FlowsOf(env, days[..d + 1], t), PercentsOf(env, days[..d], t, ks, round),
      Shown(FlowsOf(env, days[..d + 1], t)))
  }

  /** `series.findIndex((serie) => serie.key === key)`, -1 when absent. */
  function FindSerie(series: seq<Serie>, key: string): (i: int)
    ensures -1 <= i < |series|
    ensures 0 <= i ==> series[i].key == key && forall j :: 0 <= j < i ==> series[j].key != key
    ensures i < 0 ==> forall j :: 0 <= j < |series| ==> series[j].key != key
  {
    if series == [] then -1
    else if series[0].key == key then 0
    else
      var j := FindSerie(series[1..], key);
      if j < 0 then -1 else j + 1
  }

  lemma KeptStep(ts: seq<string>, skipGbtc: bool, m: nat)
    requires m < |ts|
    ensures Kept(ts[..m + 1], skipGbtc) == Kept(ts[..m], skipGbtc) + (if Skipped(skipGbtc, ts[m]) then [] else [ts[m]])
  {
    assert ts[..m + 1][..m] == ts[..m];
  }

  lemma {:induction false} KeptPrefix(ts: seq<string>, skipGbtc: bool, m: nat, m': nat)
    requires m <= m' <= |ts|
    ensures Kept(ts[..m], skipGbtc) <= Kept(ts[..m'], skipGbtc)
    decreases m' - m
  {
    if m < m' {
      KeptStep(ts, skipGbtc, m);
      KeptPrefix(ts, skipGbtc, m + 1, m');
    }
  }

  /** The kept tickers are the tickers that are not skipped. */
  lemma {:induction false} KeptMembers(ts: seq<string>, skipGbtc: bool)
    ensures forall t :: t in Kept(ts, skipGbtc) ==> t in ts && !Skipped(skipGbtc, t)
    ensures forall t :: t in ts && !Skipped(skipGbtc, t) ==> t in Kept(ts, skipGbtc)
  {
    if ts != [] {
      KeptMembers(ts[..|ts| - 1], skipGbtc);
      assert ts == ts[..|ts| - 1] + [ts[|ts| - 1]];
    }
  }

  lemma {:induction false} KeptDistinct(ts: seq<string>, skipGbtc: bool)
    requires Distinct(ts)
    ensures Distinct(Kept(ts, skipGbtc))
  {
    if ts != [] {
      var init := ts[..|ts| - 1];
      KeptDistinct(init, skipGbtc);
      KeptMembers(init, skipGbtc);
      assert ts[|ts| - 1] !in init;
    }
  }

  /** Pushing day `d`'s flow onto the series of the first `d` days. */
  lemma FlowStep(env: Env, days: seq<Row>, d: nat, t: string, ks: seq<string>, round: real -> real, indexOf: string -> int, cur: Serie)
    requires d < |days| && cur == SerieOf(env, days[..d], t, ks, round, indexOf)
    ensures var flow := CellFlow(env, days[d], t);
      cur.(flows := cur.flows + [flow], showSerie := if !cur.showSerie && Truthy(flow) then true else cur.showSerie)
      == Flowed(env, days, d, t, ks, round, indexOf)
  {
    var flow := CellFlow(env, days[d], t);
    var fs := FlowsOf(env, days[..d + 1], t);
    assert fs == cur.flows + [flow];
    if Truthy(flow) {
      assert Truthy(fs[d]);
    } else if Shown(fs) {
      var k :| 0 <= k < |fs| && Truthy(fs[k]);
      assert k < d && Truthy(cur.flows[k]);
    }
  }

  /** Pushing day `d`'s share completes the series of the first `d + 1` days. */
  lemma PercentStep(env: Env, days: seq<Row>, d: nat, t: string, ks: seq<string>, round: real -> real, indexOf: string -> int, cur: Serie)
    requires d < |days| && cur == Flowed(env, days, d, t, ks, round, indexOf)
    ensures d < |cur.flows| && cur.flows[d] == CellFlow(env, days[d], t)
    ensures cur.(flowsPercent := cur.flowsPercent +
        [Rounded(round, Guarded(cur.flows[d], DayTotal(env, days[d], ks), CheckZero(days[d])))])
      == SerieOf(env, days[..d + 1], t, ks, round, indexOf)
  {
    assert PercentsOf(env, days[..d + 1], t, ks, round) ==
      PercentsOf(env, days[..d], t, ks, round) + [PercentOf(env, days[d], t, ks, round)];
  }

  /** The day total after one more kept ticker. */
  lemma TotalStep(env: Env, day: Row, k: seq<string>, t: string)
    ensures DayTotal(env, day, k + [t]) == Plus(DayTotal(env, day, k), CellFlow(env, day, t))
  {
    assert (k + [t])[..|k|] == k;
  }

  lemma TicksStep(env: Env, days: seq<Row>, d: nat)
    requires d < |days|
    ensures Ticks(env, days[..d + 1]) == Ticks(env, days[..d]) + [env.formatTick(Get(days[d], "Date"))]
  {
    assert days[..d + 1][..d] == days[..d];
  }

  /**
   * The day loop: push each day's axis label, then for each ticker its flow (creating the
   * series on first sight) and its share; finally filter and sort the series.
   */
  method BuildSeries(env: Env, days: seq<Row>, tickers: seq<string>, skipGbtc: bool, round: real -> real, indexOf: string -> int)
    returns (timestamps: seq<string>, series: seq<Serie>)
    requires Distinct(tickers)
    ensures timestamps == Ticks(env, days)
    ensures series == Chart(env, days, tickers, skipGbtc, round, indexOf)
  {
    timestamps := [];
    series := [];
    var d := 0;
    while d < |days|
      invariant 0 <= d <= |days|
      invariant timestamps == Ticks(env, days[..d])
      invariant series == Built(env, days[..d], tickers, skipGbtc, round, indexOf)
    {
      TicksStep(env, days, d);
      timestamps := timestamps + [env.formatTick(Get(days[d], "Date"))];
      var total;
      FlowsStart(env, days, d, tickers, skipGbtc, round, indexOf, series);
      series, total := PushFlows(env, days, d, tickers, skipGbtc, round, indexOf, series);
      series := PushPercents(env, days, d, tickers, skipGbtc, round, indexOf, series, total);
      d := d + 1;
    }
    assert days[..d] == days;
    series := ByIndex(Visible(series));
  }

  /** What step 2 has built after the first `m` tickers of day `d`. */
  ghost predicate FlowsSoFar(env: Env, days: seq<Row>, d: nat, tickers: seq<string>, skipGbtc: bool,
                             round: real -> real, indexOf: string -> int, m: nat, series: seq<Serie>, total: Number)
    requires d < |days| && m <= |tickers|
  {
    var ks := Kept(tickers, skipGbtc);
    var k := Kept(tickers[..m], skipGbtc);
    k <= ks && total == DayTotal(env, days[d], k) &&
    |series| == (if d == 0 then |k| else |ks|) &&
    (forall i :: 0 <= i < |k| ==> series[i] == Flowed(env, days, d, ks[i], ks, round, indexOf)) &&
    (forall i :: |k| <= i < |series| ==> series[i] == SerieOf(env, days[..d], ks[i], ks, round, indexOf))
  }

  /**
   * Ticker `m` is kept and its series is at index `c`, the number of kept tickers before
   * it, still holding only the first `d` days.
   */
  ghost predicate InPlace(env: Env, days: seq<Row>, d: nat, tickers: seq<string>, skipGbtc: bool,
                          round: real -> real, indexOf: string -> int, m: nat, series: seq<Serie>, total: Number)
    requires d < |days| && m < |tickers|
  {
    var ks := Kept(tickers, skipGbtc);
    var k := Kept(tickers[..m], skipGbtc);
    var c := |k|;
    k + [tickers[m]] <= ks && total == DayTotal(env, days[d], k) &&
    |series| == (if d == 0 then c + 1 else |ks|) &&
    (forall i :: 0 <= i < c ==> series[i] == Flowed(env, days, d, ks[i], ks, round, indexOf)) &&
    (forall i :: c <= i < |series| ==> series[i] == SerieOf(env, days[..d], ks[i], ks, round, indexOf))
  }

  /** Ticker `m`'s series is in place and it is the one `findIndex` finds. */
  ghost predicate ReadyAt(env: Env, days: seq<Row>, d: nat, tickers: seq<string>, skipGbtc: bool,
                          round: real -> real, indexOf: string -> int, m: nat, series: seq<Serie>, total: Number)
    requires d < |days| && m < |tickers|
  {
    InPlace(env, days, d, tickers, skipGbtc, round, indexOf, m, series, total) &&
    FindSerie(series, tickers[m]) == |Kept(tickers[..m], skipGbtc)|
  }

  lemma FlowsStart(env: Env, days: seq<Row>, d: nat, tickers: seq<string>, skipGbtc: bool,
                   round: real -> real, indexOf: string -> int, series: seq<Serie>)
    requires d < |days| && series == Built(env, days[..d], tickers, skipGbtc, round, indexOf)
    ensures FlowsSoFar(env, days, d, tickers, skipGbtc, round, indexOf, 0, series, Finite(0.0))
  {
    assert tickers[..0] == [];
  }

  lemma FlowsEnd(env: Env, days: seq<Row>, d: nat, tickers: seq<string>, skipGbtc: bool,
                 round: real -> real, indexOf: string -> int, series: seq<Serie>, total: Number)
    requires d < |days| && FlowsSoFar(env, days, d, tickers, skipGbtc, round, indexOf, |tickers|, series, total)
    ensures var ks := Kept(tickers, skipGbtc);
      total == DayTotal(env, days[d], ks) && |series| == |ks| &&
      forall i :: 0 <= i < |ks| ==> series[i] == Flowed(env, days, d, ks[i], ks, round, indexOf)
  {
    assert tickers[..|tickers|] == tickers;
  }

  /** A skipped ticker changes nothing. */
  lemma FlowsSkip(env: Env, days: seq<Row>, d: nat, tickers: seq<string>, skipGbtc: bool,
                  round: real -> real, indexOf: string -> int, m: nat, series: seq<Serie>, total: Number)
    requires d < |days| && m < |tickers| && Skipped(skipGbtc, tickers[m])
    requires FlowsSoFar(env, days, d, tickers, skipGbtc, round, indexOf, m, series, total)
    ensures FlowsSoFar(env, days, d, tickers, skipGbtc, round, indexOf, m + 1, series, total)
  {
    KeptStep(tickers, skipGbtc, m);
    assert Kept(tickers[..m + 1], skipGbtc) == Kept(tickers[..m], skipGbtc);
  }

  /** A kept ticker comes next in the kept list, after kept tickers that all differ from it. */
  lemma KeptNext(tickers: seq<string>, skipGbtc: bool, m: nat)
    requires Distinct(tickers) && m < |tickers| && !Skipped(skipGbtc, tickers[m])
    ensures var ks := Kept(tickers, skipGbtc); var k := Kept(tickers[..m], skipGbtc);
      k + [tickers[m]] <= ks && ks[|k|] == tickers[m] && forall i :: 0 <= i < |k| ==> ks[i] != tickers[m]
  {
    var ks := Kept(tickers, skipGbtc);
    var k := Kept(tickers[..m], skipGbtc);
    KeptStep(tickers, skipGbtc, m);
    KeptPrefix(tickers, skipGbtc, m + 1, |tickers|);
    assert tickers[..|tickers|] == tickers;
    KeptDistinct(tickers, skipGbtc);
    forall i | 0 <= i < |k| ensures ks[i] != tickers[m] {
      assert ks[i] != ks[|k|];
    }
  }

  /** A kept ticker's series is found after day 0 and is created, last, on day 0. */
  lemma FlowsReady(env: Env, days: seq<Row>, d: nat, tickers: seq<string>, skipGbtc: bool,
                   round: real -> real, indexOf: string -> int, m: nat, series: seq<Serie>, total: Number)
    requires Distinct(tickers) && d < |days| && m < |tickers| && !Skipped(skipGbtc, tickers[m])
    requires FlowsSoFar(env, days, d, tickers, skipGbtc, round, indexOf, m, series, total)
    ensures d > 0 ==> ReadyAt(env, days, d, tickers, skipGbtc, round, indexOf, m, series, total)
    ensures d == 0 ==> (FindSerie(series, tickers[m]) < 0 &&
      ReadyAt(env, days, d, tickers, skipGbtc, round, indexOf, m,
        series + [Serie(indexOf(tickers[m]), tickers[m], [], [], false)], total))
  {
    KeptNext(tickers, skipGbtc, m);
    if d == 0 {
      FlowsCreate(env, days, tickers, skipGbtc, round, indexOf, m, series, total);
    } else {
      FlowsFound(env, days, d, tickers, skipGbtc, round, indexOf, m, series, total);
    }
  }

  /** After day 0 the series of a kept ticker is the one after those of the kept tickers before it. */
  lemma FlowsFound(env: Env, days: seq<Row>, d: nat, tickers: seq<string>, skipGbtc: bool,
                   round: real -> real, indexOf: string -> int, m: nat, series: seq<Serie>, total: Number)
    requires 0 < d < |days| && m < |tickers|
    requires FlowsSoFar(env, days, d, tickers, skipGbtc, round, indexOf, m, series, total)
    requires var ks := Kept(tickers, skipGbtc); var k := Kept(tickers[..m], skipGbtc);
      k + [tickers[m]] <= ks && ks[|k|] == tickers[m] && forall i :: 0 <= i < |k| ==> ks[i] != tickers[m]
    ensures ReadyAt(env, days, d, tickers, skipGbtc, round, indexOf, m, series, total)
  {
    var ks := Kept(tickers, skipGbtc);
    var k := Kept(tickers[..m], skipGbtc);
    forall i | 0 <= i <= |k| ensures series[i].key == ks[i] {
    }
    FindAt(series, tickers[m], |k|);
  }

  /** On day 0 a kept ticker has no series yet, and the one created goes last. */
  lemma FlowsCreate(env: Env, days: seq<Row>, tickers: seq<string>, skipGbtc: bool,
                    round: real -> real, indexOf: string -> int, m: nat, series: seq<Serie>, total: Number)
    requires 0 < |days| && m < |tickers|
    requires FlowsSoFar(env, days, 0, tickers, skipGbtc, round, indexOf, m, series, total)
    requires var ks := Kept(tickers, skipGbtc); var k := Kept(tickers[..m], skipGbtc);
      k + [tickers[m]] <= ks && ks[|k|] == tickers[m] && forall i :: 0 <= i < |k| ==> ks[i] != tickers[m]
    ensures FindSerie(series, tickers[m]) < 0
    ensures ReadyAt(env, days, 0, tickers, skipGbtc, round, indexOf, m,
      series + [Serie(indexOf(tickers[m]), tickers[m], [], [], false)], total)
  {
    var t := tickers[m];
    var ks := Kept(tickers, skipGbtc);
    var k := Kept(tickers[..m], skipGbtc);
    var series' := series + [Serie(indexOf(t), t, [], [], false)];
    assert days[..0] == [];
    assert series'[|k|] == SerieOf(env, days[..0], ks[|k|], ks, round, indexOf);
    forall i | 0 <= i < |k| ensures series'[i].key == ks[i] {
    }
    FindAt(series', t, |k|);
  }

  /** `findIndex` lands on the first series with the key. */
  lemma FindAt(series: seq<Serie>, key: string, c: nat)
    requires c < |series| && series[c].key == key && forall i :: 0 <= i < c ==> series[i].key != key
    ensures FindSerie(series, key) == c
  {
  }

  /** Pushing the flow onto the found series advances step 2 by one ticker. */
  lemma FlowsStore(env: Env, days: seq<Row>, d: nat, tickers: seq<string>, skipGbtc: bool,
                   round: real -> real, indexOf: string -> int, m: nat, series: seq<Serie>, total: Number, cur: Serie)
    requires d < |days| && m < |tickers| && !Skipped(skipGbtc, tickers[m])
    requires InPlace(env, days, d, tickers, skipGbtc, round, indexOf, m, series, total)
    requires cur == series[|Kept(tickers[..m], skipGbtc)|]
    ensures var flow := CellFlow(env, days[d], tickers[m]);
      FlowsSoFar(env, days, d, tickers, skipGbtc, round, indexOf, m + 1,
        series[|Kept(tickers[..m], skipGbtc)| := cur.(flows := cur.flows + [flow],
          showSerie := if !cur.showSerie && Truthy(flow) then true else cur.showSerie)],
        Plus(total, flow))
  {
    var ks := Kept(tickers, skipGbtc);
    var k := Kept(tickers[..m], skipGbtc);
    var c := |k|;
    var flow := CellFlow(env, days[d], tickers[m]);
    var next := cur.(flows := cur.flows + [flow], showSerie := if !cur.showSerie && Truthy(flow) then true else cur.showSerie);
    var series' := series[c := next];
    KeptStep(tickers, skipGbtc, m);
    assert ks[c] == tickers[m];
    FlowStep(env, days, d, tickers[m], ks, round, indexOf, cur);
    TotalStep(env, days[d], k, tickers[m]);
    StoreKeeps(env, days, d, ks, round, indexOf, series, c, next);
    assert FlowsSoFar(env, days, d, tickers, skipGbtc, round, indexOf, m + 1, series', Plus(total, flow));
  }

  /** Replacing series `c` by its next state keeps the other series as they were. */
  lemma StoreKeeps(env: Env, days: seq<Row>, d: nat, ks: seq<string>, round: real -> real, indexOf: string -> int,
                   series: seq<Serie>, c: nat, next: Serie)
    requires d < |days| && c < |series| <= |ks|
    requires forall i :: 0 <= i < c ==> series[i] == Flowed(env, days, d, ks[i], ks, round, indexOf)
    requires forall i :: c < i < |series| ==> series[i] == SerieOf(env, days[..d], ks[i], ks, round, indexOf)
    requires next == Flowed(env, days, d, ks[c], ks, round, indexOf)
    ensures forall i :: 0 <= i < c + 1 ==> series[c := next][i] == Flowed(env, days, d, ks[i], ks, round, indexOf)
    ensures forall i :: c + 1 <= i < |series| ==> series[c := next][i] == SerieOf(env, days[..d], ks[i], ks, round, indexOf)
  {
  }

  /** Step 2 for day `d`: push every kept ticker's flow and add it to the day total. */
  method PushFlows(env: Env, days: seq<Row>, d: nat, tickers: seq<string>, skipGbtc: bool, round: real -> real, indexOf: string -> int,
                   series0: seq<Serie>) returns (series: seq<Serie>, total: Number)
    requires Distinct(tickers) && d < |days|
    requires FlowsSoFar(env, days, d, tickers, skipGbtc, round, indexOf, 0, series0, Finite(0.0))
    ensures FlowsSoFar(env, days, d, tickers, skipGbtc, round, indexOf, |tickers|, series, total)
  {
    series, total := series0, Finite(0.0);
    var m := 0;
    while m < |tickers|
      invariant 0 <= m <= |tickers|
      invariant FlowsSoFar(env, days, d, tickers, skipGbtc, round, indexOf, m, series, total)
    {
      series, total := PushFlow(env, days, d, tickers, skipGbtc, round, indexOf, m, series, total);
      m := m + 1;
    }
  }

  /** One ticker of step 2: find or create its series, push the flow, add it to the total. */
  method PushFlow(env: Env, days: seq<Row>, d: nat, tickers: seq<string>, skipGbtc: bool, round: real -> real, indexOf: string -> int,
                  m: nat, series0: seq<Serie>, total0: Number) returns (series: seq<Serie>, total: Number)
    requires Distinct(tickers) && d < |days| && m < |tickers|
    requires FlowsSoFar(env, days, d, tickers, skipGbtc, round, indexOf, m, series0, total0)
    ensures FlowsSoFar(env, days, d, tickers, skipGbtc, round, indexOf, m + 1, series, total)
  {
    var ticker := tickers[m];
    series, total := series0, total0;
    if Skipped(skipGbtc, ticker) {
      FlowsSkip(env, days, d, tickers, skipGbtc, round, indexOf, m, series, total);
    } else {
      FlowsReady(env, days, d, tickers, skipGbtc, round, indexOf, m, series, total);
      var flow := CellFlow(env, days[d], ticker);
      var serieIndex := FindSerie(series, ticker);
      if serieIndex < 0 {
        series := series + [Serie(indexOf(ticker), ticker, [], [], false)];
        serieIndex := FindSerie(series, ticker);
      }
      var cur := series[serieIndex];
      FlowsStore(env, days, d, tickers, skipGbtc, round, indexOf, m, series, total, cur);
      series := series[serieIndex := cur.(flows := cur.flows + [flow],
        showSerie := if !cur.showSerie && Truthy(flow) then true else cur.showSerie)];
      total := Plus(total, flow);
    }
  }

  /** What step 3 has built after the first `m` tickers of day `d`. */
  ghost predicate PercentsSoFar(env: Env, days: seq<Row>, d: nat, tickers: seq<string>, skipGbtc: bool,
                                round: real -> real, indexOf: string -> int, m: nat, series: seq<Serie>)
    requires d < |days| && m <= |tickers|
  {
    var ks := Kept(tickers, skipGbtc);
    |series| == |ks| &&
    forall i :: 0 <= i < |ks| ==>
      (series[i] == if ks[i] in tickers[..m] then SerieOf(env, days[..d + 1], ks[i], ks, round, indexOf)
       else Flowed(env, days, d, ks[i], ks, round, indexOf))
  }

  lemma PercentsStart(env: Env, days: seq<Row>, d: nat, tickers: seq<string>, skipGbtc: bool,
                      round: real -> real, indexOf: string -> int, series: seq<Serie>)
    requires d < |days|
    requires var ks := Kept(tickers, skipGbtc);
      |series| == |ks| && forall i :: 0 <= i < |ks| ==> series[i] == Flowed(env, days, d, ks[i], ks, round, indexOf)
    ensures PercentsSoFar(env, days, d, tickers, skipGbtc, round, indexOf, 0, series)
  {
  }

  lemma PercentsEnd(env: Env, days: seq<Row>, d: nat, tickers: seq<string>, skipGbtc: bool,
                    round: real -> real, indexOf: string -> int, series: seq<Serie>)
    requires d < |days| && PercentsSoFar(env, days, d, tickers, skipGbtc, round, indexOf, |tickers|, series)
    ensures series == Built(env, days[..d + 1], tickers, skipGbtc, round, indexOf)
  {
    assert tickers[..|tickers|] == tickers;
    KeptMembers(tickers, skipGbtc);
  }

  /** The series of ticker `m` is found exactly when the ticker is kept, at its place. */
  lemma PercentsFind(env: Env, days: seq<Row>, d: nat, tickers: seq<string>, skipGbtc: bool,
                     round: real -> real, indexOf: string -> int, m: nat, series: seq<Serie>)
    requires Distinct(tickers) && d < |days| && m < |tickers|
    requires PercentsSoFar(env, days, d, tickers, skipGbtc, round, indexOf, m, series)
    ensures var ks := Kept(tickers, skipGbtc); var f := FindSerie(series, tickers[m]);
      (f < 0 <==> tickers[m] !in ks) && (0 <= f ==> ks[f] == tickers[m] && series[f] == Flowed(env, days, d, ks[f], ks, round, indexOf))
  {
    var ks := Kept(tickers, skipGbtc);
    var f := FindSerie(series, tickers[m]);
    assert tickers[m] !in tickers[..m];
    if tickers[m] in ks {
      var i := IndexOf(ks, tickers[m]);
      assert series[i].key == tickers[m];
    }
  }

  /** Pushing the share onto the found series advances step 3 by one ticker. */
  lemma PercentsStore(env: Env, days: seq<Row>, d: nat, tickers: seq<string>, skipGbtc: bool,
                      round: real -> real, indexOf: string -> int, m: nat, series: seq<Serie>, f: nat, cur: Serie)
    requires Distinct(tickers) && d < |days| && m < |tickers|
    requires PercentsSoFar(env, days, d, tickers, skipGbtc, round, indexOf, m, series)
    requires var ks := Kept(tickers, skipGbtc);
      f < |ks| && ks[f] == tickers[m] && cur == series[f] && cur == Flowed(env, days, d, ks[f], ks, round, indexOf)
    ensures d < |cur.flows|
    ensures var total := DayTotal(env, days[d], Kept(tickers, skipGbtc));
      PercentsSoFar(env, days, d, tickers, skipGbtc, round, indexOf, m + 1,
        series[f := cur.(flowsPercent := cur.flowsPercent + [Rounded(round, Guarded(cur.flows[d], total, CheckZero(days[d])))])])
  {
    var ks := Kept(tickers, skipGbtc);
    KeptDistinct(tickers, skipGbtc);
    PercentStep(env, days, d, tickers[m], ks, round, indexOf, cur);
    assert tickers[..m + 1] == tickers[..m] + [tickers[m]];
    assert tickers[m] !in tickers[..m];
    forall i | 0 <= i < |ks| && i != f ensures ks[i] != tickers[m] {
      assert ks[i] != ks[f];
    }
  }

  /** A ticker without a series changes nothing. */
  lemma PercentsSkip(env: Env, days: seq<Row>, d: nat, tickers: seq<string>, skipGbtc: bool,
                     round: real -> real, indexOf: string -> int, m: nat, series: seq<Serie>)
    requires d < |days| && m < |tickers| && tickers[m] !in Kept(tickers, skipGbtc)
    requires PercentsSoFar(env, days, d, tickers, skipGbtc, round, indexOf, m, series)
    ensures PercentsSoFar(env, days, d, tickers, skipGbtc, round, indexOf, m + 1, series)
  {
    assert tickers[..m + 1] == tickers[..m] + [tickers[m]];
  }

  /** Step 3 for day `d`: push every series' share of the day total. */
  method PushPercents(env: Env, days: seq<Row>, d: nat, tickers: seq<string>, skipGbtc: bool, round: real -> real, indexOf: string -> int,
                      series0: seq<Serie>, total: Number) returns (series: seq<Serie>)
    requires Distinct(tickers) && d < |days|
    requires FlowsSoFar(env, days, d, tickers, skipGbtc, round, indexOf, |tickers|, series0, total)
    ensures series == Built(env, days[..d + 1], tickers, skipGbtc, round, indexOf)
  {
    FlowsEnd(env, days, d, tickers, skipGbtc, round, indexOf, series0, total);
    PercentsStart(env, days, d, tickers, skipGbtc, round, indexOf, series0);
    series := series0;
    var m := 0;
    while m < |tickers|
      invariant 0 <= m <= |tickers|
      invariant PercentsSoFar(env, days, d, tickers, skipGbtc, round, indexOf, m, series)
    {
      series := PushPercent(env, days, d, tickers, skipGbtc, round, indexOf, m, series, total);
      m := m + 1;
    }
    PercentsEnd(env, days, d, tickers, skipGbtc, round, indexOf, series);
  }

  /** One ticker of step 3: find its series, guard the share and push it. */
  method PushPercent(env: Env, days: seq<Row>, d: nat, tickers: seq<string>, skipGbtc: bool, round: real -> real, indexOf: string -> int,
                     m: nat, series0: seq<Serie>, total: Number) returns (series: seq<Serie>)
    requires Distinct(tickers) && d < |days| && m < |tickers|
    requires total == DayTotal(env, days[d], Kept(tickers, skipGbtc))
    requires PercentsSoFar(env, days, d, tickers, skipGbtc, round, indexOf, m, series0)
    ensures PercentsSoFar(env, days, d, tickers, skipGbtc, round, indexOf, m + 1, series)
  {
    var ticker := tickers[m];
    series := series0;
    PercentsFind(env, days, d, tickers, skipGbtc, round, indexOf, m, series);
    var serieIndex := FindSerie(series, ticker);
    if serieIndex < 0 {
      PercentsSkip(env, days, d, tickers, skipGbtc, round, indexOf, m, series);
    } else {
      var cur := series[serieIndex];
      PercentsStore(env, days, d, tickers, skipGbtc, round, indexOf, m, series, serieIndex, cur);
      var percent := Guarded(cur.flows[d], total, CheckZero(days[d]));
      series := series[serieIndex := cur.(flowsPercent := cur.flowsPercent + [Rounded(round, percent)])];
    }
  }

  // What the built chart holds.

  function SerieKeys(series: seq<Serie>): (ks: seq<string>)
    ensures |ks| == |series| && forall i :: 0 <= i < |series| ==> ks[i] == series[i].key
  {
    seq(|series|, i requires 0 <= i < |series| => series[i].key)
  }

  /** The day's flows across the kept tickers. */
  function DayFlows(env: Env, day: Row, ks: seq<string>): (fs: seq<Number>)
    ensures |fs| == |ks| && forall i :: 0 <= i < |ks| ==> fs[i] == CellFlow(env, day, ks[i])
  {
    seq(|ks|, i requires 0 <= i < |ks| => CellFlow(env, day, ks[i]))
  }

  /** The day's shares across the kept tickers, before rounding. */
  function Shares(env: Env, day: Row, ks: seq<string>): (ps: seq<Percent>)
    ensures |ps| == |ks| && forall i :: 0 <= i < |ks| ==>
      ps[i] == Guarded(CellFlow(env, day, ks[i]), DayTotal(env, day, ks), CheckZero(day))
  {
    SharesOver(env, day, ks, DayTotal(env, day, ks), CheckZero(day))
  }

  /** The day's shares across `ks` of a given total. */
  function SharesOver(env: Env, day: Row, ks: seq<string>, total: Number, checkZero: bool): (ps: seq<Percent>)
    ensures |ps| == |ks| && forall i :: 0 <= i < |ks| ==> ps[i] == Guarded(CellFlow(env, day, ks[i]), total, checkZero)
  {
    seq(|ks|, i requires 0 <= i < |ks| => Guarded(CellFlow(env, day, ks[i]), total, checkZero))
  }

  /** The finite values of a list of flows, NaN read as 0. */
  function Values(fs: seq<Number>): (xs: seq<real>)
    ensures |xs| == |fs| && forall i :: 0 <= i < |fs| ==> xs[i] == (if fs[i].Finite? then fs[i].x else 0.0)
  {
    seq(|fs|, i requires 0 <= i < |fs| => if fs[i].Finite? then fs[i].x else 0.0)
  }

  function ShareValue(p: Percent): real {
    if p.Share? then p.p else 0.0
  }

  function ShareValues(ps: seq<Percent>): (xs: seq<real>)
    ensures |xs| == |ps| && forall i :: 0 <= i < |ps| ==> xs[i] == ShareValue(ps[i])
  {
    seq(|ps|, i requires 0 <= i < |ps| => ShareValue(ps[i]))
  }

  predicate AllFinite(fs: seq<Number>) {
    forall i :: 0 <= i < |fs| ==> fs[i].Finite?
  }

  /**
   * Each built series belongs to one kept ticker, in ticker order, has one flow and one
   * share per day, and is shown exactly when one of its flows is truthy.
   */
  lemma BuiltSeries(env: Env, days: seq<Row>, tickers: seq<string>, skipGbtc: bool, round: real -> real,
                    indexOf: string -> int, i: nat, d: nat)
    requires d < |days|
    ensures SerieKeys(Built(env, days, tickers, skipGbtc, round, indexOf)) == Kept(tickers, skipGbtc)
    ensures var b := Built(env, days, tickers, skipGbtc, round, indexOf); var ks := Kept(tickers, skipGbtc);
      i < |b| ==>
        (b[i].index == indexOf(ks[i]) && |b[i].flows| == |days| && |b[i].flowsPercent| == |days| &&
         b[i].flows[d] == DayFlows(env, days[d], ks)[i] &&
         b[i].flowsPercent[d] == Rounded(round, Shares(env, days[d], ks)[i]) &&
         (b[i].showSerie <==> exists e :: 0 <= e < |days| && Truthy(DayFlows(env, days[e], ks)[i])))
  {
    var b := Built(env, days, tickers, skipGbtc, round, indexOf);
    var ks := Kept(tickers, skipGbtc);
    if i < |b| {
      var fs := FlowsOf(env, days, ks[i]);
      if b[i].showSerie {
        var e :| 0 <= e < |fs| && Truthy(fs[e]);
        assert Truthy(DayFlows(env, days[e], ks)[i]);
      }
      if exists e :: 0 <= e < |days| && Truthy(DayFlows(env, days[e], ks)[i]) {
        var e :| 0 <= e < |days| && Truthy(DayFlows(env, days[e], ks)[i]);
        assert Truthy(fs[e]);
      }
    }
  }

  /**
   * `totalFlowsForDay` is a number exactly when every flow of the day is, and then it is
   * their sum.
   */
  lemma {:induction false} DayTotalSum(env: Env, day: Row, ks: seq<string>)
    ensures DayTotal(env, day, ks).Finite? <==> AllFinite(DayFlows(env, day, ks))
    ensures DayTotal(env, day, ks).Finite? ==> DayTotal(env, day, ks).x == Sum(Values(DayFlows(env, day, ks)))
  {
    if ks != [] {
      var init := ks[..|ks| - 1];
      var last := CellFlow(env, day, ks[|ks| - 1]);
      DayTotalSum(env, day, init);
      var fs := DayFlows(env, day, ks);
      assert fs == DayFlows(env, day, init) + [last];
      assert Values(fs)[..|ks| - 1] == Values(DayFlows(env, day, init));
      if AllFinite(DayFlows(env, day, init)) && last.Finite? {
        assert AllFinite(fs);
      }
      if AllFinite(fs) {
        assert AllFinite(DayFlows(env, day, init)) by {
          forall j | 0 <= j < |init| ensures DayFlows(env, day, init)[j].Finite? {
            assert fs[j].Finite?;
          }
        }
        assert fs[|ks| - 1].Finite?;
      }
    }
  }

  /** A share of a finite flow over a finite nonzero total. */
  lemma ShareOf(flow: Number, total: real)
    requires flow.Finite? && total != 0.0
    ensures ShareValue(Guarded(flow, Finite(total), false)) == flow.x / total * 100.0
  {
  }

  lemma Hundred(s: real, total: real)
    requires s == total && total != 0.0
    ensures s / total * 100.0 == 100.0
  {
  }

  lemma ScaledAdd(a: real, x: real, total: real)
    requires total != 0.0
    ensures a / total * 100.0 + x / total * 100.0 == (a + x) / total * 100.0
  {
  }

  /**
   * On a day whose total is a nonzero number and whose `TotalCheck` is not 0, every share
   * is finite and the shares before rounding add up to 100.
   */
  lemma SharesSum(env: Env, day: Row, ks: seq<string>)
    requires DayTotal(env, day, ks).Finite? && DayTotal(env, day, ks).x != 0.0 && !CheckZero(day)
    ensures forall i :: 0 <= i < |ks| ==> Shares(env, day, ks)[i].Share?
    ensures Sum(ShareValues(Shares(env, day, ks))) == 100.0
  {
    var total := DayTotal(env, day, ks).x;
    DayTotalSum(env, day, ks);
    assert Shares(env, day, ks) == SharesOver(env, day, ks, Finite(total), false);
    SharesOverSum(env, day, ks, total);
    Hundred(Sum(Values(DayFlows(env, day, ks))), total);
  }

  /** Over a fixed nonzero total, the shares of finite flows are finite and add up to their sum's share. */
  lemma {:induction false} SharesOverSum(env: Env, day: Row, ks: seq<string>, total: real)
    requires total != 0.0 && AllFinite(DayFlows(env, day, ks))
    ensures forall i :: 0 <= i < |ks| ==> SharesOver(env, day, ks, Finite(total), false)[i].Share?
    ensures Sum(ShareValues(SharesOver(env, day, ks, Finite(total), false)))
      == Sum(Values(DayFlows(env, day, ks))) / total * 100.0
  {
    var ps := SharesOver(env, day, ks, Finite(total), false);
    forall i | 0 <= i < |ks| ensures ps[i].Share? {
      assert DayFlows(env, day, ks)[i].Finite?;
    }
    if ks != [] {
      var n := |ks| - 1;
      var init := ks[..n];
      var fs := DayFlows(env, day, ks);
      assert AllFinite(DayFlows(env, day, init)) by {
        forall j | 0 <= j < n ensures DayFlows(env, day, init)[j].Finite? {
          assert fs[j].Finite?;
        }
      }
      SharesOverSum(env, day, init, total);
      var vs := ShareValues(ps);
      var xs := Values(fs);
      assert vs[..n] == ShareValues(SharesOver(env, day, init, Finite(total), false));
      assert xs[..n] == Values(DayFlows(env, day, init));
      assert fs[n].Finite?;
      ShareOf(fs[n], total);
      assert vs[n] == xs[n] / total * 100.0;
      ScaledAdd(Sum(xs[..n]), xs[n], total);
    }
  }

  /** The shown series: they have flows and some truthy flow. */
  lemma {:induction false} VisibleMembers(series: seq<Serie>)
    ensures forall x :: x in Visible(series) <==> x in series && |x.flows| > 0 && x.showSerie
  {
    if series != [] {
      var init := series[..|series| - 1];
      VisibleMembers(init);
      assert series == init + [series[|series| - 1]];
    }
  }

  /** A series' share of day `d` before rounding, read back from its flows. */
  function SerieShare(x: Serie, d: nat, total: Number, checkZero: bool): real {
    if d < |x.flows| then ShareValue(Guarded(x.flows[d], total, checkZero)) else 0.0
  }

  function DayShares(series: seq<Serie>, d: nat, total: Number, checkZero: bool): (xs: seq<real>)
    ensures |xs| == |series| && forall p :: 0 <= p < |series| ==> xs[p] == SerieShare(series[p], d, total, checkZero)
  {
    seq(|series|, p requires 0 <= p < |series| => SerieShare(series[p], d, total, checkZero))
  }

  /** Filtering out series whose shares are 0 keeps the sum of the shares. */
  lemma {:induction false} VisibleShares(series: seq<Serie>, d: nat, total: Number, checkZero: bool)
    requires forall p :: 0 <= p < |series| && !(|series[p].flows| > 0 && series[p].showSerie) ==>
      DayShares(series, d, total, checkZero)[p] == 0.0
    ensures Sum(DayShares(Visible(series), d, total, checkZero)) == Sum(DayShares(series, d, total, checkZero))
  {
    if series != [] {
      var n := |series| - 1;
      var init := series[..n];
      var last := series[n];
      var all := DayShares(series, d, total, checkZero);
      assert all[..n] == DayShares(init, d, total, checkZero);
      assert Sum(all) == Sum(DayShares(init, d, total, checkZero)) + all[n];
      VisibleShares(init, d, total, checkZero);
      var shown := DayShares(Visible(init), d, total, checkZero);
      if |last.flows| > 0 && last.showSerie {
        var v := DayShares(Visible(series), d, total, checkZero);
        assert v == shown + [all[n]];
        assert v[..|v| - 1] == shown;
      } else {
        assert Visible(series) == Visible(init);
      }
    }
  }

  /** Every built series has one flow per day, so none is dropped for having no flows. */
  lemma BuiltFlows(env: Env, days: seq<Row>, tickers: seq<string>, skipGbtc: bool, round: real -> real,
                   indexOf: string -> int, x: Serie)
    requires x in Built(env, days, tickers, skipGbtc, round, indexOf)
    ensures |x.flows| == |days| > 0
  {
    var b := Built(env, days, tickers, skipGbtc, round, indexOf);
    var i :| 0 <= i < |b| && b[i] == x;
  }

  /** The chart holds exactly the built series that are shown, each as often as they are shown. */
  lemma ChartMembers(env: Env, days: seq<Row>, tickers: seq<string>, skipGbtc: bool, round: real -> real,
                     indexOf: string -> int)
    ensures var b := Built(env, days, tickers, skipGbtc, round, indexOf);
      var c := Chart(env, days, tickers, skipGbtc, round, indexOf);
      multiset(c) == multiset(Visible(b)) && forall x :: x in c <==> x in b && x.showSerie
  {
    var b := Built(env, days, tickers, skipGbtc, round, indexOf);
    var v := Visible(b);
    var c := Chart(env, days, tickers, skipGbtc, round, indexOf);
    SortedBySpec(v, SerieIndexKeys(v));
    VisibleMembers(b);
    forall x ensures x in c <==> x in b && x.showSerie {
      assert x in c <==> x in multiset(c);
      assert x in v <==> x in multiset(v);
      if x in b {
        BuiltFlows(env, days, tickers, skipGbtc, round, indexOf, x);
      }
    }
  }

  /**
   * `.sort()` by config index: a permutation of the series in which indices do not
   * decrease; the series at sorted position `p` is input series `SortedIndices(keys)[p]`,
   * input series `i` sits at sorted position `Position(keys, i)`, and of two series with
   * equal index the one earlier in the input comes first.
   */
  lemma ByIndexOrder(v: seq<Serie>)
    ensures multiset(ByIndex(v)) == multiset(v)
    ensures forall p, q :: 0 <= p < q < |v| ==> ByIndex(v)[p].index <= ByIndex(v)[q].index
    ensures forall p :: 0 <= p < |v| ==> ByIndex(v)[p] == v[SortedIndices(SerieIndexKeys(v))[p]]
    ensures forall i :: 0 <= i < |v| ==> ByIndex(v)[Position(SerieIndexKeys(v), i)] == v[i]
    ensures forall p, q :: 0 <= p < q < |v| && ByIndex(v)[p].index == ByIndex(v)[q].index ==>
      SortedIndices(SerieIndexKeys(v))[p] < SortedIndices(SerieIndexKeys(v))[q]
  {
    var keys := SerieIndexKeys(v);
    var c := ByIndex(v);
    var order := SortedIndices(keys);
    SortedBySpec(v, keys);
    forall p | 0 <= p < |v| ensures keys[order[p]] == c[p].index as real {
      assert order[p] < |v|;
      assert c[p] == v[order[p]];
    }
    forall p, q | 0 <= p < q < |v| ensures c[p].index <= c[q].index {
      assert keys[order[p]] <= keys[order[q]];
    }
    forall p, q | 0 <= p < q < |v| && c[p].index == c[q].index ensures order[p] < order[q] {
      assert keys[order[p]] == keys[order[q]];
    }
  }

  /** Sorting does not change the sum of a day's shares. */
  lemma ByIndexShares(v: seq<Serie>, d: nat, total: Number, checkZero: bool)
    ensures Sum(DayShares(ByIndex(v), d, total, checkZero)) == Sum(DayShares(v, d, total, checkZero))
  {
    var keys := SerieIndexKeys(v);
    var xs := DayShares(v, d, total, checkZero);
    assert DayShares(ByIndex(v), d, total, checkZero) == SortedBy(xs, keys);
    SortedBySpec(xs, keys);
    SumPermutation(DayShares(ByIndex(v), d, total, checkZero), xs);
  }

  /** A series with no truthy flow has a zero share of a nonzero total. */
  lemma HiddenShare(flow: Number, total: Number)
    requires !Truthy(flow) && total.Finite? && total.x != 0.0
    ensures ShareValue(Guarded(flow, total, false)) == 0.0
  {
  }

  /** Read back from the built series, day `d`'s shares are the day's shares; hidden series have none. */
  lemma BuiltShares(env: Env, days: seq<Row>, tickers: seq<string>, skipGbtc: bool, round: real -> real,
                    indexOf: string -> int, d: nat)
    requires d < |days|
    requires var total := DayTotal(env, days[d], Kept(tickers, skipGbtc));
      total.Finite? && total.x != 0.0 && !CheckZero(days[d])
    ensures var b := Built(env, days, tickers, skipGbtc, round, indexOf); var ks := Kept(tickers, skipGbtc);
      var total := DayTotal(env, days[d], ks);
      DayShares(b, d, total, false) == ShareValues(Shares(env, days[d], ks)) &&
      forall p :: 0 <= p < |b| && !(|b[p].flows| > 0 && b[p].showSerie) ==> DayShares(b, d, total, false)[p] == 0.0
  {
    var b := Built(env, days, tickers, skipGbtc, round, indexOf);
    var ks := Kept(tickers, skipGbtc);
    var total := DayTotal(env, days[d], ks);
    forall i | 0 <= i < |b|
      ensures DayShares(b, d, total, false)[i] == ShareValues(Shares(env, days[d], ks))[i]
      ensures !(|b[i].flows| > 0 && b[i].showSerie) ==> DayShares(b, d, total, false)[i] == 0.0
    {
      BuiltShareAt(env, days, tickers, skipGbtc, round, indexOf, i, d);
    }
  }

  lemma BuiltShareAt(env: Env, days: seq<Row>, tickers: seq<string>, skipGbtc: bool, round: real -> real,
                     indexOf: string -> int, i: nat, d: nat)
    requires d < |days| && i < |Kept(tickers, skipGbtc)|
    requires var total := DayTotal(env, days[d], Kept(tickers, skipGbtc));
      total.Finite? && total.x != 0.0 && !CheckZero(days[d])
    ensures var b := Built(env, days, tickers, skipGbtc, round, indexOf); var ks := Kept(tickers, skipGbtc);
      var total := DayTotal(env, days[d], ks);
      SerieShare(b[i], d, total, false) == ShareValue(Shares(env, days[d], ks)[i]) &&
      (!b[i].showSerie ==> SerieShare(b[i], d, total, false) == 0.0)
  {
    var b := Built(env, days, tickers, skipGbtc, round, indexOf);
    var ks := Kept(tickers, skipGbtc);
    BuiltSeries(env, days, tickers, skipGbtc, round, indexOf, i, d);
    if !b[i].showSerie {
      assert !Truthy(DayFlows(env, days[d], ks)[i]);
      HiddenShare(b[i].flows[d], DayTotal(env, days[d], ks));
    }
  }

  /**
   * On a day whose total is a nonzero number and whose `TotalCheck` is not 0, the shares of
   * the chart's series before rounding add up to 100: the hidden series have none.
   */
  lemma ChartSharesSum(env: Env, days: seq<Row>, tickers: seq<string>, skipGbtc: bool, round: real -> real,
                       indexOf: string -> int, d: nat)
    requires d < |days|
    requires var total := DayTotal(env, days[d], Kept(tickers, skipGbtc));
      total.Finite? && total.x != 0.0 && !CheckZero(days[d])
    ensures var total := DayTotal(env, days[d], Kept(tickers, skipGbtc));
      Sum(DayShares(Chart(env, days, tickers, skipGbtc, round, indexOf), d, total, false)) == 100.0
  {
    var ks := Kept(tickers, skipGbtc);
    var total := DayTotal(env, days[d], ks);
    var b := Built(env, days, tickers, skipGbtc, round, indexOf);
    SharesSum(env, days[d], ks);
    BuiltShares(env, days, tickers, skipGbtc, round, indexOf, d);
    VisibleShares(b, d, total, false);
    ByIndexShares(Visible(b), d, total, false);
  }

  /** Without skipping, every ticker is kept. */
  lemma {:induction false} KeptAll(ts: seq<string>)
    ensures Kept(ts, false) == ts
  {
    if ts != [] {
      KeptAll(ts[..|ts| - 1]);
    }
  }

  /**
   * For distinct tickers the series keys are distinct: one series per ticker that is not
   * skipped, none for a skipped one.
   */
  lemma BuiltKeys(env: Env, days: seq<Row>, tickers: seq<string>, skipGbtc: bool, round: real -> real,
                  indexOf: string -> int)
    requires Distinct(tickers) && days != []
    ensures Distinct(SerieKeys(Built(env, days, tickers, skipGbtc, round, indexOf)))
    ensures forall t :: t in SerieKeys(Built(env, days, tickers, skipGbtc, round, indexOf)) <==>
      t in tickers && !Skipped(skipGbtc, t)
  {
    BuiltSeries(env, days, tickers, skipGbtc, round, indexOf, 0, 0);
    KeptDistinct(tickers, skipGbtc);
    KeptMembers(tickers, skipGbtc);
  }

  /**
   * A series of the chart is the series of a kept ticker: shown, one flow and one share per
   * day, `Number(day[ticker] ?? 0)` and its guarded share of the day's total.
   */
  lemma ChartSerie(env: Env, days: seq<Row>, tickers: seq<string>, skipGbtc: bool, round: real -> real,
                   indexOf: string -> int, x: Serie)
    requires x in Chart(env, days, tickers, skipGbtc, round, indexOf)
    ensures x.key in tickers && !Skipped(skipGbtc, x.key) && x.index == indexOf(x.key) && x.showSerie
    ensures |x.flows| == |days| > 0 && |x.flowsPercent| == |days|
    ensures forall d :: 0 <= d < |days| ==>
      (x.flows[d] == CellFlow(env, days[d], x.key) &&
       x.flowsPercent[d] == Rounded(round, Guarded(x.flows[d], DayTotal(env, days[d], Kept(tickers, skipGbtc)), CheckZero(days[d]))))
  {
    var b := Built(env, days, tickers, skipGbtc, round, indexOf);
    var ks := Kept(tickers, skipGbtc);
    ChartMembers(env, days, tickers, skipGbtc, round, indexOf);
    var i :| 0 <= i < |b| && b[i] == x;
    KeptMembers(tickers, skipGbtc);
    assert ks[i] in ks;
  }
}

