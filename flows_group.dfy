/**
 * The table's grouping of stored days into years, months and weeks (by the day's dayjs
 * year, month and week of year), with period totals and, per year, each ticker's flow
 * total.  `Grouped` states the grouping declaratively; `GroupDays` is the source's loop of
 * `findIndex`, `unshift` and `+=`, proved to compute it.
 */
module FlowsGroup {
  import opened Wrappers
  import opened Rows
  import opened Externals
  import opened Seqs
  import opened Buckets

  datatype Week = Week(index: int, totalPeriod: real, days: seq<Row>)
  datatype Month = Month(year: int, index: int, totalPeriod: real, rank: int, weeks: seq<Week>)
  datatype Year = Year(rank: int, index: int, totalPeriod: real, totalPerEtfs: map<string, real>, months: seq<Month>)

  /** `dayjs(day.day).year()`, `.month()` and `.week()`. */
  function YearKey(env: Env): Row -> int { r => env.yearOf(Get(r, "day")) }
  function MonthKey(env: Env): Row -> int { r => env.monthOf(Get(r, "day")) }
  function WeekKey(env: Env): Row -> int { r => env.weekOf(Get(r, "day")) }

  /** `Number(day.total)`, for a day whose total is a number. */
  function DayTotal(env: Env): Row -> real { r => Clean(env, Get(r, "total")) }

  /** `Number(day[ticker])`, NaN skipped. */
  function FlowOf(env: Env, t: string): Row -> real { r => Clean(env, Get(r, t)) }

  predicate NumericTotal(env: Env, day: Row) {
    ToNumber(Get(day, "total"), env.numberOf).Some?
  }

  function WeekIndices(ws: seq<Week>): (ks: seq<int>)
    ensures |ks| == |ws| && forall i :: 0 <= i < |ws| ==> ks[i] == ws[i].index
  {
    seq(|ws|, i requires 0 <= i < |ws| => ws[i].index)
  }

  function MonthIndices(ms: seq<Month>): (ks: seq<int>)
    ensures |ks| == |ms| && forall i :: 0 <= i < |ms| ==> ks[i] == ms[i].index
  {
    seq(|ms|, i requires 0 <= i < |ms| => ms[i].index)
  }

  function YearIndices(ys: seq<Year>): (ks: seq<int>)
    ensures |ks| == |ys| && forall i :: 0 <= i < |ys| ==> ks[i] == ys[i].index
  {
    seq(|ys|, i requires 0 <= i < |ys| => ys[i].index)
  }

  // The grouping the loop builds, stated bucket by bucket.

  /** Week `w` of the days `rs`: their total, and the days newest first. */
  function WeekOf(env: Env, w: int, rs: seq<Row>): Week {
    Week(w, SumF(rs, DayTotal(env)), Reverse(rs))
  }

  function Weeks(env: Env, rows: seq<Row>): seq<Week> {
    Bucketed(rows, WeekKey(env), (w, rs) => WeekOf(env, w, rs))
  }

  function MonthOf(env: Env, y: int, m: int, rs: seq<Row>): Month {
    Month(y, m, SumF(rs, DayTotal(env)), 0, Weeks(env, rs))
  }

  function Months(env: Env, y: int, rows: seq<Row>): seq<Month> {
    Bucketed(rows, MonthKey(env), (m, rs) => MonthOf(env, y, m, rs))
  }

  /** Each ticker's total flow over the days `rs`, NaN flows skipped. */
  function PerEtfs(env: Env, tickers: seq<string>, rs: seq<Row>): map<string, real> {
    map t | t in tickers :: SumF(rs, FlowOf(env, t))
  }

  function YearOf(env: Env, tickers: seq<string>, y: int, rs: seq<Row>): Year {
    Year(0, y, SumF(rs, DayTotal(env)), PerEtfs(env, tickers, rs), Months(env, y, rs))
  }

  /**
   * Years in reverse order of first appearance, each holding its months in reverse order
   * of first appearance, each holding its weeks likewise, each holding its days newest
   * first; every bucket's `totalPeriod` is the sum of its days' totals.
   */
  function Grouped(env: Env, tickers: seq<string>, rows: seq<Row>): seq<Year> {
    Bucketed(rows, YearKey(env), (y, rs) => YearOf(env, tickers, y, rs))
  }

  // The source's loop.

  /** `farsideDataGroupedBy` after the loop over `data`. */
  method GroupDays(env: Env, data: seq<Row>, tickers: seq<string>) returns (groups: seq<Year>)
    requires Distinct(tickers)
    requires forall d :: 0 <= d < |data| ==> NumericTotal(env, data[d])
    ensures groups == Grouped(env, tickers, data)
  {
    groups := [];
    var dayIndex := 0;
    while dayIndex < |data|
      invariant dayIndex <= |data|
      invariant groups == Grouped(env, tickers, data[..dayIndex])
    {
      groups := StoreDay(env, tickers, data[..dayIndex], groups, data[dayIndex]);
      assert data[..dayIndex + 1] == data[..dayIndex] + [data[dayIndex]];
      dayIndex := dayIndex + 1;
    }
    assert data[..|data|] == data;
  }

  /**
   * One turn of the loop: find or unshift the day's year, store the day in its month and
   * week, add its total to the year and its flows to the year's per-ticker totals.
   */
  method StoreDay(env: Env, tickers: seq<string>, rows: seq<Row>, groups: seq<Year>, day: Row)
    returns (groups': seq<Year>)
    requires Distinct(tickers) && NumericTotal(env, day)
    requires groups == Grouped(env, tickers, rows)
    ensures groups' == Grouped(env, tickers, rows + [day])
  {
    var total := ToNumber(Get(day, "total"), env.numberOf).value;
    var ys := groups;
    var dayYear := env.yearOf(Get(day, "day"));
    var yearIndex := IndexWhere(YearIndices(ys), dayYear);
    if yearIndex < 0 {
      ys := [Year(0, dayYear, 0.0, map[], [])] + ys;
      yearIndex := IndexWhere(YearIndices(ys), dayYear);
    }
    YearFound(env, tickers, rows, day, ys, yearIndex);
    var year := ys[yearIndex];
    var yearRows := Filter(rows, YearKey(env), dayYear);
    var months := StoreInMonths(env, dayYear, yearRows, year.months, day);
    var perEtfs := AddFlows(env, year.totalPerEtfs, tickers, day);
    YearsStore(env, tickers, rows, day, ys, yearIndex, total, year, months, perEtfs);
    groups' := ys[yearIndex := year.(months := months, totalPeriod := year.totalPeriod + total, totalPerEtfs := perEtfs)];
  }

  /** Find or unshift the day's month in its year, store the day in its week, add its total. */
  method StoreInMonths(env: Env, dayYear: int, rows: seq<Row>, months: seq<Month>, day: Row)
    returns (months': seq<Month>)
    requires NumericTotal(env, day) && months == Months(env, dayYear, rows)
    ensures months' == Months(env, dayYear, rows + [day])
  {
    var total := ToNumber(Get(day, "total"), env.numberOf).value;
    var ms := months;
    var dayMonth := env.monthOf(Get(day, "day"));
    var monthIndex := IndexWhere(MonthIndices(ms), dayMonth);
    if monthIndex < 0 {
      ms := [Month(dayYear, dayMonth, 0.0, 0, [])] + ms;
      monthIndex := IndexWhere(MonthIndices(ms), dayMonth);
    }
    MonthFound(env, dayYear, rows, day, ms, monthIndex);
    var month := ms[monthIndex];
    var weeks := StoreInWeeks(env, Filter(rows, MonthKey(env), dayMonth), month.weeks, day);
    MonthsStore(env, dayYear, rows, day, ms, monthIndex, total, month, weeks);
    months' := ms[monthIndex := month.(weeks := weeks, totalPeriod := month.totalPeriod + total)];
  }

  /** Find or unshift the day's week in its month, unshift the day, add its total. */
  method StoreInWeeks(env: Env, rows: seq<Row>, weeks: seq<Week>, day: Row) returns (weeks': seq<Week>)
    requires NumericTotal(env, day) && weeks == Weeks(env, rows)
    ensures weeks' == Weeks(env, rows + [day])
  {
    var total := ToNumber(Get(day, "total"), env.numberOf).value;
    var ws := weeks;
    var dayWeek := env.weekOf(Get(day, "day"));
    var weekIndex := IndexWhere(WeekIndices(ws), dayWeek);
    if weekIndex < 0 {
      ws := [Week(dayWeek, 0.0, [])] + ws;
      weekIndex := IndexWhere(WeekIndices(ws), dayWeek);
    }
    WeekFound(env, rows, day, ws, weekIndex);
    var week := ws[weekIndex];
    WeeksStore(env, rows, day, ws, weekIndex, total, week);
    weeks' := ws[weekIndex := week.(days := [day] + week.days, totalPeriod := week.totalPeriod + total)];
  }

  /**
   * The per-ticker loop: a missing or zero total starts at 0, then a ticker's flow is
   * added unless it is NaN.
   */
  method AddFlows(env: Env, m0: map<string, real>, tickers: seq<string>, day: Row) returns (m: map<string, real>)
    requires Distinct(tickers)
    ensures forall t :: t in m <==> t in m0 || t in tickers
    ensures forall t :: t in tickers ==> m[t] == (if t in m0 then m0[t] else 0.0) + Clean(env, Get(day, t))
    ensures forall t :: t in m0 && t !in tickers ==> m[t] == m0[t]
  {
    m := m0;
    var tickerIndex := 0;
    while tickerIndex < |tickers|
      invariant tickerIndex <= |tickers|
      invariant forall t :: t in m <==> t in m0 || t in tickers[..tickerIndex]
      invariant forall t :: t in tickers[..tickerIndex] ==> m[t] == (if t in m0 then m0[t] else 0.0) + Clean(env, Get(day, t))
      invariant forall t :: t in m0 && t !in tickers[..tickerIndex] ==> m[t] == m0[t]
    {
      var t := tickers[tickerIndex];
      assert t !in tickers[..tickerIndex];
      if t !in m || m[t] == 0.0 {
        m := m[t := 0.0];
      }
      var flow := ToNumber(Get(day, t), env.numberOf);
      if flow.Some? {
        m := m[t := m[t] + flow.value];
      }
      assert tickers[..tickerIndex + 1] == tickers[..tickerIndex] + [t];
      tickerIndex := tickerIndex + 1;
    }
    assert tickers[..|tickers|] == tickers;
  }

  // One more day, bucket by bucket.

  /** After find-or-unshift the day's week is at `j` and holds the earlier days of that week. */
  lemma WeekFound(env: Env, rows: seq<Row>, r: Row, ws1: seq<Week>, j: int)
    requires ws1 == if IndexWhere(WeekIndices(Weeks(env, rows)), WeekKey(env)(r)) < 0
      then [Week(WeekKey(env)(r), 0.0, [])] + Weeks(env, rows) else Weeks(env, rows)
    requires j == IndexWhere(WeekIndices(ws1), WeekKey(env)(r))
    ensures 0 <= j < |ws1| && ws1[j] == WeekOf(env, WeekKey(env)(r), Filter(rows, WeekKey(env), WeekKey(env)(r)))
  {
    WeeksStep(env, rows, r);
  }

  /** The week-level turn of the loop, in the form the method computes it. */
  lemma WeeksStore(env: Env, rows: seq<Row>, r: Row, ws1: seq<Week>, j: int, total: real, cur: Week)
    requires NumericTotal(env, r)
    requires ws1 == if IndexWhere(WeekIndices(Weeks(env, rows)), WeekKey(env)(r)) < 0
      then [Week(WeekKey(env)(r), 0.0, [])] + Weeks(env, rows) else Weeks(env, rows)
    requires j == IndexWhere(WeekIndices(ws1), WeekKey(env)(r))
    requires total == ToNumber(Get(r, "total"), env.numberOf).value
    requires 0 <= j < |ws1| && cur == ws1[j]
    ensures Weeks(env, rows + [r]) == ws1[j := cur.(days := [r] + cur.days, totalPeriod := cur.totalPeriod + total)]
  {
    var k := WeekKey(env)(r);
    var F := Filter(rows, WeekKey(env), k);
    assert cur == WeekOf(env, k, F) && Weeks(env, rows + [r]) == ws1[j := WeekOf(env, k, F + [r])] by {
      WeeksStep(env, rows, r);
    }
    assert cur.(days := [r] + cur.days, totalPeriod := cur.totalPeriod + total) == WeekOf(env, k, F + [r]) by {
      WeekAdd(env, k, F, r);
    }
  }

  /** After find-or-unshift the day's month is at `j` and holds the earlier days of that month. */
  lemma MonthFound(env: Env, y: int, rows: seq<Row>, r: Row, ms1: seq<Month>, j: int)
    requires ms1 == if IndexWhere(MonthIndices(Months(env, y, rows)), MonthKey(env)(r)) < 0
      then [Month(y, MonthKey(env)(r), 0.0, 0, [])] + Months(env, y, rows) else Months(env, y, rows)
    requires j == IndexWhere(MonthIndices(ms1), MonthKey(env)(r))
    ensures 0 <= j < |ms1| && ms1[j] == MonthOf(env, y, MonthKey(env)(r), Filter(rows, MonthKey(env), MonthKey(env)(r)))
  {
    MonthsStep(env, y, rows, r);
  }

  /** The month-level turn of the loop, in the form the method computes it. */
  lemma MonthsStore(env: Env, y: int, rows: seq<Row>, r: Row, ms1: seq<Month>, j: int, total: real, cur: Month,
                    weeks: seq<Week>)
    requires NumericTotal(env, r)
    requires ms1 == if IndexWhere(MonthIndices(Months(env, y, rows)), MonthKey(env)(r)) < 0
      then [Month(y, MonthKey(env)(r), 0.0, 0, [])] + Months(env, y, rows) else Months(env, y, rows)
    requires j == IndexWhere(MonthIndices(ms1), MonthKey(env)(r))
    requires total == ToNumber(Get(r, "total"), env.numberOf).value
    requires 0 <= j < |ms1| && cur == ms1[j]
    requires weeks == Weeks(env, Filter(rows, MonthKey(env), MonthKey(env)(r)) + [r])
    ensures Months(env, y, rows + [r]) == ms1[j := cur.(weeks := weeks, totalPeriod := cur.totalPeriod + total)]
  {
    var k := MonthKey(env)(r);
    var F := Filter(rows, MonthKey(env), k);
    assert cur == MonthOf(env, y, k, F) && Months(env, y, rows + [r]) == ms1[j := MonthOf(env, y, k, F + [r])] by {
      MonthsStep(env, y, rows, r);
    }
    assert cur.(weeks := weeks, totalPeriod := cur.totalPeriod + total) == MonthOf(env, y, k, F + [r]) by {
      MonthAdd(env, y, k, F, r);
    }
  }

  /** After find-or-unshift the day's year is at `j`; its totals so far are those of its earlier days. */
  lemma YearFound(env: Env, tickers: seq<string>, rows: seq<Row>, r: Row, ys1: seq<Year>, j: int)
    requires ys1 == if IndexWhere(YearIndices(Grouped(env, tickers, rows)), YearKey(env)(r)) < 0
      then [Year(0, YearKey(env)(r), 0.0, map[], [])] + Grouped(env, tickers, rows) else Grouped(env, tickers, rows)
    requires j == IndexWhere(YearIndices(ys1), YearKey(env)(r))
    ensures var rs := Filter(rows, YearKey(env), YearKey(env)(r));
      0 <= j < |ys1| && ys1[j].months == Months(env, YearKey(env)(r), rs)
  {
    YearsStep(env, tickers, rows, r);
  }

  /** The year-level turn of the loop, in the form the method computes it. */
  lemma YearsStore(env: Env, tickers: seq<string>, rows: seq<Row>, r: Row, ys1: seq<Year>, j: int, total: real,
                   cur: Year, months: seq<Month>, perEtfs: map<string, real>)
    requires NumericTotal(env, r)
    requires ys1 == if IndexWhere(YearIndices(Grouped(env, tickers, rows)), YearKey(env)(r)) < 0
      then [Year(0, YearKey(env)(r), 0.0, map[], [])] + Grouped(env, tickers, rows) else Grouped(env, tickers, rows)
    requires j == IndexWhere(YearIndices(ys1), YearKey(env)(r))
    requires total == ToNumber(Get(r, "total"), env.numberOf).value
    requires 0 <= j < |ys1| && cur == ys1[j]
    requires months == Months(env, YearKey(env)(r), Filter(rows, YearKey(env), YearKey(env)(r)) + [r])
    requires forall t :: t in perEtfs <==> t in cur.totalPerEtfs || t in tickers
    requires forall t :: t in tickers ==>
      perEtfs[t] == (if t in cur.totalPerEtfs then cur.totalPerEtfs[t] else 0.0) + Clean(env, Get(r, t))
    ensures Grouped(env, tickers, rows + [r])
      == ys1[j := cur.(months := months, totalPeriod := cur.totalPeriod + total, totalPerEtfs := perEtfs)]
  {
    var k := YearKey(env)(r);
    var F := Filter(rows, YearKey(env), k);
    assert cur.index == k && cur.rank == 0 && cur.totalPeriod == SumF(F, DayTotal(env)) &&
      PerEtfsSoFar(env, tickers, F, cur.totalPerEtfs) &&
      Grouped(env, tickers, rows + [r]) == ys1[j := YearOf(env, tickers, k, F + [r])] by {
      YearsStep(env, tickers, rows, r);
    }
    YearUpdated(env, tickers, k, F, r, cur, total, months, perEtfs);
  }

  /** The year's fields after the day is stored are those of the year of its days so far plus this day. */
  lemma YearUpdated(env: Env, tickers: seq<string>, k: int, F: seq<Row>, r: Row, cur: Year, total: real,
                    months: seq<Month>, perEtfs: map<string, real>)
    requires NumericTotal(env, r) && total == ToNumber(Get(r, "total"), env.numberOf).value
    requires cur.index == k && cur.rank == 0 && cur.totalPeriod == SumF(F, DayTotal(env))
    requires PerEtfsSoFar(env, tickers, F, cur.totalPerEtfs)
    requires months == Months(env, k, F + [r])
    requires forall t :: t in perEtfs <==> t in cur.totalPerEtfs || t in tickers
    requires forall t :: t in tickers ==>
      perEtfs[t] == (if t in cur.totalPerEtfs then cur.totalPerEtfs[t] else 0.0) + Clean(env, Get(r, t))
    ensures cur.(months := months, totalPeriod := cur.totalPeriod + total, totalPerEtfs := perEtfs)
      == YearOf(env, tickers, k, F + [r])
  {
    PerEtfsStep(env, tickers, F, r, cur.totalPerEtfs, perEtfs);
    YearAdd(env, tickers, k, F, r);
  }

  lemma WeeksStep(env: Env, rows: seq<Row>, r: Row)
    ensures var k := WeekKey(env)(r); var ws := Weeks(env, rows);
      var ws1 := if IndexWhere(WeekIndices(ws), k) < 0 then [Week(k, 0.0, [])] + ws else ws;
      var j := IndexWhere(WeekIndices(ws1), k);
      0 <= j && ws1[j] == WeekOf(env, k, Filter(rows, WeekKey(env), k)) &&
      Weeks(env, rows + [r]) == ws1[j := WeekOf(env, k, Filter(rows, WeekKey(env), k) + [r])]
  {
    var key := WeekKey(env);
    var k := key(r);
    var P := Prepended(KeysOf(rows, key));
    var ws := Weeks(env, rows);
    forall i | 0 <= i < |P| ensures ws[i].index == P[i] {
      BucketedAt(rows, key, (w, rs) => WeekOf(env, w, rs), i);
    }
    assert WeekIndices(ws) == P;
    BucketedSnoc(rows, key, (w, rs) => WeekOf(env, w, rs), r);
    PrependedDistinct(KeysOf(rows, key));
    PrependedMembers(KeysOf(rows, key));
    if k in P {
      IndexWhereDistinct(P, IndexOf(P, k));
    } else {
      FilterAbsent(rows, key, k);
      var ws1 := [Week(k, 0.0, [])] + ws;
      assert WeekIndices(ws1)[0] == k;
    }
  }

  lemma MonthsStep(env: Env, y: int, rows: seq<Row>, r: Row)
    ensures var k := MonthKey(env)(r); var ms := Months(env, y, rows);
      var ms1 := if IndexWhere(MonthIndices(ms), k) < 0 then [Month(y, k, 0.0, 0, [])] + ms else ms;
      var j := IndexWhere(MonthIndices(ms1), k);
      0 <= j && ms1[j] == MonthOf(env, y, k, Filter(rows, MonthKey(env), k)) &&
      Months(env, y, rows + [r]) == ms1[j := MonthOf(env, y, k, Filter(rows, MonthKey(env), k) + [r])]
  {
    var key := MonthKey(env);
    var k := key(r);
    var P := Prepended(KeysOf(rows, key));
    var ms := Months(env, y, rows);
    forall i | 0 <= i < |P| ensures ms[i].index == P[i] {
      BucketedAt(rows, key, (m, rs) => MonthOf(env, y, m, rs), i);
    }
    assert MonthIndices(ms) == P;
    BucketedSnoc(rows, key, (m, rs) => MonthOf(env, y, m, rs), r);
    PrependedDistinct(KeysOf(rows, key));
    PrependedMembers(KeysOf(rows, key));
    if k in P {
      IndexWhereDistinct(P, IndexOf(P, k));
    } else {
      FilterAbsent(rows, key, k);
      var ms1 := [Month(y, k, 0.0, 0, [])] + ms;
      assert MonthIndices(ms1)[0] == k;
      assert Weeks(env, []) == [];
    }
  }

  /** A year's per-ticker totals before the day is added: each is the flow so far, or absent while 0. */
  ghost predicate PerEtfsSoFar(env: Env, tickers: seq<string>, rs: seq<Row>, m: map<string, real>) {
    (forall t :: t in m ==> t in tickers) &&
    forall t :: t in tickers ==> (if t in m then m[t] else 0.0) == SumF(rs, FlowOf(env, t))
  }

  lemma YearsStep(env: Env, tickers: seq<string>, rows: seq<Row>, r: Row)
    ensures var k := YearKey(env)(r); var ys := Grouped(env, tickers, rows);
      var ys1 := if IndexWhere(YearIndices(ys), k) < 0 then [Year(0, k, 0.0, map[], [])] + ys else ys;
      var j := IndexWhere(YearIndices(ys1), k);
      var rs := Filter(rows, YearKey(env), k);
      0 <= j && ys1[j].index == k && ys1[j].rank == 0 && ys1[j].totalPeriod == SumF(rs, DayTotal(env)) &&
      ys1[j].months == Months(env, k, rs) && PerEtfsSoFar(env, tickers, rs, ys1[j].totalPerEtfs) &&
      Grouped(env, tickers, rows + [r]) == ys1[j := YearOf(env, tickers, k, rs + [r])]
  {
    var key := YearKey(env);
    var k := key(r);
    var P := Prepended(KeysOf(rows, key));
    var ys := Grouped(env, tickers, rows);
    forall i | 0 <= i < |P| ensures ys[i].index == P[i] {
      BucketedAt(rows, key, (y, rs) => YearOf(env, tickers, y, rs), i);
    }
    assert YearIndices(ys) == P;
    PrependedDistinct(KeysOf(rows, key));
    PrependedMembers(KeysOf(rows, key));
    if k in P {
      YearsHit(env, tickers, rows, r);
    } else {
      YearsMiss(env, tickers, rows, r);
    }
  }

  lemma YearsHit(env: Env, tickers: seq<string>, rows: seq<Row>, r: Row)
    requires YearKey(env)(r) in Prepended(KeysOf(rows, YearKey(env)))
    requires YearIndices(Grouped(env, tickers, rows)) == Prepended(KeysOf(rows, YearKey(env)))
    ensures var k := YearKey(env)(r); var ys := Grouped(env, tickers, rows);
      var j := IndexWhere(YearIndices(ys), k);
      var rs := Filter(rows, YearKey(env), k);
      0 <= j && ys[j] == YearOf(env, tickers, k, rs) &&
      Grouped(env, tickers, rows + [r]) == ys[j := YearOf(env, tickers, k, rs + [r])]
  {
    var key := YearKey(env);
    var P := Prepended(KeysOf(rows, key));
    PrependedDistinct(KeysOf(rows, key));
    var j := IndexOf(P, key(r));
    IndexWhereDistinct(P, j);
    BucketedSnoc(rows, key, (y, rs) => YearOf(env, tickers, y, rs), r);
    BucketedAt(rows, key, (y, rs) => YearOf(env, tickers, y, rs), j);
  }

  lemma YearsMiss(env: Env, tickers: seq<string>, rows: seq<Row>, r: Row)
    requires YearKey(env)(r) !in Prepended(KeysOf(rows, YearKey(env)))
    ensures var k := YearKey(env)(r); var ys := Grouped(env, tickers, rows);
      var ys1 := [Year(0, k, 0.0, map[], [])] + ys;
      var rs := Filter(rows, YearKey(env), k);
      IndexWhere(YearIndices(ys1), k) == 0 && rs == [] &&
      Grouped(env, tickers, rows + [r]) == ys1[0 := YearOf(env, tickers, k, rs + [r])]
  {
    var key := YearKey(env);
    var k := key(r);
    var ys := Grouped(env, tickers, rows);
    PrependedMembers(KeysOf(rows, key));
    FilterAbsent(rows, key, k);
    var ys1 := [Year(0, k, 0.0, map[], [])] + ys;
    assert YearIndices(ys1)[0] == k;
    BucketedSnoc(rows, key, (y, rs) => YearOf(env, tickers, y, rs), r);
    HeadUpdate(YearOf(env, tickers, k, []), Year(0, k, 0.0, map[], []), ys, YearOf(env, tickers, k, Filter(rows, key, k) + [r]));
  }

  /** Overwriting the head of a sequence forgets what the head was. */
  lemma HeadUpdate<T>(a: T, b: T, s: seq<T>, x: T)
    ensures ([a] + s)[0 := x] == ([b] + s)[0 := x]
  {
  }

  lemma WeekAdd(env: Env, w: int, rs: seq<Row>, r: Row)
    requires NumericTotal(env, r)
    ensures var old_ := WeekOf(env, w, rs);
      WeekOf(env, w, rs + [r]) == old_.(days := [r] + old_.days,
        totalPeriod := old_.totalPeriod + ToNumber(Get(r, "total"), env.numberOf).value)
  {
    SumFSnoc(rs, DayTotal(env), r);
    ReverseSnoc(rs, r);
  }

  lemma MonthAdd(env: Env, y: int, m: int, rs: seq<Row>, r: Row)
    requires NumericTotal(env, r)
    ensures var old_ := MonthOf(env, y, m, rs);
      MonthOf(env, y, m, rs + [r]) == old_.(weeks := Weeks(env, rs + [r]),
        totalPeriod := old_.totalPeriod + ToNumber(Get(r, "total"), env.numberOf).value)
  {
    SumFSnoc(rs, DayTotal(env), r);
  }

  lemma YearAdd(env: Env, tickers: seq<string>, y: int, rs: seq<Row>, r: Row)
    requires NumericTotal(env, r)
    ensures YearOf(env, tickers, y, rs + [r]).totalPeriod
      == SumF(rs, DayTotal(env)) + ToNumber(Get(r, "total"), env.numberOf).value
  {
    SumFSnoc(rs, DayTotal(env), r);
  }

  /** The per-ticker loop turns the totals so far into the totals including the day. */
  lemma PerEtfsStep(env: Env, tickers: seq<string>, rs: seq<Row>, r: Row, m0: map<string, real>, m: map<string, real>)
    requires PerEtfsSoFar(env, tickers, rs, m0)
    requires forall t :: t in m <==> t in m0 || t in tickers
    requires forall t :: t in tickers ==> m[t] == (if t in m0 then m0[t] else 0.0) + Clean(env, Get(r, t))
    ensures m == PerEtfs(env, tickers, rs + [r])
  {
    forall t | t in tickers
      ensures m[t] == SumF(rs + [r], FlowOf(env, t))
    {
      SumFSnoc(rs, FlowOf(env, t), r);
    }
  }

  // What the grouping guarantees.

  /** Year indices are distinct, each month carries its year, month and week indices are distinct. */
  ghost predicate WellGrouped(g: seq<Year>) {
    Distinct(YearIndices(g)) &&
    forall i :: 0 <= i < |g| ==>
      Distinct(MonthIndices(g[i].months)) &&
      (forall j :: 0 <= j < |g[i].months| ==> g[i].months[j].year == g[i].index) &&
      (forall j :: 0 <= j < |g[i].months| ==> Distinct(WeekIndices(g[i].months[j].weeks)))
  }

  lemma WeeksIndices(env: Env, rows: seq<Row>)
    ensures WeekIndices(Weeks(env, rows)) == Prepended(KeysOf(rows, WeekKey(env)))
    ensures Distinct(WeekIndices(Weeks(env, rows)))
    ensures forall k :: 0 <= k < |Weeks(env, rows)| ==>
      var w := Weeks(env, rows)[k];
      w == WeekOf(env, w.index, Filter(rows, WeekKey(env), w.index))
  {
    var P := Prepended(KeysOf(rows, WeekKey(env)));
    forall k | 0 <= k < |P| ensures Weeks(env, rows)[k] == WeekOf(env, P[k], Filter(rows, WeekKey(env), P[k])) {
      BucketedAt(rows, WeekKey(env), (w, rs) => WeekOf(env, w, rs), k);
    }
    PrependedDistinct(KeysOf(rows, WeekKey(env)));
  }

  lemma MonthsIndices(env: Env, y: int, rows: seq<Row>)
    ensures MonthIndices(Months(env, y, rows)) == Prepended(KeysOf(rows, MonthKey(env)))
    ensures Distinct(MonthIndices(Months(env, y, rows)))
    ensures forall j :: 0 <= j < |Months(env, y, rows)| ==>
      var m := Months(env, y, rows)[j];
      m == MonthOf(env, y, m.index, Filter(rows, MonthKey(env), m.index))
  {
    var P := Prepended(KeysOf(rows, MonthKey(env)));
    forall j | 0 <= j < |P|
      ensures Months(env, y, rows)[j] == MonthOf(env, y, P[j], Filter(rows, MonthKey(env), P[j]))
    {
      BucketedAt(rows, MonthKey(env), (m, rs) => MonthOf(env, y, m, rs), j);
    }
    PrependedDistinct(KeysOf(rows, MonthKey(env)));
  }

  lemma GroupedIndices(env: Env, tickers: seq<string>, rows: seq<Row>)
    ensures YearIndices(Grouped(env, tickers, rows)) == Prepended(KeysOf(rows, YearKey(env)))
    ensures forall i :: 0 <= i < |Grouped(env, tickers, rows)| ==>
      var y := Grouped(env, tickers, rows)[i];
      y == YearOf(env, tickers, y.index, Filter(rows, YearKey(env), y.index))
  {
    var P := Prepended(KeysOf(rows, YearKey(env)));
    forall i | 0 <= i < |P|
      ensures Grouped(env, tickers, rows)[i] == YearOf(env, tickers, P[i], Filter(rows, YearKey(env), P[i]))
    {
      BucketedAt(rows, YearKey(env), (y, rs) => YearOf(env, tickers, y, rs), i);
    }
  }

  /**
   * Buckets are unique: no two years share an index, no two months of a year, no two
   * weeks of a month; and years come in reverse order of their first day in the input.
   */
  lemma GroupedWellFormed(env: Env, tickers: seq<string>, rows: seq<Row>)
    ensures WellGrouped(Grouped(env, tickers, rows))
    ensures YearIndices(Grouped(env, tickers, rows)) == Reverse(AddNew([], KeysOf(rows, YearKey(env))))
  {
    var g := Grouped(env, tickers, rows);
    GroupedIndices(env, tickers, rows);
    PrependedDistinct(KeysOf(rows, YearKey(env)));
    PrependedIsReversedFirstSeen(KeysOf(rows, YearKey(env)));
    forall i | 0 <= i < |g|
      ensures Distinct(MonthIndices(g[i].months))
      ensures forall j :: 0 <= j < |g[i].months| ==> g[i].months[j].year == g[i].index
      ensures forall j :: 0 <= j < |g[i].months| ==> Distinct(WeekIndices(g[i].months[j].weeks))
    {
      var rs := Filter(rows, YearKey(env), g[i].index);
      MonthsIndices(env, g[i].index, rs);
      forall j | 0 <= j < |g[i].months|
        ensures Distinct(WeekIndices(g[i].months[j].weeks))
      {
        WeeksIndices(env, Filter(rs, MonthKey(env), g[i].months[j].index));
      }
    }
  }

  function WeekTotals(ws: seq<Week>): (ts: seq<real>)
    ensures |ts| == |ws| && forall k :: 0 <= k < |ws| ==> ts[k] == ws[k].totalPeriod
  {
    seq(|ws|, k requires 0 <= k < |ws| => ws[k].totalPeriod)
  }

  function MonthTotals(ms: seq<Month>): (ts: seq<real>)
    ensures |ts| == |ms| && forall j :: 0 <= j < |ms| ==> ts[j] == ms[j].totalPeriod
  {
    seq(|ms|, j requires 0 <= j < |ms| => ms[j].totalPeriod)
  }

  function YearTotals(ys: seq<Year>): (ts: seq<real>)
    ensures |ts| == |ys| && forall i :: 0 <= i < |ys| ==> ts[i] == ys[i].totalPeriod
  {
    seq(|ys|, i requires 0 <= i < |ys| => ys[i].totalPeriod)
  }

  lemma WeeksTotal(env: Env, rows: seq<Row>)
    ensures Sum(WeekTotals(Weeks(env, rows))) == SumF(rows, DayTotal(env))
    ensures forall k :: 0 <= k < |Weeks(env, rows)| ==>
      Weeks(env, rows)[k].totalPeriod == SumF(Weeks(env, rows)[k].days, DayTotal(env))
  {
    var P := Prepended(KeysOf(rows, WeekKey(env)));
    var ws := Weeks(env, rows);
    forall k | 0 <= k < |P|
      ensures ws[k] == WeekOf(env, P[k], Filter(rows, WeekKey(env), P[k]))
      ensures ws[k].totalPeriod == SumF(ws[k].days, DayTotal(env))
    {
      BucketedAt(rows, WeekKey(env), (w, rs) => WeekOf(env, w, rs), k);
      SumFReverse(Filter(rows, WeekKey(env), P[k]), DayTotal(env));
    }
    assert WeekTotals(ws) == BucketSums(rows, WeekKey(env), DayTotal(env), P);
    PartitionSum(rows, WeekKey(env), DayTotal(env));
  }

  lemma MonthsTotal(env: Env, y: int, rows: seq<Row>)
    ensures Sum(MonthTotals(Months(env, y, rows))) == SumF(rows, DayTotal(env))
    ensures forall j :: 0 <= j < |Months(env, y, rows)| ==>
      Months(env, y, rows)[j].totalPeriod == Sum(WeekTotals(Months(env, y, rows)[j].weeks))
  {
    var P := Prepended(KeysOf(rows, MonthKey(env)));
    var ms := Months(env, y, rows);
    forall j | 0 <= j < |P|
      ensures ms[j] == MonthOf(env, y, P[j], Filter(rows, MonthKey(env), P[j]))
      ensures ms[j].totalPeriod == Sum(WeekTotals(ms[j].weeks))
    {
      BucketedAt(rows, MonthKey(env), (m, rs) => MonthOf(env, y, m, rs), j);
      WeeksTotal(env, Filter(rows, MonthKey(env), P[j]));
    }
    assert MonthTotals(ms) == BucketSums(rows, MonthKey(env), DayTotal(env), P);
    PartitionSum(rows, MonthKey(env), DayTotal(env));
  }

  /**
   * Period totals add up: a week's total is the sum of its days' totals, a month's the
   * sum of its weeks', a year's the sum of its months', and the years' totals sum to the
   * total of all days.
   */
  lemma GroupedTotals(env: Env, tickers: seq<string>, rows: seq<Row>)
    ensures var g := Grouped(env, tickers, rows);
      Sum(YearTotals(g)) == SumF(rows, DayTotal(env)) &&
      (forall i :: 0 <= i < |g| ==> g[i].totalPeriod == Sum(MonthTotals(g[i].months))) &&
      (forall i, j :: 0 <= i < |g| && 0 <= j < |g[i].months| ==>
        g[i].months[j].totalPeriod == Sum(WeekTotals(g[i].months[j].weeks))) &&
      (forall i, j, k :: 0 <= i < |g| && 0 <= j < |g[i].months| && 0 <= k < |g[i].months[j].weeks| ==>
        g[i].months[j].weeks[k].totalPeriod == SumF(g[i].months[j].weeks[k].days, DayTotal(env)))
  {
    var g := Grouped(env, tickers, rows);
    var P := Prepended(KeysOf(rows, YearKey(env)));
    forall i | 0 <= i < |P|
      ensures g[i] == YearOf(env, tickers, P[i], Filter(rows, YearKey(env), P[i]))
      ensures g[i].totalPeriod == Sum(MonthTotals(g[i].months))
      ensures forall j :: 0 <= j < |g[i].months| ==> g[i].months[j].totalPeriod == Sum(WeekTotals(g[i].months[j].weeks))
      ensures forall j, k :: 0 <= j < |g[i].months| && 0 <= k < |g[i].months[j].weeks| ==>
        g[i].months[j].weeks[k].totalPeriod == SumF(g[i].months[j].weeks[k].days, DayTotal(env))
    {
      BucketedAt(rows, YearKey(env), (y, rs) => YearOf(env, tickers, y, rs), i);
      var rs := Filter(rows, YearKey(env), P[i]);
      MonthsTotal(env, P[i], rs);
      MonthsIndices(env, P[i], rs);
      forall j | 0 <= j < |g[i].months|
        ensures forall k :: 0 <= k < |g[i].months[j].weeks| ==>
          g[i].months[j].weeks[k].totalPeriod == SumF(g[i].months[j].weeks[k].days, DayTotal(env))
      {
        WeeksTotal(env, Filter(rs, MonthKey(env), g[i].months[j].index));
      }
    }
    assert YearTotals(g) == BucketSums(rows, YearKey(env), DayTotal(env), P);
    PartitionSum(rows, YearKey(env), DayTotal(env));
  }

  /** A bucket that some row's key names exists, and that row is in it. */
  lemma KeyFound(rows: seq<Row>, key: Row -> int, d: nat)
    requires d < |rows|
    ensures key(rows[d]) in Prepended(KeysOf(rows, key))
    ensures rows[d] in Filter(rows, key, key(rows[d]))
  {
    assert KeysOf(rows, key)[d] == key(rows[d]);
    PrependedMembers(KeysOf(rows, key));
    FilterMembers(rows, key, key(rows[d]));
  }

  /** A row of a bucket is found at some position of that bucket. */
  lemma MemberAt(rs: seq<Row>, x: Row) returns (e: nat)
    requires x in rs
    ensures e < |rs| && rs[e] == x
  {
    e :| 0 <= e < |rs| && rs[e] == x;
  }

  /** Every input day is stored in the week of its year and month that has its week index. */
  lemma DayPlaced(env: Env, tickers: seq<string>, rows: seq<Row>, d: nat)
    requires d < |rows|
    ensures var g := Grouped(env, tickers, rows); var x := rows[d];
      var i := IndexWhere(YearIndices(g), YearKey(env)(x));
      0 <= i && (
        var ms := g[i].months;
        var j := IndexWhere(MonthIndices(ms), MonthKey(env)(x));
        0 <= j && (
          var ws := ms[j].weeks;
          var k := IndexWhere(WeekIndices(ws), WeekKey(env)(x));
          0 <= k && x in ws[k].days))
  {
    var g := Grouped(env, tickers, rows);
    var x := rows[d];
    var y, m, w := YearKey(env)(x), MonthKey(env)(x), WeekKey(env)(x);
    GroupedIndices(env, tickers, rows);
    KeyFound(rows, YearKey(env), d);
    var i := IndexWhere(YearIndices(g), y);
    var yrs := Filter(rows, YearKey(env), y);
    assert g[i] == YearOf(env, tickers, y, yrs);
    var e := MemberAt(yrs, x);
    KeyFound(yrs, MonthKey(env), e);
    MonthsIndices(env, y, yrs);
    var ms := g[i].months;
    var j := IndexWhere(MonthIndices(ms), m);
    var mrs := Filter(yrs, MonthKey(env), m);
    assert ms[j] == MonthOf(env, y, m, mrs);
    var e' := MemberAt(mrs, x);
    KeyFound(mrs, WeekKey(env), e');
    WeeksIndices(env, mrs);
    var ws := ms[j].weeks;
    var k := IndexWhere(WeekIndices(ws), w);
    var wrs := Filter(mrs, WeekKey(env), w);
    assert ws[k] == WeekOf(env, w, wrs);
    ReverseMembers(wrs);
  }

  /** A day stored in week `k` of month `j` of year `i` is an input day with those keys. */
  lemma DayBelongs(env: Env, tickers: seq<string>, rows: seq<Row>, i: nat, j: nat, k: nat, x: Row)
    requires var g := Grouped(env, tickers, rows);
      i < |g| && j < |g[i].months| && k < |g[i].months[j].weeks| && x in g[i].months[j].weeks[k].days
    ensures var g := Grouped(env, tickers, rows);
      x in rows && YearKey(env)(x) == g[i].index && MonthKey(env)(x) == g[i].months[j].index &&
      WeekKey(env)(x) == g[i].months[j].weeks[k].index
  {
    var g := Grouped(env, tickers, rows);
    GroupedIndices(env, tickers, rows);
    var y := g[i].index;
    var yrs := Filter(rows, YearKey(env), y);
    assert g[i].months == Months(env, y, yrs);
    MonthsIndices(env, y, yrs);
    var m := g[i].months[j].index;
    var mrs := Filter(yrs, MonthKey(env), m);
    assert g[i].months[j].weeks == Weeks(env, mrs);
    WeeksIndices(env, mrs);
    var w := g[i].months[j].weeks[k].index;
    var wrs := Filter(mrs, WeekKey(env), w);
    assert g[i].months[j].weeks[k].days == Reverse(wrs);
    ReverseMembers(wrs);
    assert x in wrs;
    FilterMembers(mrs, WeekKey(env), w);
    assert x in mrs && WeekKey(env)(x) == w;
    FilterMembers(yrs, MonthKey(env), m);
    assert x in yrs && MonthKey(env)(x) == m;
    FilterMembers(rows, YearKey(env), y);
  }

  /** Every stored day is an input day, in the year, month and week its date gives. */
  lemma DaysBelong(env: Env, tickers: seq<string>, rows: seq<Row>)
    ensures var g := Grouped(env, tickers, rows);
      forall i, j, k, x ::
        (0 <= i < |g| && 0 <= j < |g[i].months| && 0 <= k < |g[i].months[j].weeks| &&
         x in g[i].months[j].weeks[k].days) ==>
        x in rows && YearKey(env)(x) == g[i].index && MonthKey(env)(x) == g[i].months[j].index &&
        WeekKey(env)(x) == g[i].months[j].weeks[k].index
  {
    var g := Grouped(env, tickers, rows);
    forall i, j, k, x | 0 <= i < |g| && 0 <= j < |g[i].months| && 0 <= k < |g[i].months[j].weeks| &&
        x in g[i].months[j].weeks[k].days
      ensures x in rows && YearKey(env)(x) == g[i].index && MonthKey(env)(x) == g[i].months[j].index &&
        WeekKey(env)(x) == g[i].months[j].weeks[k].index
    {
      DayBelongs(env, tickers, rows, i, j, k, x);
    }
  }

  function WeekDayCount(ws: seq<Week>): real {
    Sum(seq(|ws|, k requires 0 <= k < |ws| => |ws[k].days| as real))
  }

  function MonthDayCount(ms: seq<Month>): real {
    Sum(seq(|ms|, j requires 0 <= j < |ms| => WeekDayCount(ms[j].weeks)))
  }

  /** The number of days stored across all weeks. */
  function DayCount(g: seq<Year>): real {
    Sum(seq(|g|, i requires 0 <= i < |g| => MonthDayCount(g[i].months)))
  }

  lemma WeeksCount(env: Env, rows: seq<Row>)
    ensures WeekDayCount(Weeks(env, rows)) == |rows| as real
  {
    var P := Prepended(KeysOf(rows, WeekKey(env)));
    var ws := Weeks(env, rows);
    WeeksIndices(env, rows);
    forall k | 0 <= k < |P|
      ensures |ws[k].days| as real == SumF(Filter(rows, WeekKey(env), P[k]), One())
    {
      SumFOne(Filter(rows, WeekKey(env), P[k]));
    }
    assert seq(|ws|, k requires 0 <= k < |ws| => |ws[k].days| as real) == BucketSums(rows, WeekKey(env), One(), P);
    PartitionSum(rows, WeekKey(env), One());
    SumFOne(rows);
  }

  lemma MonthsCount(env: Env, y: int, rows: seq<Row>)
    ensures MonthDayCount(Months(env, y, rows)) == |rows| as real
  {
    var P := Prepended(KeysOf(rows, MonthKey(env)));
    var ms := Months(env, y, rows);
    MonthsIndices(env, y, rows);
    forall j | 0 <= j < |P|
      ensures WeekDayCount(ms[j].weeks) == SumF(Filter(rows, MonthKey(env), P[j]), One())
    {
      WeeksCount(env, Filter(rows, MonthKey(env), P[j]));
      SumFOne(Filter(rows, MonthKey(env), P[j]));
    }
    assert seq(|ms|, j requires 0 <= j < |ms| => WeekDayCount(ms[j].weeks)) == BucketSums(rows, MonthKey(env), One(), P);
    PartitionSum(rows, MonthKey(env), One());
    SumFOne(rows);
  }

  /** No day is lost or duplicated: the weeks hold as many days as the input has. */
  lemma GroupedDayCount(env: Env, tickers: seq<string>, rows: seq<Row>)
    ensures DayCount(Grouped(env, tickers, rows)) == |rows| as real
  {
    var P := Prepended(KeysOf(rows, YearKey(env)));
    var g := Grouped(env, tickers, rows);
    GroupedIndices(env, tickers, rows);
    forall i | 0 <= i < |P|
      ensures MonthDayCount(g[i].months) == SumF(Filter(rows, YearKey(env), P[i]), One())
    {
      MonthsCount(env, P[i], Filter(rows, YearKey(env), P[i]));
      SumFOne(Filter(rows, YearKey(env), P[i]));
    }
    assert seq(|g|, i requires 0 <= i < |g| => MonthDayCount(g[i].months)) == BucketSums(rows, YearKey(env), One(), P);
    PartitionSum(rows, YearKey(env), One());
    SumFOne(rows);
  }

  /** Ticker `t`'s per-year totals, a missing entry read as 0. */
  function EtfTotals(g: seq<Year>, t: string): (ts: seq<real>)
    ensures |ts| == |g|
  {
    seq(|g|, i requires 0 <= i < |g| => if t in g[i].totalPerEtfs then g[i].totalPerEtfs[t] else 0.0)
  }

  /**
   * Every year has an entry for every ticker and for nothing else; the entry is the sum of
   * the ticker's non-NaN flows over that year's days, and over all years the entries add
   * up to the sum over all days.
   */
  lemma GroupedFlows(env: Env, tickers: seq<string>, rows: seq<Row>, t: string)
    requires t in tickers
    ensures var g := Grouped(env, tickers, rows);
      (forall i, u :: 0 <= i < |g| ==> (u in g[i].totalPerEtfs <==> u in tickers)) &&
      (forall i :: 0 <= i < |g| ==>
        g[i].totalPerEtfs[t] == SumF(Filter(rows, YearKey(env), g[i].index), FlowOf(env, t))) &&
      Sum(EtfTotals(g, t)) == SumF(rows, FlowOf(env, t))
  {
    var g := Grouped(env, tickers, rows);
    var P := Prepended(KeysOf(rows, YearKey(env)));
    GroupedIndices(env, tickers, rows);
    assert EtfTotals(g, t) == BucketSums(rows, YearKey(env), FlowOf(env, t), P);
    PartitionSum(rows, YearKey(env), FlowOf(env, t));
  }
}
