/**
 * The flows table's data preparation: rank the days by total flow, group them into years,
 * months and weeks, then rank the months across all years by their period totals.
 */
module FlowsTable {
  import opened Wrappers
  import opened Rows
  import opened Externals
  import opened Seqs
  import opened Sorting
  import opened Ranking
  import opened Buckets
  import opened FlowsGroup

  // Day ranks.

  /**
   * The sort keys of `(curr, next) => cleanFlow(next.total) - cleanFlow(curr.total)`:
   * ascending by minus the cleaned total is descending by the cleaned total.
   */
  function DayKeys(env: Env, days: seq<Row>): (keys: seq<real>)
    ensures |keys| == |days|
    ensures forall i :: 0 <= i < |days| ==> keys[i] == -env.cleanFlow(Get(days[i], "total"))
  {
    seq(|days|, i requires 0 <= i < |days| => -env.cleanFlow(Get(days[i], "total")))
  }

  /** Only the rank column is written by the rank loop. */
  lemma RankedOther(rows: seq<Row>, order: seq<nat>, field: string, i: nat, k: string)
    requires i < |rows| && k != "rank"
    ensures Get(Ranked(rows, order, field, i), k) == Get(rows[i], k)
  {
    match LastWrite(rows, order, field, i)
    case None =>
    case Some(q) => GetSetOther(rows[i], "rank", Num((q + 1) as real), k);
  }

  /**
   * With distinct `xata_id`s: day `i`'s rank is one more than the number of days sorted
   * before it; a larger cleaned total gives a smaller rank, equal totals keep input order,
   * and no column other than `rank` changes.
   */
  lemma DayRanks(env: Env, days: seq<Row>, i: nat, j: nat)
    requires DistinctField(days, "xata_id") && i < |days| && j < |days|
    ensures var keys := DayKeys(env, days); var order := SortedIndices(keys);
      Get(Ranked(days, order, "xata_id", i), "rank") == Some(Num((Position(keys, i) + 1) as real)) &&
      (forall k :: k != "rank" ==> Get(Ranked(days, order, "xata_id", i), k) == Get(days[i], k)) &&
      (i != j ==> Position(keys, i) != Position(keys, j)) &&
      (env.cleanFlow(Get(days[i], "total")) > env.cleanFlow(Get(days[j], "total")) ==>
        Position(keys, i) < Position(keys, j)) &&
      (env.cleanFlow(Get(days[i], "total")) == env.cleanFlow(Get(days[j], "total")) && i < j ==>
        Position(keys, i) < Position(keys, j))
  {
    var keys := DayKeys(env, days);
    RankedCells(days, keys, "xata_id", i);
    if i != j {
      PositionOrder(keys, i, j);
    }
  }

  // The months of all years, in table order (`years.map(y => y.months).flat()`).

  function Flat(g: seq<Year>): (f: seq<Month>) {
    if g == [] then [] else Flat(g[..|g| - 1]) + g[|g| - 1].months
  }

  /** Where year `i`'s months start in `Flat(g)`. */
  function Offset(g: seq<Year>, i: nat): nat
    requires i <= |g|
  {
    |Flat(g[..i])|
  }

  lemma OffsetStep(g: seq<Year>, i: nat)
    requires i < |g|
    ensures Flat(g[..i + 1]) == Flat(g[..i]) + g[i].months
    ensures Offset(g, i + 1) == Offset(g, i) + |g[i].months|
  {
    assert g[..i + 1][..i] == g[..i];
  }

  lemma {:induction false} OffsetAfter(g: seq<Year>, i: nat, k: nat)
    requires i < k <= |g|
    ensures Offset(g, i) + |g[i].months| <= Offset(g, k)
  {
    OffsetStep(g, k - 1);
    if i < k - 1 {
      OffsetAfter(g, i, k - 1);
    }
  }

  lemma {:induction false} FlatAtPrefix(g: seq<Year>, i: nat, j: nat, k: nat)
    requires i < k <= |g| && j < |g[i].months|
    ensures Offset(g, i) + j < |Flat(g[..k])| && Flat(g[..k])[Offset(g, i) + j] == g[i].months[j]
  {
    OffsetStep(g, k - 1);
    if i < k - 1 {
      FlatAtPrefix(g, i, j, k - 1);
    }
  }

  /** Month `j` of year `i` sits at `Offset(g, i) + j` of the flattened months. */
  lemma FlatAt(g: seq<Year>, i: nat, j: nat)
    requires i < |g| && j < |g[i].months|
    ensures Offset(g, i) + j < |Flat(g)| && Flat(g)[Offset(g, i) + j] == g[i].months[j]
  {
    FlatAtPrefix(g, i, j, |g|);
    assert g[..|g|] == g;
  }

  /** Distinct months sit at distinct flat positions, in table order. */
  lemma FlatOrder(g: seq<Year>, i: nat, j: nat, i': nat, j': nat)
    requires i < |g| && j < |g[i].months| && i' < |g| && j' < |g[i'].months|
    requires i < i' || (i == i' && j < j')
    ensures Offset(g, i) + j < Offset(g, i') + j'
  {
    if i < i' {
      OffsetAfter(g, i, i');
    }
  }

  lemma {:induction false} UnflatPrefix(g: seq<Year>, q: nat, k: nat) returns (i: nat, j: nat)
    requires k <= |g| && q < |Flat(g[..k])|
    ensures i < k && j < |g[i].months| && Offset(g, i) + j == q
  {
    OffsetStep(g, k - 1);
    if q < Offset(g, k - 1) {
      i, j := UnflatPrefix(g, q, k - 1);
    } else {
      i, j := k - 1, q - Offset(g, k - 1);
    }
  }

  /** Every flat position is some year's month. */
  lemma Unflat(g: seq<Year>, q: nat) returns (i: nat, j: nat)
    requires q < |Flat(g)|
    ensures i < |g| && j < |g[i].months| && Offset(g, i) + j == q
  {
    assert g[..|g|] == g;
    i, j := UnflatPrefix(g, q, |g|);
  }

  // Month ranks.

  /** The sort keys of `(curr, next) => next.totalPeriod - curr.totalPeriod`. */
  function MonthKeys(g: seq<Year>): (keys: seq<real>)
    ensures |keys| == |Flat(g)|
    ensures forall q :: 0 <= q < |Flat(g)| ==> keys[q] == -Flat(g)[q].totalPeriod
  {
    seq(|Flat(g)|, q requires 0 <= q < |Flat(g)| => -Flat(g)[q].totalPeriod)
  }

  /** The position of month `j` of year `i` in the months sorted by total, descending. */
  function MonthPosition(g: seq<Year>, i: nat, j: nat): (p: nat)
    requires i < |g| && j < |g[i].months|
    ensures p < |Flat(g)|
  {
    FlatAt(g, i, j);
    Position(MonthKeys(g), Offset(g, i) + j)
  }

  /** The months of year `i` once the sorted positions before `p` have been written. */
  function MonthsRankedTo(g: seq<Year>, p: nat, i: nat): (ms: seq<Month>)
    requires i < |g|
    ensures |ms| == |g[i].months|
  {
    seq(|g[i].months|, j requires 0 <= j < |g[i].months| =>
      if MonthPosition(g, i, j) < p then g[i].months[j].(rank := MonthPosition(g, i, j) + 1)
      else g[i].months[j])
  }

  /** The years once the sorted positions before `p` have been written. */
  function RankedTo(g: seq<Year>, p: nat): (r: seq<Year>)
    ensures |r| == |g|
  {
    seq(|g|, i requires 0 <= i < |g| => g[i].(months := MonthsRankedTo(g, p, i)))
  }

  /** Every month ranked: the rank loop's result. */
  function MonthsRanked(g: seq<Year>): seq<Year> {
    RankedTo(g, |Flat(g)|)
  }

  /** The loop finds the written month's year and month at their own places. */
  lemma RankFind(g: seq<Year>, p: nat, i: nat, j: nat)
    requires WellGrouped(g) && i < |g| && j < |g[i].months|
    ensures IndexWhere(YearIndices(RankedTo(g, p)), g[i].months[j].year) == i
    ensures IndexWhere(MonthIndices(RankedTo(g, p)[i].months), g[i].months[j].index) == j
  {
    var r := RankedTo(g, p);
    assert YearIndices(r) == YearIndices(g);
    IndexWhereDistinct(YearIndices(g), i);
    assert MonthIndices(r[i].months) == MonthIndices(g[i].months);
    IndexWhereDistinct(MonthIndices(g[i].months), j);
  }

  /** Distinct months have distinct sorted positions; the order follows totals, then table order. */
  lemma PositionsDiffer(g: seq<Year>, i: nat, j: nat, i': nat, j': nat)
    requires i < |g| && j < |g[i].months| && i' < |g| && j' < |g[i'].months|
    ensures (i, j) != (i', j') ==> MonthPosition(g, i, j) != MonthPosition(g, i', j')
    ensures g[i].months[j].totalPeriod > g[i'].months[j'].totalPeriod ==>
      MonthPosition(g, i, j) < MonthPosition(g, i', j')
    ensures g[i].months[j].totalPeriod == g[i'].months[j'].totalPeriod && (i < i' || (i == i' && j < j')) ==>
      MonthPosition(g, i, j) < MonthPosition(g, i', j')
  {
    FlatAt(g, i, j);
    FlatAt(g, i', j');
    var keys := MonthKeys(g);
    var q, q' := Offset(g, i) + j, Offset(g, i') + j';
    assert keys[q] == -g[i].months[j].totalPeriod;
    assert keys[q'] == -g[i'].months[j'].totalPeriod;
    assert MonthPosition(g, i, j) == Position(keys, q);
    assert MonthPosition(g, i', j') == Position(keys, q');
    if i < i' || (i == i' && j < j') {
      FlatOrder(g, i, j, i', j');
      PositionOrder(keys, q, q');
    } else if i' < i || (i == i' && j' < j) {
      FlatOrder(g, i', j', i, j);
      PositionOrder(keys, q, q');
    }
  }

  lemma RankedZero(g: seq<Year>)
    ensures RankedTo(g, 0) == g
  {
    forall i | 0 <= i < |g| ensures RankedTo(g, 0)[i] == g[i] {
      assert MonthsRankedTo(g, 0, i) == g[i].months;
    }
  }

  /** Writing rank `p + 1` onto the month at sorted position `p` extends the ranked prefix. */
  lemma RankStepYear(g: seq<Year>, p: nat, i: nat, j: nat)
    requires i < |g| && j < |g[i].months| && MonthPosition(g, i, j) == p
    ensures var ms := MonthsRankedTo(g, p, i);
      ms[j := ms[j].(rank := p + 1)] == MonthsRankedTo(g, p + 1, i)
  {
    var ms := MonthsRankedTo(g, p, i);
    var written := ms[j := ms[j].(rank := p + 1)];
    var next := MonthsRankedTo(g, p + 1, i);
    forall k | 0 <= k < |ms| ensures written[k] == next[k] {
      if k != j {
        PositionsDiffer(g, i, j, i, k);
        assert MonthPosition(g, i, k) != p;
      }
    }
    assert |written| == |next|;
  }

  /** Other years have no month at sorted position `p`. */
  lemma RankStepOther(g: seq<Year>, p: nat, i: nat, j: nat, i': nat)
    requires i < |g| && j < |g[i].months| && MonthPosition(g, i, j) == p && i' < |g| && i' != i
    ensures MonthsRankedTo(g, p, i') == MonthsRankedTo(g, p + 1, i')
  {
    forall j' | 0 <= j' < |g[i'].months| ensures MonthPosition(g, i', j') != p {
      PositionsDiffer(g, i, j, i', j');
    }
  }

  lemma RankStep(g: seq<Year>, p: nat, i: nat, j: nat, cur: Year)
    requires i < |g| && j < |g[i].months| && MonthPosition(g, i, j) == p
    requires cur == RankedTo(g, p)[i]
    ensures RankedTo(g, p)[i := cur.(months := cur.months[j := cur.months[j].(rank := p + 1)])]
      == RankedTo(g, p + 1)
  {
    RankStepYear(g, p, i, j);
    forall i' | 0 <= i' < |g| && i' != i ensures RankedTo(g, p)[i'] == RankedTo(g, p + 1)[i'] {
      RankStepOther(g, p, i, j, i');
    }
  }

  /**
   * Sort the flattened months by period total, descending, and for each sorted position
   * `p` find the month's year, then the month in it, and write `rank = p + 1`.
   */
  method RankMonths(g: seq<Year>) returns (ranked: seq<Year>)
    requires WellGrouped(g)
    ensures ranked == MonthsRanked(g)
  {
    var flat := Flat(g);
    var keys := MonthKeys(g);
    var order := SortedIndices(keys);
    ranked := g;
    RankedZero(g);
    var p := 0;
    while p < |order|
      invariant 0 <= p <= |order| && ranked == RankedTo(g, p)
    {
      PositionOnto(keys, p);
      var i, j := Unflat(g, order[p]);
      FlatAt(g, i, j);
      var m := flat[order[p]];
      RankFind(g, p, i, j);
      var yearIndex := IndexWhere(YearIndices(ranked), m.year);
      var monthIndex := IndexWhere(MonthIndices(ranked[yearIndex].months), m.index);
      if yearIndex >= 0 && monthIndex >= 0 {
        var cur := ranked[yearIndex];
        RankStep(g, p, i, j, cur);
        ranked := ranked[yearIndex := cur.(months := cur.months[monthIndex := cur.months[monthIndex].(rank := p + 1)])];
      }
      p := p + 1;
    }
  }

  /**
   * After ranking: only the months' ranks change; ranks run over 1..N (N the number of
   * months of all years), each taken once; a larger period total gives a smaller rank,
   * equal totals keep table order (earlier year, then earlier month first).
   */
  lemma MonthRanks(g: seq<Year>, i: nat, j: nat, i': nat, j': nat)
    requires i < |g| && j < |g[i].months| && i' < |g| && j' < |g[i'].months|
    ensures var r := MonthsRanked(g);
      |r| == |g| && r[i] == g[i].(months := r[i].months) && |r[i].months| == |g[i].months| &&
      r[i].months[j] == g[i].months[j].(rank := MonthPosition(g, i, j) + 1) &&
      1 <= r[i].months[j].rank <= |Flat(g)| &&
      ((i, j) != (i', j') ==> r[i].months[j].rank != r[i'].months[j'].rank) &&
      (g[i].months[j].totalPeriod > g[i'].months[j'].totalPeriod ==>
        r[i].months[j].rank < r[i'].months[j'].rank) &&
      (g[i].months[j].totalPeriod == g[i'].months[j'].totalPeriod && (i < i' || (i == i' && j < j')) ==>
        r[i].months[j].rank < r[i'].months[j'].rank)
  {
    var r := MonthsRanked(g);
    assert r[i].months[j] == g[i].months[j].(rank := MonthPosition(g, i, j) + 1);
    assert r[i'].months[j'] == g[i'].months[j'].(rank := MonthPosition(g, i', j') + 1);
    PositionsDiffer(g, i, j, i', j');
  }

  /** Every rank 1..N goes to some month. */
  lemma MonthRanksOnto(g: seq<Year>, p: nat) returns (i: nat, j: nat)
    requires p < |Flat(g)|
    ensures i < |g| && j < |MonthsRanked(g)[i].months| && MonthsRanked(g)[i].months[j].rank == p + 1
  {
    PositionOnto(MonthKeys(g), p);
    i, j := Unflat(g, SortedIndices(MonthKeys(g))[p]);
  }

  // The whole preparation.

  /**
   * Rank the days in place, group the ranked days, then rank the months: the table's
   * years are the grouping of the ranked days with every month ranked.
   */
  method PrepareTable(env: Env, data: array<Row>, tickers: seq<string>) returns (table: seq<Year>)
    requires Distinct(tickers)
    requires forall d :: 0 <= d < data.Length ==> NumericTotal(env, data[d])
    modifies data
    ensures forall d :: 0 <= d < data.Length ==>
      data[d] == Ranked(old(data[..]), SortedIndices(DayKeys(env, old(data[..]))), "xata_id", d)
    ensures table == MonthsRanked(Grouped(env, tickers, data[..]))
  {
    ghost var days := data[..];
    AssignRanks(data, DayKeys(env, data[..]), "xata_id");
    forall d | 0 <= d < data.Length ensures NumericTotal(env, data[d]) {
      RankedOther(days, SortedIndices(DayKeys(env, days)), "xata_id", d, "total");
    }
    var groups := GroupDays(env, data[..], tickers);
    GroupedWellFormed(env, tickers, data[..]);
    table := RankMonths(groups);
  }
}
