/** The page's day ranking: rank 1 is the day with the largest `TotalCheck`. */
module PageRank {
  import opened Wrappers
  import opened Rows
  import opened Sorting
  import opened Ranking

  /** An enriched day: `TotalCheck` holds a number. */
  predicate HasTotalCheck(day: Row) {
    Get(day, "TotalCheck").Some? && Get(day, "TotalCheck").value.Num?
  }

  function TotalCheckOf(day: Row): real
    requires HasTotalCheck(day)
  {
    Get(day, "TotalCheck").value.n
  }

  /**
   * The sort keys of `(curr, next) => next.TotalCheck - curr.TotalCheck`: sorting
   * ascending by minus `TotalCheck` is sorting descending by `TotalCheck`.
   */
  function DescendingKeys(days: seq<Row>): (keys: seq<real>)
    requires forall i :: 0 <= i < |days| ==> HasTotalCheck(days[i])
    ensures |keys| == |days| && forall i :: 0 <= i < |days| ==> keys[i] == -TotalCheckOf(days[i])
  {
    seq(|days|, i requires 0 <= i < |days| => -TotalCheckOf(days[i]))
  }

  /** Sort a copy by `TotalCheck` descending and write each day's `rank`, matching on `Date`. */
  method RankDays(a: array<Row>)
    requires forall i :: 0 <= i < a.Length ==> HasTotalCheck(a[i])
    modifies a
    ensures forall i :: 0 <= i < a.Length ==>
      a[i] == Ranked(old(a[..]), SortedIndices(DescendingKeys(old(a[..]))), "Date", i)
  {
    AssignRanks(a, DescendingKeys(a[..]), "Date");
  }

  /**
   * With distinct dates: day `i`'s rank is one more than the number of days sorted before
   * it; a larger `TotalCheck` gives a smaller rank, equal totals keep input order, and no
   * column other than `rank` changes.
   */
  lemma DayRanks(days: seq<Row>, i: nat, j: nat)
    requires forall k :: 0 <= k < |days| ==> HasTotalCheck(days[k])
    requires DistinctField(days, "Date") && i < |days| && j < |days|
    ensures var keys := DescendingKeys(days); var order := SortedIndices(keys);
      Get(Ranked(days, order, "Date", i), "rank") == Some(Num((Position(keys, i) + 1) as real)) &&
      (forall k :: k != "rank" ==> Get(Ranked(days, order, "Date", i), k) == Get(days[i], k)) &&
      (i != j ==> Position(keys, i) != Position(keys, j)) &&
      (TotalCheckOf(days[i]) > TotalCheckOf(days[j]) ==> Position(keys, i) < Position(keys, j)) &&
      (TotalCheckOf(days[i]) == TotalCheckOf(days[j]) && i < j ==> Position(keys, i) < Position(keys, j))
  {
    var keys := DescendingKeys(days);
    RankedCells(days, keys, "Date", i);
    if i != j {
      PositionOrder(keys, i, j);
    }
  }
}
