/**
 * The "apply rank" loop shared by the page and the flows table: sort a copy of the rows,
 * then for each sorted position `p` look up the first row whose `field` equals the
 * sorted row's (`findIndex`) and write `rank = p + 1` onto it.
 */
module Ranking {
  import opened Wrappers
  import opened Rows
  import opened Seqs
  import opened Sorting

  /** `rows.findIndex(r => r[field] === v)`, `None` standing for -1. */
  function FindIndex(rows: seq<Row>, field: string, v: Option<Value>): (r: Option<nat>)
    ensures r.Some? ==> r.value < |rows| && Get(rows[r.value], field) == v
    ensures r.Some? ==> forall j {:trigger Get(rows[j], field)} :: 0 <= j < r.value ==> Get(rows[j], field) != v
    ensures r.None? ==> forall j {:trigger Get(rows[j], field)} :: 0 <= j < |rows| ==> Get(rows[j], field) != v
  {
    if rows == [] then None
    else if Get(rows[0], field) == v then Some(0)
    else match FindIndex(rows[1..], field, v)
      case None => None
      case Some(j) => Some(j + 1)
  }

  lemma FindIndexSameField(a: seq<Row>, b: seq<Row>, field: string, v: Option<Value>)
    requires |a| == |b|
    requires forall j :: 0 <= j < |a| ==> Get(a[j], field) == Get(b[j], field)
    ensures FindIndex(a, field, v) == FindIndex(b, field, v)
  {
    var fa, fb := FindIndex(a, field, v), FindIndex(b, field, v);
    if fa.Some? && fb.Some? {
      assert !(fa.value < fb.value) && !(fb.value < fa.value);
    }
  }

  /** Distinct `field` values: `findIndex` finds each row itself. */
  ghost predicate DistinctField(rows: seq<Row>, field: string) {
    forall j, k :: 0 <= j < k < |rows| ==> Get(rows[j], field) != Get(rows[k], field)
  }

  /**
   * The last sorted position among `order` whose row's `field` is first found at row
   * `i`: the rank written last onto row `i`, minus one.
   */
  function LastWrite(rows: seq<Row>, order: seq<nat>, field: string, i: nat): (r: Option<nat>)
    ensures r.Some? ==> r.value < |order|
  {
    if order == [] then None
    else
      var p := |order| - 1;
      if order[p] < |rows| && FindIndex(rows, field, Get(rows[order[p]], field)) == Some(i)
      then Some(p)
      else LastWrite(rows, order[..p], field, i)
  }

  /** Row `i` after the loop has run over `order`. */
  function Ranked(rows: seq<Row>, order: seq<nat>, field: string, i: nat): Row
    requires i < |rows|
  {
    match LastWrite(rows, order, field, i)
    case None => rows[i]
    case Some(p) => Set(rows[i], "rank", Num((p + 1) as real))
  }

  /**
   * Sort a copy of `a` by ascending `keys` (stably), then give each row the rank of the
   * last sorted position whose `field` matches it first; other rows are left alone.
   */
  method AssignRanks(a: array<Row>, keys: seq<real>, field: string)
    requires |keys| == a.Length && field != "rank"
    modifies a
    ensures forall i :: 0 <= i < a.Length ==>
      a[i] == Ranked(old(a[..]), SortedIndices(keys), field, i)
  {
    var copy := a[..];
    var order := SortedIndices(keys);
    var p := 0;
    while p < |order|
      invariant 0 <= p <= |order| && a.Length == |copy|
      invariant RankedUpTo(a[..], copy, order[..p], field)
    {
      RankPosition(a, copy, order, field, p);
      p := p + 1;
    }
    assert order[..p] == order;
    assert RankedUpTo(a[..], copy, order, field);
  }

  /** One turn of the loop: look up the row of sorted position `p` and give it rank `p + 1`. */
  method RankPosition(a: array<Row>, copy: seq<Row>, order: seq<nat>, field: string, p: nat)
    requires p < |order| && order[p] < |copy| && field != "rank"
    requires RankedUpTo(a[..], copy, order[..p], field)
    modifies a
    ensures RankedUpTo(a[..], copy, order[..p + 1], field)
  {
    ghost var cur := a[..];
    RankStepFind(copy, order[..p], field, cur, Get(copy[order[p]], field));
    RankStep(copy, order, field, p, cur);
    var d := FindIndex(a[..], field, Get(copy[order[p]], field));
    if d.Some? {
      a[d.value] := Set(a[d.value], "rank", Num((p + 1) as real));
      assert a[..] == cur[d.value := Set(cur[d.value], "rank", Num((p + 1) as real))];
    }
  }

  /** `cur` holds every row as ranked by the positions of `order`. */
  ghost predicate RankedUpTo(cur: seq<Row>, copy: seq<Row>, order: seq<nat>, field: string) {
    |cur| == |copy| && forall i :: 0 <= i < |cur| ==> cur[i] == Ranked(copy, order, field, i)
  }

  /** One turn of the loop: the row found for sorted position `p` gets rank `p + 1`. */
  lemma RankStep(copy: seq<Row>, order: seq<nat>, field: string, p: nat, cur: seq<Row>)
    requires p < |order| && order[p] < |copy| && |cur| == |copy|
    requires RankedUpTo(cur, copy, order[..p], field)
    ensures var d := FindIndex(copy, field, Get(copy[order[p]], field));
      RankedUpTo(if d.Some? then cur[d.value := Set(cur[d.value], "rank", Num((p + 1) as real))] else cur,
        copy, order[..p + 1], field)
  {
    var d := FindIndex(copy, field, Get(copy[order[p]], field));
    var next := if d.Some? then cur[d.value := Set(cur[d.value], "rank", Num((p + 1) as real))] else cur;
    forall i | 0 <= i < |next| ensures next[i] == Ranked(copy, order[..p + 1], field, i) {
      if d == Some(i) {
        LastWriteHit(copy, order, field, p, i);
        RankedRewrite(copy, order, field, p, i);
      } else {
        LastWriteMiss(copy, order, field, p, i);
      }
    }
  }

  /** The rank column is the only one the loop writes: `field` keeps its values. */
  lemma RankedField(copy: seq<Row>, order: seq<nat>, field: string, i: nat)
    requires field != "rank" && i < |copy|
    ensures Get(Ranked(copy, order, field, i), field) == Get(copy[i], field)
  {
    match LastWrite(copy, order, field, i)
    case None =>
    case Some(q) => GetSetOther(copy[i], "rank", Num((q + 1) as real), field);
  }

  /** Looking up a value in the partly ranked rows finds the same row as in the original ones. */
  lemma RankStepFind(copy: seq<Row>, order: seq<nat>, field: string, cur: seq<Row>, v: Option<Value>)
    requires field != "rank" && RankedUpTo(cur, copy, order, field)
    ensures FindIndex(cur, field, v) == FindIndex(copy, field, v)
  {
    forall j | 0 <= j < |cur| ensures Get(cur[j], field) == Get(copy[j], field) {
      RankedField(copy, order, field, j);
    }
    FindIndexSameField(cur, copy, field, v);
  }

  /** The row found for sorted position `p` is last written by `p`. */
  lemma LastWriteHit(copy: seq<Row>, order: seq<nat>, field: string, p: nat, i: nat)
    requires p < |order| && order[p] < |copy| && i < |copy|
    requires FindIndex(copy, field, Get(copy[order[p]], field)) == Some(i)
    ensures LastWrite(copy, order[..p + 1], field, i) == Some(p)
  {
    assert order[..p + 1] == order[..p] + [order[p]];
    LastWriteSnoc(copy, order[..p], field, i, order[p]);
  }

  /** Any other row keeps what it had before position `p`. */
  lemma LastWriteMiss(copy: seq<Row>, order: seq<nat>, field: string, p: nat, i: nat)
    requires p < |order| && order[p] < |copy| && i < |copy|
    requires FindIndex(copy, field, Get(copy[order[p]], field)) != Some(i)
    ensures LastWrite(copy, order[..p + 1], field, i) == LastWrite(copy, order[..p], field, i)
    ensures Ranked(copy, order[..p + 1], field, i) == Ranked(copy, order[..p], field, i)
  {
    assert order[..p + 1] == order[..p] + [order[p]];
    LastWriteSnoc(copy, order[..p], field, i, order[p]);
    RankedSameWrite(copy, order[..p + 1], order[..p], field, i);
  }

  /** Row `i` depends on the order only through its last write. */
  lemma RankedSameWrite(rows: seq<Row>, a: seq<nat>, b: seq<nat>, field: string, i: nat)
    requires i < |rows| && LastWrite(rows, a, field, i) == LastWrite(rows, b, field, i)
    ensures Ranked(rows, a, field, i) == Ranked(rows, b, field, i)
  {
  }

  /** One more sorted position: it is the last write when its row is found at `i`. */
  lemma LastWriteSnoc(rows: seq<Row>, order: seq<nat>, field: string, i: nat, x: nat)
    ensures LastWrite(rows, order + [x], field, i) ==
      if x < |rows| && FindIndex(rows, field, Get(rows[x], field)) == Some(i) then Some(|order|)
      else LastWrite(rows, order, field, i)
  {
    assert (order + [x])[..|order|] == order;
  }

  /** A later rank write overrides an earlier one. */
  lemma RankedRewrite(copy: seq<Row>, order: seq<nat>, field: string, p: nat, i: nat)
    requires p < |order| && i < |copy|
    requires LastWrite(copy, order[..p + 1], field, i) == Some(p)
    ensures Ranked(copy, order[..p + 1], field, i)
      == Set(Ranked(copy, order[..p], field, i), "rank", Num((p + 1) as real))
  {
    var w := Num((p + 1) as real);
    assert Ranked(copy, order[..p + 1], field, i) == Set(copy[i], "rank", w);
    var lw := LastWrite(copy, order[..p], field, i);
    if lw.Some? {
      var u := Num((lw.value + 1) as real);
      assert Ranked(copy, order[..p], field, i) == Set(copy[i], "rank", u);
      SetSet(copy[i], "rank", u, w);
    }
  }

  /** With distinct `field` values `findIndex` finds each row itself. */
  lemma FindIndexDistinct(rows: seq<Row>, field: string, j: nat)
    requires DistinctField(rows, field) && j < |rows|
    ensures FindIndex(rows, field, Get(rows[j], field)) == Some(j)
  {
    var f := FindIndex(rows, field, Get(rows[j], field));
    assert f.Some? && f.value <= j;
    assert !(f.value < j);
  }

  /** With distinct `field` values every row's last write is at its own sorted position. */
  lemma LastWriteDistinct(rows: seq<Row>, keys: seq<real>, field: string, i: nat, m: nat)
    requires |keys| == |rows| && i < |rows| && m <= |rows|
    requires DistinctField(rows, field)
    ensures LastWrite(rows, SortedIndices(keys)[..m], field, i)
      == if Position(keys, i) < m then Some(Position(keys, i)) else None
  {
    forall j | 0 <= j < |rows| ensures FindIndex(rows, field, Get(rows[j], field)) == Some(j) {
      FindIndexDistinct(rows, field, j);
    }
    SortedIndicesDistinct(keys);
    LastWriteOrder(rows, SortedIndices(keys), field, i, Position(keys, i), m);
  }

  /** Every row is the one `findIndex` finds for its own `field` value. */
  ghost predicate FindsSelf(rows: seq<Row>, field: string) {
    forall j {:trigger FindIndex(rows, field, Get(rows[j], field))} :: 0 <= j < |rows| ==> FindIndex(rows, field, Get(rows[j], field)) == Some(j)
  }

  /** In an order without repeats, the last write onto row `i` is at the position holding `i`. */
  lemma {:induction false} LastWriteOrder(rows: seq<Row>, order: seq<nat>, field: string, i: nat, pos: nat, m: nat)
    requires m <= |order| && pos < |order| && order[pos] == i && Distinct(order)
    requires forall p :: 0 <= p < |order| ==> order[p] < |rows|
    requires FindsSelf(rows, field)
    ensures LastWrite(rows, order[..m], field, i) == if pos < m then Some(pos) else None
  {
    if m > 0 {
      var j := order[m - 1];
      assert order[..m] == order[..m - 1] + [j];
      LastWriteSnoc(rows, order[..m - 1], field, i, j);
      assert FindIndex(rows, field, Get(rows[j], field)) == Some(j);
      assert (j == i) == (pos == m - 1);
      LastWriteOrder(rows, order, field, i, pos, m - 1);
    }
  }

  /** With distinct `field` values, row `i` ends with rank = sorted position + 1. */
  lemma RankedDistinct(rows: seq<Row>, keys: seq<real>, field: string, i: nat)
    requires |keys| == |rows| && i < |rows|
    requires DistinctField(rows, field)
    ensures Ranked(rows, SortedIndices(keys), field, i)
      == Set(rows[i], "rank", Num((Position(keys, i) + 1) as real))
  {
    var order := SortedIndices(keys);
    assert order[..|order|] == order;
    LastWriteDistinct(rows, keys, field, i, |rows|);
  }

  /**
   * With distinct `field` values: row `i` gets rank = sorted position + 1, and every
   * other column is unchanged.
   */
  lemma RankedCells(rows: seq<Row>, keys: seq<real>, field: string, i: nat)
    requires |keys| == |rows| && i < |rows| && DistinctField(rows, field)
    ensures Get(Ranked(rows, SortedIndices(keys), field, i), "rank") == Some(Num((Position(keys, i) + 1) as real))
    ensures forall k :: k != "rank" ==> Get(Ranked(rows, SortedIndices(keys), field, i), k) == Get(rows[i], k)
  {
    RankedDistinct(rows, keys, field, i);
    forall k | k != "rank"
      ensures Get(Ranked(rows, SortedIndices(keys), field, i), k) == Get(rows[i], k)
    {
      GetSetOther(rows[i], "rank", Num((Position(keys, i) + 1) as real), k);
    }
  }

  /** The ranks are 1..N, each taken exactly once: rank `p + 1` goes to the `p`-th sorted row. */
  lemma RanksArePermutation(keys: seq<real>)
    ensures forall i :: 0 <= i < |keys| ==> 1 <= Position(keys, i) + 1 <= |keys|
    ensures forall i, j :: 0 <= i < |keys| && 0 <= j < |keys| && i != j ==> Position(keys, i) != Position(keys, j)
    ensures forall p :: 0 <= p < |keys| ==>
      SortedIndices(keys)[p] < |keys| && Position(keys, SortedIndices(keys)[p]) == p
  {
    forall i, j | 0 <= i < |keys| && 0 <= j < |keys| && i != j ensures Position(keys, i) != Position(keys, j) {
      PositionOrder(keys, i, j);
    }
    forall p | 0 <= p < |keys|
      ensures SortedIndices(keys)[p] < |keys| && Position(keys, SortedIndices(keys)[p]) == p
    {
      PositionOnto(keys, p);
    }
  }
}
