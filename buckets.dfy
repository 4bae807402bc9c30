/**
 * Grouping rows by an integer key the way `findIndex` + `unshift` does: buckets in
 * reverse order of first appearance, each holding the rows with its key.
 */
module Buckets {
  import opened Rows
  import opened Seqs

  function KeysOf(rows: seq<Row>, key: Row -> int): (ks: seq<int>)
    ensures |ks| == |rows| && forall i :: 0 <= i < |rows| ==> ks[i] == key(rows[i])
  {
    seq(|rows|, i requires 0 <= i < |rows| => key(rows[i]))
  }

  /** The rows whose key is `k`, in input order. */
  function Filter(rows: seq<Row>, key: Row -> int, k: int): seq<Row> {
    if rows == [] then []
    else
      var r := rows[|rows| - 1];
      Filter(rows[..|rows| - 1], key, k) + if key(r) == k then [r] else []
  }

  /** Sum of `f` over the rows, left to right. */
  function SumF(rows: seq<Row>, f: Row -> real): real {
    if rows == [] then 0.0 else SumF(rows[..|rows| - 1], f) + f(rows[|rows| - 1])
  }

  /** Sum of `f` over each bucket of `ks`. */
  function BucketSums(rows: seq<Row>, key: Row -> int, f: Row -> real, ks: seq<int>): (s: seq<real>)
    ensures |s| == |ks| && forall i :: 0 <= i < |ks| ==> s[i] == SumF(Filter(rows, key, ks[i]), f)
  {
    seq(|ks|, i requires 0 <= i < |ks| => SumF(Filter(rows, key, ks[i]), f))
  }

  /** `findIndex(b => b.index === k)`, -1 when absent. */
  function IndexWhere(ks: seq<int>, k: int): (i: int)
    ensures -1 <= i < |ks|
    ensures 0 <= i ==> ks[i] == k && forall j :: 0 <= j < i ==> ks[j] != k
    ensures i < 0 ==> k !in ks
  {
    if ks == [] then -1
    else if ks[0] == k then 0
    else var j := IndexWhere(ks[1..], k); if j < 0 then -1 else j + 1
  }

  lemma IndexWhereDistinct(ks: seq<int>, i: nat)
    requires Distinct(ks) && i < |ks|
    ensures IndexWhere(ks, ks[i]) == i
  {
    var j := IndexWhere(ks, ks[i]);
    assert !(j < i);
  }

  lemma KeysOfSnoc(rows: seq<Row>, key: Row -> int, r: Row)
    ensures KeysOf(rows + [r], key) == KeysOf(rows, key) + [key(r)]
  {
  }

  lemma FilterSnoc(rows: seq<Row>, key: Row -> int, r: Row, k: int)
    ensures Filter(rows + [r], key, k) == Filter(rows, key, k) + if key(r) == k then [r] else []
  {
    assert (rows + [r])[..|rows|] == rows;
  }

  lemma SumFSnoc(rows: seq<Row>, f: Row -> real, r: Row)
    ensures SumF(rows + [r], f) == SumF(rows, f) + f(r)
  {
    assert (rows + [r])[..|rows|] == rows;
  }

  /** A key that no row carries has an empty bucket. */
  lemma {:induction false} FilterAbsent(rows: seq<Row>, key: Row -> int, k: int)
    requires k !in KeysOf(rows, key)
    ensures Filter(rows, key, k) == []
  {
    if rows != [] {
      var init := rows[..|rows| - 1];
      assert forall i :: 0 <= i < |init| ==> KeysOf(init, key)[i] == KeysOf(rows, key)[i];
      FilterAbsent(init, key, k);
    }
  }

  /** Every row of a bucket carries its key, and every row carrying it is in. */
  lemma {:induction false} FilterMembers(rows: seq<Row>, key: Row -> int, k: int)
    ensures forall x :: x in Filter(rows, key, k) ==> x in rows && key(x) == k
    ensures forall i :: 0 <= i < |rows| && key(rows[i]) == k ==> rows[i] in Filter(rows, key, k)
  {
    if rows != [] {
      var init := rows[..|rows| - 1];
      FilterMembers(init, key, k);
      assert forall i :: 0 <= i < |init| ==> rows[i] == init[i];
    }
  }

  lemma PrependedSnoc(ks: seq<int>, k: int)
    ensures Prepended(ks + [k]) == if k in Prepended(ks) then Prepended(ks) else [k] + Prepended(ks)
  {
    assert (ks + [k])[..|ks|] == ks;
  }

  lemma SumCons(x: real, s: seq<real>)
    ensures Sum([x] + s) == x + Sum(s)
  {
    SumConcat([x], s);
    assert [x][..0] == [];
  }

  lemma {:induction false} SumUpdate(s: seq<real>, j: nat, x: real)
    requires j < |s|
    ensures Sum(s[j := s[j] + x]) == Sum(s) + x
  {
    var n := |s| - 1;
    if j < n {
      SumUpdate(s[..n], j, x);
      assert s[j := s[j] + x][..n] == s[..n][j := s[j] + x];
    } else {
      assert s[j := s[j] + x][..n] == s[..n];
    }
  }

  /** A sequence that differs from another only by `x` more at `j` sums to `x` more. */
  lemma SumBump(before: seq<real>, after: seq<real>, j: nat, x: real)
    requires |after| == |before| && j < |before| && after[j] == before[j] + x
    requires forall i :: 0 <= i < |before| && i != j ==> after[i] == before[i]
    ensures Sum(after) == Sum(before) + x
  {
    assert after == before[j := before[j] + x];
    SumUpdate(before, j, x);
  }

  /** A sequence that is another with `x` in front sums to `x` more. */
  lemma SumShift(before: seq<real>, after: seq<real>, x: real)
    requires |after| == |before| + 1 && after[0] == x
    requires forall i :: 0 <= i < |before| ==> after[i + 1] == before[i]
    ensures Sum(after) == x + Sum(before)
  {
    assert after == [x] + before;
    SumCons(x, before);
  }

  /**
   * Bucketing partitions the rows: the bucket sums, over the keys in bucket order,
   * add up to the sum over all rows.
   */
  lemma {:induction false} PartitionSum(rows: seq<Row>, key: Row -> int, f: Row -> real)
    ensures Sum(BucketSums(rows, key, f, Prepended(KeysOf(rows, key)))) == SumF(rows, f)
  {
    if rows != [] {
      var init, r := rows[..|rows| - 1], rows[|rows| - 1];
      assert rows == init + [r];
      PartitionSum(init, key, f);
      KeysOfSnoc(init, key, r);
      PrependedSnoc(KeysOf(init, key), key(r));
      SumFSnoc(init, f, r);
      if key(r) in Prepended(KeysOf(init, key)) {
        PartitionHit(init, key, f, r);
      } else {
        PartitionMiss(init, key, f, r);
      }
    }
  }

  /** One more row adds its `f` to its own bucket's sum and to no other. */
  lemma BucketSnoc(init: seq<Row>, key: Row -> int, f: Row -> real, r: Row, k: int)
    ensures SumF(Filter(init + [r], key, k), f)
      == SumF(Filter(init, key, k), f) + if key(r) == k then f(r) else 0.0
  {
    FilterSnoc(init, key, r, k);
    if key(r) == k {
      SumFSnoc(Filter(init, key, k), f, r);
    } else {
      assert Filter(init + [r], key, k) == Filter(init, key, k);
    }
  }

  /** One more row whose bucket exists: that bucket's sum grows by its `f`. */
  lemma PartitionHit(init: seq<Row>, key: Row -> int, f: Row -> real, r: Row)
    requires key(r) in Prepended(KeysOf(init, key))
    ensures var P := Prepended(KeysOf(init, key));
      Sum(BucketSums(init + [r], key, f, P)) == Sum(BucketSums(init, key, f, P)) + f(r)
  {
    var P := Prepended(KeysOf(init, key));
    var before := BucketSums(init, key, f, P);
    var after := BucketSums(init + [r], key, f, P);
    PrependedDistinct(KeysOf(init, key));
    var j := IndexOf(P, key(r));
    forall i | 0 <= i < |P| && i != j
      ensures after[i] == before[i]
    {
      BucketSnoc(init, key, f, r, P[i]);
    }
    BucketSnoc(init, key, f, r, key(r));
    SumBump(before, after, j, f(r));
  }

  /** One more row with a new key: a new bucket in front holding just that row. */
  lemma PartitionMiss(init: seq<Row>, key: Row -> int, f: Row -> real, r: Row)
    requires key(r) !in Prepended(KeysOf(init, key))
    ensures var P := Prepended(KeysOf(init, key));
      Sum(BucketSums(init + [r], key, f, [key(r)] + P)) == f(r) + Sum(BucketSums(init, key, f, P))
  {
    var P := Prepended(KeysOf(init, key));
    var before := BucketSums(init, key, f, P);
    var after := BucketSums(init + [r], key, f, [key(r)] + P);
    PrependedMembers(KeysOf(init, key));
    FilterAbsent(init, key, key(r));
    BucketSnoc(init, key, f, r, key(r));
    forall i | 0 <= i < |P|
      ensures after[i + 1] == before[i]
    {
      assert ([key(r)] + P)[i + 1] == P[i] != key(r);
      BucketSnoc(init, key, f, r, P[i]);
    }
    SumShift(before, after, f(r));
  }

  /** Reversing a bucket keeps its sum. */
  lemma {:induction false} SumFReverse(rows: seq<Row>, f: Row -> real)
    ensures SumF(Reverse(rows), f) == SumF(rows, f)
  {
    if rows != [] {
      var init, r := rows[..|rows| - 1], rows[|rows| - 1];
      SumFReverse(init, f);
      SumFCons(r, Reverse(init), f);
    }
  }

  lemma {:induction false} SumFCons(r: Row, rows: seq<Row>, f: Row -> real)
    ensures SumF([r] + rows, f) == f(r) + SumF(rows, f)
  {
    if rows != [] {
      var init := rows[..|rows| - 1];
      assert ([r] + rows)[..|rows|] == [r] + init;
      SumFCons(r, init, f);
    } else {
      assert [r][..0] == [];
    }
  }

  /**
   * One value per key, built from that key's rows, in the order of the key list that
   * `findIndex` + `unshift` leaves: reverse order of first appearance.
   */
  function Bucketed<T>(rows: seq<Row>, key: Row -> int, build: (int, seq<Row>) -> T): (b: seq<T>)
    ensures |b| == |Prepended(KeysOf(rows, key))|
  {
    var P := Prepended(KeysOf(rows, key));
    seq(|P|, i requires 0 <= i < |P| => build(P[i], Filter(rows, key, P[i])))
  }

  lemma BucketedAt<T>(rows: seq<Row>, key: Row -> int, build: (int, seq<Row>) -> T, i: nat)
    requires i < |Prepended(KeysOf(rows, key))|
    ensures var P := Prepended(KeysOf(rows, key));
      Bucketed(rows, key, build)[i] == build(P[i], Filter(rows, key, P[i]))
  {
  }

  lemma ReverseSnoc<T>(s: seq<T>, x: T)
    ensures Reverse(s + [x]) == [x] + Reverse(s)
  {
    assert (s + [x])[..|s|] == s;
  }

  /**
   * One more row: its bucket, found, or first put in front as the bucket of no rows, is
   * rebuilt with the row added and every other bucket stays as it was.
   */
  lemma BucketedSnoc<T>(rows: seq<Row>, key: Row -> int, build: (int, seq<Row>) -> T, r: Row)
    ensures var B := Bucketed(rows, key, build); var k := key(r); var P := Prepended(KeysOf(rows, key));
      var B1 := if k in P then B else [build(k, [])] + B;
      var j := if k in P then IndexOf(P, k) else 0;
      j < |B1| && Bucketed(rows + [r], key, build) == B1[j := build(k, Filter(rows, key, k) + [r])]
  {
    var k := key(r);
    KeysOfSnoc(rows, key, r);
    PrependedSnoc(KeysOf(rows, key), k);
    if k in Prepended(KeysOf(rows, key)) {
      BucketedHit(rows, key, build, r);
    } else {
      BucketedMiss(rows, key, build, r);
    }
  }

  lemma BucketedHit<T>(rows: seq<Row>, key: Row -> int, build: (int, seq<Row>) -> T, r: Row)
    requires key(r) in Prepended(KeysOf(rows, key))
    requires Prepended(KeysOf(rows + [r], key)) == Prepended(KeysOf(rows, key))
    ensures var P := Prepended(KeysOf(rows, key)); var j := IndexOf(P, key(r));
      Bucketed(rows + [r], key, build)
        == Bucketed(rows, key, build)[j := build(key(r), Filter(rows, key, key(r)) + [r])]
  {
    var P := Prepended(KeysOf(rows, key));
    var j := IndexOf(P, key(r));
    var B := Bucketed(rows, key, build);
    var after := Bucketed(rows + [r], key, build);
    PrependedDistinct(KeysOf(rows, key));
    forall i | 0 <= i < |P| && i != j
      ensures after[i] == B[i]
    {
      assert P[i] != key(r);
      FilterSnoc(rows, key, r, P[i]);
      assert Filter(rows + [r], key, P[i]) == Filter(rows, key, P[i]);
      BucketedAt(rows, key, build, i);
      BucketedAt(rows + [r], key, build, i);
    }
    FilterSnoc(rows, key, r, key(r));
    assert after == B[j := build(key(r), Filter(rows, key, key(r)) + [r])];
  }

  lemma BucketedMiss<T>(rows: seq<Row>, key: Row -> int, build: (int, seq<Row>) -> T, r: Row)
    requires key(r) !in Prepended(KeysOf(rows, key))
    requires Prepended(KeysOf(rows + [r], key)) == [key(r)] + Prepended(KeysOf(rows, key))
    ensures Bucketed(rows + [r], key, build)
      == ([build(key(r), [])] + Bucketed(rows, key, build))[0 := build(key(r), Filter(rows, key, key(r)) + [r])]
  {
    var P := Prepended(KeysOf(rows, key));
    var B := Bucketed(rows, key, build);
    var after := Bucketed(rows + [r], key, build);
    PrependedMembers(KeysOf(rows, key));
    forall i | 0 <= i < |P|
      ensures after[i + 1] == B[i]
    {
      assert ([key(r)] + P)[i + 1] == P[i] != key(r);
      FilterSnoc(rows, key, r, P[i]);
      assert Filter(rows + [r], key, P[i]) == Filter(rows, key, P[i]);
      BucketedAt(rows, key, build, i);
      BucketedAt(rows + [r], key, build, i + 1);
    }
    FilterSnoc(rows, key, r, key(r));
    assert after == ([build(key(r), [])] + B)[0 := build(key(r), Filter(rows, key, key(r)) + [r])];
  }

  lemma {:induction false} ReverseMembers<T>(s: seq<T>)
    ensures forall x :: x in Reverse(s) <==> x in s
  {
    if s != [] {
      ReverseMembers(s[..|s| - 1]);
      assert s == s[..|s| - 1] + [s[|s| - 1]];
    }
  }

  /** Counts a row as one. */
  function One(): Row -> real { r => 1.0 }

  lemma {:induction false} SumFOne(rows: seq<Row>)
    ensures SumF(rows, One()) == |rows| as real
  {
    if rows != [] {
      SumFOne(rows[..|rows| - 1]);
    }
  }
}
