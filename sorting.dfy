/**
 * `Array.prototype.sort` with a numeric comparator `(a, b) => key(a) - key(b)`.  The
 * sort is stable (ECMAScript 2019), so its result is determined: indices in ascending
 * key order, equal keys in input order.  It is modelled as an insertion sort of the
 * indices `0 .. |keys| - 1`; a descending sort (`next - curr`) sorts negated keys.
 */
module Sorting {
  import opened Seqs

  function Range(lo: nat, hi: nat): (r: seq<nat>)
    ensures |r| == if lo <= hi then hi - lo else 0
    ensures forall i :: 0 <= i < |r| ==> r[i] == lo + i
    decreases hi - lo
  {
    if lo >= hi then [] else [lo] + Range(lo + 1, hi)
  }

  ghost predicate Bounded(s: seq<nat>, n: nat) {
    forall p :: 0 <= p < |s| ==> s[p] < n
  }

  /** Non-decreasing key along the list of indices. */
  ghost predicate Ascending(s: seq<nat>, keys: seq<real>)
    requires Bounded(s, |keys|)
  {
    forall p, q :: 0 <= p < q < |s| ==> keys[s[p]] <= keys[s[q]]
  }

  /** Equal keys keep input (index) order. */
  ghost predicate Stable(s: seq<nat>, keys: seq<real>)
    requires Bounded(s, |keys|)
  {
    forall p, q :: 0 <= p < q < |s| && keys[s[p]] == keys[s[q]] ==> s[p] < s[q]
  }

  /** Insert index `x` before the first index whose key is not smaller. */
  function Insert(x: nat, s: seq<nat>, keys: seq<real>): (r: seq<nat>)
    requires x < |keys| && Bounded(s, |keys|)
    ensures multiset(r) == multiset(s) + multiset{x}
    ensures |r| == |s| + 1 && Bounded(r, |keys|)
  {
    if s == [] then [x]
    else if keys[x] <= keys[s[0]] then [x] + s
    else
      assert s == [s[0]] + s[1..];
      [s[0]] + Insert(x, s[1..], keys)
  }

  lemma InsertMember(x: nat, s: seq<nat>, keys: seq<real>, y: nat)
    requires x < |keys| && Bounded(s, |keys|)
    requires y in Insert(x, s, keys)
    ensures y == x || y in s
  {
    assert y in multiset(Insert(x, s, keys));
  }

  lemma {:induction false} InsertSorted(x: nat, s: seq<nat>, keys: seq<real>)
    requires x < |keys| && Bounded(s, |keys|)
    requires Ascending(s, keys) && Stable(s, keys)
    requires forall p :: 0 <= p < |s| ==> x < s[p]
    ensures Ascending(Insert(x, s, keys), keys) && Stable(Insert(x, s, keys), keys)
  {
    if s == [] {
    } else if keys[x] <= keys[s[0]] {
      InsertFront(x, s, keys);
    } else {
      InsertSorted(x, s[1..], keys);
      InsertLater(x, s, keys);
    }
  }

  /** A head that is below every element (and before it on ties) keeps a list sorted. */
  lemma ConsSorted(h: nat, t: seq<nat>, keys: seq<real>)
    requires h < |keys| && Bounded(t, |keys|)
    requires Ascending(t, keys) && Stable(t, keys)
    requires forall p :: 0 <= p < |t| ==> keys[h] <= keys[t[p]]
    requires forall p :: 0 <= p < |t| && keys[h] == keys[t[p]] ==> h < t[p]
    ensures Ascending([h] + t, keys) && Stable([h] + t, keys)
  {
    var r := [h] + t;
    assert forall p :: 0 < p < |r| ==> r[p] == t[p - 1];
  }

  lemma InsertFront(x: nat, s: seq<nat>, keys: seq<real>)
    requires x < |keys| && Bounded(s, |keys|) && s != []
    requires Ascending(s, keys) && Stable(s, keys) && keys[x] <= keys[s[0]]
    requires forall p :: 0 <= p < |s| ==> x < s[p]
    ensures Ascending([x] + s, keys) && Stable([x] + s, keys)
  {
    forall p | 0 <= p < |s| ensures keys[x] <= keys[s[p]] {
      if p > 0 {
        assert keys[s[0]] <= keys[s[p]];
      }
    }
    ConsSorted(x, s, keys);
  }

  lemma InsertLater(x: nat, s: seq<nat>, keys: seq<real>)
    requires x < |keys| && Bounded(s, |keys|) && s != []
    requires Ascending(s, keys) && Stable(s, keys) && keys[s[0]] < keys[x]
    requires forall p :: 0 <= p < |s| ==> x < s[p]
    requires Ascending(Insert(x, s[1..], keys), keys) && Stable(Insert(x, s[1..], keys), keys)
    ensures Ascending(Insert(x, s, keys), keys) && Stable(Insert(x, s, keys), keys)
  {
    var t := Insert(x, s[1..], keys);
    assert Insert(x, s, keys) == [s[0]] + t;
    forall p | 0 <= p < |t|
      ensures keys[s[0]] <= keys[t[p]]
      ensures keys[s[0]] == keys[t[p]] ==> s[0] < t[p]
    {
      InsertMember(x, s[1..], keys, t[p]);
      if t[p] != x {
        var q :| 0 <= q < |s[1..]| && s[1..][q] == t[p];
        assert s[1 + q] == t[p];
      }
    }
    ConsSorted(s[0], t, keys);
  }

  /** The indices `lo .. |keys| - 1`, sorted. */
  function SortFrom(lo: nat, keys: seq<real>): (r: seq<nat>)
    ensures multiset(r) == multiset(Range(lo, |keys|))
    ensures Bounded(r, |keys|) && |r| == |Range(lo, |keys|)|
    decreases |keys| - lo
  {
    if lo >= |keys| then []
    else
      assert Range(lo, |keys|) == [lo] + Range(lo + 1, |keys|);
      Insert(lo, SortFrom(lo + 1, keys), keys)
  }

  lemma {:induction false} SortFromSorted(lo: nat, keys: seq<real>)
    ensures Ascending(SortFrom(lo, keys), keys) && Stable(SortFrom(lo, keys), keys)
    ensures forall p :: 0 <= p < |SortFrom(lo, keys)| ==> lo <= SortFrom(lo, keys)[p]
    decreases |keys| - lo
  {
    if lo < |keys| {
      SortFromSorted(lo + 1, keys);
      SortFromAbove(lo + 1, keys);
      InsertSorted(lo, SortFrom(lo + 1, keys), keys);
    }
    SortFromAbove(lo, keys);
  }

  /** Every index sorted from `lo` on is at least `lo`. */
  lemma SortFromAbove(lo: nat, keys: seq<real>)
    ensures forall p :: 0 <= p < |SortFrom(lo, keys)| ==> lo <= SortFrom(lo, keys)[p]
  {
    var r := SortFrom(lo, keys);
    forall p | 0 <= p < |r| ensures lo <= r[p] {
      assert r[p] in multiset(Range(lo, |keys|));
      var q :| 0 <= q < |Range(lo, |keys|)| && Range(lo, |keys|)[q] == r[p];
    }
  }

  /** The result of the stable ascending sort, as the list of input indices. */
  function SortedIndices(keys: seq<real>): (r: seq<nat>)
    ensures |r| == |keys| && Bounded(r, |keys|)
  {
    SortFrom(0, keys)
  }

  /** The sorted indices are a permutation of `0 .. n - 1`, ascending, and stable. */
  lemma SortedIndicesSpec(keys: seq<real>)
    ensures multiset(SortedIndices(keys)) == multiset(Range(0, |keys|))
    ensures Ascending(SortedIndices(keys), keys)
    ensures Stable(SortedIndices(keys), keys)
  {
    SortFromSorted(0, keys);
  }

  lemma {:induction false} RangeDistinct(lo: nat, hi: nat)
    ensures Distinct(Range(lo, hi))
  {
  }

  lemma {:induction false} DistinctCount(t: seq<nat>, x: nat)
    requires Distinct(t)
    ensures multiset(t)[x] <= 1
  {
    if t != [] {
      var t' := t[..|t| - 1];
      assert t == t' + [t[|t| - 1]];
      DistinctCount(t', x);
      if t[|t| - 1] == x {
        assert x !in t';
      }
    }
  }

  lemma RepeatCount(s: seq<nat>, i: nat, j: nat)
    requires i < j < |s| && s[i] == s[j]
    ensures multiset(s)[s[i]] >= 2
  {
    var x := s[i];
    assert s == s[..i] + [x] + s[i + 1..j] + [x] + s[j + 1..];
  }

  /** A list with the multiset of a duplicate-free list is duplicate-free. */
  lemma SameMultisetDistinct(s: seq<nat>, t: seq<nat>)
    requires Distinct(t) && multiset(s) == multiset(t)
    ensures Distinct(s)
  {
    forall i, j | 0 <= i < j < |s| ensures s[i] != s[j] {
      DistinctCount(t, s[i]);
      if s[i] == s[j] {
        RepeatCount(s, i, j);
        assert false;
      }
    }
  }

  /** Position of index `i` in the sorted order: the row's rank minus one. */
  function Position(keys: seq<real>, i: nat): (p: nat)
    requires i < |keys|
    ensures p < |keys| && SortedIndices(keys)[p] == i
  {
    SortedIndicesSpec(keys);
    assert i in multiset(Range(0, |keys|)) by { assert Range(0, |keys|)[i] == i; }
    IndexOf(SortedIndices(keys), i)
  }

  lemma SortedIndicesDistinct(keys: seq<real>)
    ensures Distinct(SortedIndices(keys))
  {
    SortedIndicesSpec(keys);
    RangeDistinct(0, |keys|);
    SameMultisetDistinct(SortedIndices(keys), Range(0, |keys|));
  }

  /**
   * Positions are a bijection of `0 .. n - 1`; a smaller key gets an earlier position,
   * and of two equal keys the earlier index gets the earlier position.
   */
  lemma PositionOrder(keys: seq<real>, i: nat, j: nat)
    requires i < |keys| && j < |keys| && i != j
    ensures Position(keys, i) != Position(keys, j)
    ensures keys[i] < keys[j] ==> Position(keys, i) < Position(keys, j)
    ensures keys[i] == keys[j] && i < j ==> Position(keys, i) < Position(keys, j)
  {
    SortedIndicesSpec(keys);
    var s := SortedIndices(keys);
    var pi, pj := Position(keys, i), Position(keys, j);
    if pj < pi {
      assert keys[s[pj]] <= keys[s[pi]];
    }
  }

  lemma PositionOnto(keys: seq<real>, p: nat)
    requires p < |keys|
    ensures SortedIndices(keys)[p] < |keys| && Position(keys, SortedIndices(keys)[p]) == p
  {
    SortedIndicesDistinct(keys);
    var s := SortedIndices(keys);
    IndexOfDistinct(s, p);
  }

  /** Strictly increasing keys are already sorted: the identity order. */
  lemma {:induction false} SortFromIncreasing(lo: nat, keys: seq<real>)
    requires forall i, j :: 0 <= i < j < |keys| ==> keys[i] < keys[j]
    ensures SortFrom(lo, keys) == Range(lo, |keys|)
    decreases |keys| - lo
  {
    if lo < |keys| {
      SortFromIncreasing(lo + 1, keys);
      assert Range(lo, |keys|) == [lo] + Range(lo + 1, |keys|);
    }
  }

  /** `s` reordered by a list of its indices: position `p` holds `s[order[p]]`. */
  function Apply<T>(s: seq<T>, order: seq<nat>): (r: seq<T>)
    requires Bounded(order, |s|)
    ensures |r| == |order| && forall p :: 0 <= p < |order| ==> r[p] == s[order[p]]
  {
    seq(|order|, p requires 0 <= p < |order| => s[order[p]])
  }

  lemma ApplyConcat<T>(s: seq<T>, a: seq<nat>, b: seq<nat>)
    requires Bounded(a, |s|) && Bounded(b, |s|)
    ensures Bounded(a + b, |s|) && Apply(s, a + b) == Apply(s, a) + Apply(s, b)
  {
  }

  /** Taking `x` out of two lists with the same multiset leaves the same multiset. */
  lemma RemoveOne(a': seq<nat>, x: nat, b1: seq<nat>, b2: seq<nat>)
    requires multiset(a' + [x]) == multiset(b1 + [x] + b2)
    ensures multiset(a') == multiset(b1 + b2)
  {
    var m1, m2 := multiset(a'), multiset(b1 + b2);
    assert multiset(a' + [x]) == m1 + multiset{x};
    assert multiset(b1 + [x] + b2) == m2 + multiset{x};
    forall y ensures m1[y] == m2[y] {
      assert (m1 + multiset{x})[y] == (m2 + multiset{x})[y];
    }
  }

  lemma ApplyInsert<T>(s: seq<T>, b1: seq<nat>, x: nat, b2: seq<nat>)
    requires Bounded(b1, |s|) && x < |s| && Bounded(b2, |s|)
    ensures Bounded(b1 + b2, |s|) && Bounded(b1 + [x] + b2, |s|)
    ensures multiset(Apply(s, b1 + [x] + b2)) == multiset(Apply(s, b1 + b2)) + multiset{s[x]}
  {
    assert Apply(s, b1 + [x] + b2) == Apply(s, b1) + [s[x]] + Apply(s, b2);
    assert Apply(s, b1 + b2) == Apply(s, b1) + Apply(s, b2);
  }

  /** The last index of `a` occurs in `b` at `k`; the rest of both hold the same indices. */
  lemma SplitAt(a: seq<nat>, b: seq<nat>) returns (x: nat, k: nat)
    requires a != [] && multiset(a) == multiset(b)
    ensures x == a[|a| - 1] && k < |b| && b[k] == x && b == b[..k] + [x] + b[k + 1..]
    ensures multiset(a[..|a| - 1]) == multiset(b[..k] + b[k + 1..])
  {
    x := a[|a| - 1];
    assert a == a[..|a| - 1] + [x];
    assert x in multiset(b);
    k := IndexOf(b, x);
    assert b == b[..k] + [x] + b[k + 1..];
    RemoveOne(a[..|a| - 1], x, b[..k], b[k + 1..]);
  }

  lemma ApplySnoc<T>(s: seq<T>, a: seq<nat>)
    requires Bounded(a, |s|) && a != []
    ensures Bounded(a[..|a| - 1], |s|)
    ensures multiset(Apply(s, a)) == multiset(Apply(s, a[..|a| - 1])) + multiset{s[a[|a| - 1]]}
  {
    assert Apply(s, a) == Apply(s, a[..|a| - 1]) + [s[a[|a| - 1]]];
  }

  /** Reordering by two lists holding the same indices gives the same multiset. */
  lemma {:induction false} ApplySameMultiset<T>(s: seq<T>, a: seq<nat>, b: seq<nat>)
    requires Bounded(a, |s|) && Bounded(b, |s|) && multiset(a) == multiset(b)
    ensures multiset(Apply(s, a)) == multiset(Apply(s, b))
    decreases |a|
  {
    if a == [] {
      assert |b| == |multiset(b)| == 0;
    } else {
      var x, k := SplitAt(a, b);
      var b1, b2 := b[..k], b[k + 1..];
      ApplySameMultiset(s, a[..|a| - 1], b1 + b2);
      ApplySnoc(s, a);
      ApplyInsert(s, b1, x, b2);
    }
  }

  lemma ApplyRange<T>(s: seq<T>)
    ensures Bounded(Range(0, |s|), |s|) && Apply(s, Range(0, |s|)) == s
  {
  }

  /** `[...s].sort((a, b) => key(a) - key(b))` for the given keys. */
  function SortedBy<T>(s: seq<T>, keys: seq<real>): (r: seq<T>)
    requires |keys| == |s|
    ensures |r| == |s| && forall p :: 0 <= p < |s| ==> r[p] == s[SortedIndices(keys)[p]]
  {
    Apply(s, SortedIndices(keys))
  }

  /**
   * The sorted copy is a permutation of `s`; keys do not decrease along it; elements with
   * equal keys keep their input order; element `i` lands at `Position(keys, i)`.
   */
  lemma SortedBySpec<T>(s: seq<T>, keys: seq<real>)
    requires |keys| == |s|
    ensures multiset(SortedBy(s, keys)) == multiset(s)
    ensures forall p, q :: 0 <= p < q < |s| ==> keys[SortedIndices(keys)[p]] <= keys[SortedIndices(keys)[q]]
    ensures forall p, q :: 0 <= p < q < |s| && keys[SortedIndices(keys)[p]] == keys[SortedIndices(keys)[q]] ==>
      SortedIndices(keys)[p] < SortedIndices(keys)[q]
    ensures forall i :: 0 <= i < |s| ==> SortedBy(s, keys)[Position(keys, i)] == s[i]
  {
    SortedIndicesSpec(keys);
    ApplySameMultiset(s, SortedIndices(keys), Range(0, |s|));
    ApplyRange(s);
  }
}
