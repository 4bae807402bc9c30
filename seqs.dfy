/** Sums, duplicate-free lists and first-seen order, shared by the pipeline's stages. */
module Seqs {

  /** Sum of a list of flows, accumulated left to right as the source's loops do. */
  function Sum(s: seq<real>): real {
    if s == [] then 0.0 else Sum(s[..|s| - 1]) + s[|s| - 1]
  }

  lemma {:induction false} SumConcat(a: seq<real>, b: seq<real>)
    ensures Sum(a + b) == Sum(a) + Sum(b)
  {
    if b != [] {
      var b' := b[..|b| - 1];
      assert (a + b)[..|a + b| - 1] == a + b';
      assert (a + b)[|a + b| - 1] == b[|b| - 1];
      SumConcat(a, b');
      assert Sum(a + b) == Sum(a + b') + b[|b| - 1];
    } else {
      assert a + b == a;
    }
  }

  lemma {:induction false} SumAllZero(s: seq<real>)
    requires forall i :: 0 <= i < |s| ==> s[i] == 0.0
    ensures Sum(s) == 0.0
  {
    if s != [] {
      SumAllZero(s[..|s| - 1]);
    }
  }

  /** Summing is insensitive to order: a permutation has the same sum. */
  lemma {:induction false} SumPermutation(a: seq<real>, b: seq<real>)
    requires multiset(a) == multiset(b)
    ensures Sum(a) == Sum(b)
  {
    if a == [] {
      assert |b| == |multiset(b)| == 0;
    } else {
      var x := a[|a| - 1];
      var a' := a[..|a| - 1];
      assert a == a' + [x];
      assert multiset(a) == multiset(a') + multiset{x};
      assert x in multiset(b);
      var k :| 0 <= k < |b| && b[k] == x;
      var b' := b[..k] + b[k + 1..];
      SumRemove(b, k);
      assert multiset(a') == multiset(a) - multiset{x};
      assert multiset(b') == multiset(b) - multiset{x};
      SumPermutation(a', b');
    }
  }

  /** Taking out one element takes it out of both the multiset and the sum. */
  lemma SumRemove(b: seq<real>, k: nat)
    requires k < |b|
    ensures multiset(b) == multiset(b[..k] + b[k + 1..]) + multiset{b[k]}
    ensures Sum(b) == Sum(b[..k] + b[k + 1..]) + b[k]
  {
    var x, l, r := b[k], b[..k], b[k + 1..];
    assert b == l + ([x] + r);
    MultisetRemove(l, x, r);
    SumConcat(l, [x] + r);
    SumConcat([x], r);
    SumConcat(l, r);
    assert Sum([x]) == x by { assert [x][..0] == []; }
  }

  lemma MultisetRemove(l: seq<real>, x: real, r: seq<real>)
    ensures multiset(l + ([x] + r)) == multiset(l + r) + multiset{x}
  {
    assert multiset(l + ([x] + r)) == multiset(l) + multiset([x] + r);
    assert multiset([x] + r) == multiset{x} + multiset(r);
    assert multiset(l + r) == multiset(l) + multiset(r);
  }

  /** Sum of `f(s[i]) / d * c` is `Sum(f(s[i])) / d * c`. */
  lemma {:induction false} SumScaled(s: seq<real>, t: seq<real>, d: real, c: real)
    requires d != 0.0 && |t| == |s|
    requires forall i :: 0 <= i < |s| ==> t[i] == s[i] / d * c
    ensures Sum(t) == Sum(s) / d * c
  {
    if s != [] {
      SumScaled(s[..|s| - 1], t[..|t| - 1], d, c);
      assert Sum(t) == Sum(s[..|s| - 1]) / d * c + s[|s| - 1] / d * c;
    }
  }

  ghost predicate Distinct<T>(s: seq<T>) {
    forall i, j :: 0 <= i < j < |s| ==> s[i] != s[j]
  }

  /** Position of the first occurrence of `x` (JavaScript `indexOf`). */
  function IndexOf<T(==)>(s: seq<T>, x: T): (i: nat)
    requires x in s
    ensures i < |s| && s[i] == x
    ensures forall j :: 0 <= j < i ==> s[j] != x
  {
    if s[0] == x then 0 else 1 + IndexOf(s[1..], x)
  }

  lemma IndexOfDistinct<T>(s: seq<T>, i: nat)
    requires Distinct(s) && i < |s|
    ensures IndexOf(s, s[i]) == i
  {
  }

  /**
   * `known` followed by every element of `ks` not seen before, in first-seen order:
   * the effect of `if (!list.includes(k)) list.push(k)` over `ks`.
   */
  function AddNew<T(==)>(known: seq<T>, ks: seq<T>): (r: seq<T>)
    ensures |known| <= |r| && r[..|known|] == known
  {
    if ks == [] then known
    else
      var r := AddNew(known, ks[..|ks| - 1]);
      if ks[|ks| - 1] in r then r else r + [ks[|ks| - 1]]
  }

  lemma {:induction false} AddNewMembers<T>(known: seq<T>, ks: seq<T>)
    ensures forall x :: x in AddNew(known, ks) ==> x in known || x in ks
    ensures forall x :: x in known ==> x in AddNew(known, ks)
    ensures forall x :: x in ks ==> x in AddNew(known, ks)
  {
    if ks != [] {
      AddNewMembers(known, ks[..|ks| - 1]);
      assert ks == ks[..|ks| - 1] + [ks[|ks| - 1]];
    }
  }

  lemma {:induction false} AddNewDistinct<T>(known: seq<T>, ks: seq<T>)
    requires Distinct(known)
    ensures Distinct(AddNew(known, ks))
  {
    if ks != [] {
      AddNewDistinct(known, ks[..|ks| - 1]);
    }
  }

  lemma {:induction false} AddNewConcat<T>(known: seq<T>, a: seq<T>, b: seq<T>)
    ensures AddNew(known, a + b) == AddNew(AddNew(known, a), b)
  {
    if b != [] {
      var b' := b[..|b| - 1];
      assert (a + b)[..|a + b| - 1] == a + b';
      assert (a + b)[|a + b| - 1] == b[|b| - 1];
      AddNewConcat(known, a, b');
    } else {
      assert a + b == a;
    }
  }

  /**
   * First-seen order: of two entries of `AddNew([], ks)`, the earlier one occurs
   * earlier in `ks`.
   */
  lemma {:induction false} AddNewFirstSeen<T>(ks: seq<T>, p: nat, q: nat)
    requires p < q < |AddNew([], ks)|
    ensures AddNew([], ks)[p] in ks && AddNew([], ks)[q] in ks
    ensures IndexOf(ks, AddNew([], ks)[p]) < IndexOf(ks, AddNew([], ks)[q])
  {
    var r := AddNew([], ks);
    AddNewMembers([], ks);
    assert r[p] in r && r[q] in r;
    assert ks != [];
    var init := ks[..|ks| - 1];
    var last := ks[|ks| - 1];
    var r0 := AddNew([], init);
    AddNewMembers([], init);
    assert ks == init + [last];
    assert r[p] in ks && r[q] in ks;
    IndexOfPrefix(init, last, r[p]);
    if q < |r0| {
      AddNewFirstSeen(init, p, q);
      IndexOfPrefix(init, last, r[q]);
    } else {
      assert r[q] == last && last !in init;
      assert r[p] in init;
    }
  }

  lemma IndexOfPrefix<T>(s: seq<T>, y: T, x: T)
    requires x in s + [y]
    ensures x in s ==> IndexOf(s + [y], x) == IndexOf(s, x)
    ensures x !in s ==> IndexOf(s + [y], x) == |s|
  {
    var i := IndexOf(s + [y], x);
    if x in s {
      var j := IndexOf(s, x);
      assert (s + [y])[j] == x;
    }
  }

  /**
   * Keys in reverse order of first appearance: the effect of
   * `if (list.findIndex(e => e.index === k) < 0) list.unshift(...)` over `ks`.
   */
  function Prepended<T(==)>(ks: seq<T>): (r: seq<T>)
    ensures |r| <= |ks|
  {
    if ks == [] then []
    else
      var r := Prepended(ks[..|ks| - 1]);
      if ks[|ks| - 1] in r then r else [ks[|ks| - 1]] + r
  }

  lemma {:induction false} PrependedMembers<T>(ks: seq<T>)
    ensures forall x :: x in Prepended(ks) ==> x in ks
    ensures forall x :: x in ks ==> x in Prepended(ks)
  {
    if ks != [] {
      PrependedMembers(ks[..|ks| - 1]);
      assert ks == ks[..|ks| - 1] + [ks[|ks| - 1]];
    }
  }

  function Reverse<T>(s: seq<T>): (r: seq<T>)
    ensures |r| == |s|
  {
    if s == [] then [] else [s[|s| - 1]] + Reverse(s[..|s| - 1])
  }

  /** `Prepended` is first-seen order reversed. */
  lemma {:induction false} PrependedIsReversedFirstSeen<T>(ks: seq<T>)
    ensures Prepended(ks) == Reverse(AddNew([], ks))
  {
    if ks != [] {
      var init, x := ks[..|ks| - 1], ks[|ks| - 1];
      PrependedIsReversedFirstSeen(init);
      PrependedMembers(init);
      AddNewMembers([], init);
      var d := AddNew([], init);
      assert AddNew([], ks) == if x in d then d else d + [x];
      assert x in Prepended(init) <==> x in d;
      if x !in d {
        var e := d + [x];
        assert e[..|e| - 1] == d && e[|e| - 1] == x;
        assert Reverse(e) == [x] + Reverse(d);
      }
    }
  }

  lemma {:induction false} PrependedDistinct<T>(ks: seq<T>)
    ensures Distinct(Prepended(ks))
  {
    if ks != [] {
      PrependedDistinct(ks[..|ks| - 1]);
      PrependedMembers(ks[..|ks| - 1]);
    }
  }
}
