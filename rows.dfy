/**
 * A JavaScript object of the data pipeline (a scraped row, an enriched day, a stored
 * flow) seen as the list of its entries in `Object.entries` order.  Keys of a JavaScript
 * object are distinct; `Set` is property assignment and object spread with an override
 * (`{ ...row, [key]: value }`): an existing key keeps its place, a new key is appended.
 */
module Rows {
  import opened Wrappers

  /** A cell: a string, a number (exact, never NaN) or `null`. */
  datatype Value = Str(s: string) | Num(n: real) | Null

  datatype Field = Field(key: string, value: Value)

  type Row = seq<Field>

  function Keys(r: Row): (ks: seq<string>)
    ensures |ks| == |r|
  {
    if r == [] then [] else [r[0].key] + Keys(r[1..])
  }

  lemma {:induction false} KeysAt(r: Row, i: nat)
    requires i < |r|
    ensures |Keys(r)| == |r| && Keys(r)[i] == r[i].key
  {
    if i > 0 {
      KeysAt(r[1..], i - 1);
    }
  }

  lemma {:induction false} KeysConcat(a: Row, b: Row)
    ensures Keys(a + b) == Keys(a) + Keys(b)
  {
    if a != [] {
      KeysConcat(a[1..], b);
      assert (a + b)[1..] == a[1..] + b;
    } else {
      assert a + b == b;
    }
  }

  ghost predicate DistinctKeys(r: Row) {
    forall i, j :: 0 <= i < j < |r| ==> r[i].key != r[j].key
  }

  /** `row[key]`: the value of the entry with that key, `None` for `undefined`. */
  function Get(r: Row, k: string): Option<Value> {
    if r == [] then None
    else if r[0].key == k then Some(r[0].value)
    else Get(r[1..], k)
  }

  /** A key reads `undefined` exactly when the row has no entry for it. */
  lemma {:induction false} GetNone(r: Row, k: string)
    ensures Get(r, k).None? <==> k !in Keys(r)
  {
    if r != [] {
      GetNone(r[1..], k);
    }
  }

  /** `row[key] = value`: overwrite in place, or append a new entry. */
  function Set(r: Row, k: string, v: Value): (r': Row)
    ensures Get(r', k) == Some(v)
  {
    if r == [] then [Field(k, v)]
    else if r[0].key == k then [Field(k, v)] + r[1..]
    else [r[0]] + Set(r[1..], k, v)
  }

  lemma {:induction false} GetSetOther(r: Row, k: string, v: Value, k': string)
    requires k' != k
    ensures Get(Set(r, k, v), k') == Get(r, k')
  {
    if r != [] && r[0].key != k {
      GetSetOther(r[1..], k, v, k');
    }
  }

  lemma {:induction false} KeysSet(r: Row, k: string, v: Value)
    ensures k in Keys(r) ==> Keys(Set(r, k, v)) == Keys(r)
    ensures k !in Keys(r) ==> Set(r, k, v) == r + [Field(k, v)]
  {
    if r != [] && r[0].key != k {
      KeysSet(r[1..], k, v);
    }
  }

  lemma {:induction false} GetAt(r: Row, i: nat)
    requires DistinctKeys(r) && i < |r|
    ensures Get(r, r[i].key) == Some(r[i].value)
  {
    if i > 0 {
      GetAt(r[1..], i - 1);
    }
  }

  lemma {:induction false} SetAt(r: Row, i: nat, v: Value)
    requires DistinctKeys(r) && i < |r|
    ensures Set(r, r[i].key, v) == r[i := Field(r[i].key, v)]
  {
    if i > 0 {
      SetAt(r[1..], i - 1, v);
      assert r[1..][i - 1 := Field(r[i].key, v)] == r[i := Field(r[i].key, v)][1..];
    }
  }

  /** Assigning a key that occurs once, right after `pre`, replaces that entry only. */
  lemma {:induction false} SetSplice(pre: Row, f: Field, post: Row, v: Value)
    requires f.key !in Keys(pre)
    ensures Set(pre + [f] + post, f.key, v) == pre + [Field(f.key, v)] + post
  {
    var g := Field(f.key, v);
    if pre != [] {
      var t := pre[1..];
      assert pre + [f] + post == [pre[0]] + (t + [f] + post);
      assert pre + [g] + post == [pre[0]] + (t + [g] + post);
      assert Keys(pre) == [pre[0].key] + Keys(t);
      SetSplice(t, f, post, v);
      SetCons(pre[0], t + [f] + post, f.key, v);
    } else {
      assert pre + [f] + post == [f] + post;
      assert pre + [g] + post == [g] + post;
      assert ([f] + post)[1..] == post;
    }
  }

  /** Assigning a key the first entry does not have leaves that entry in front. */
  lemma SetCons(x: Field, rest: Row, k: string, v: Value)
    requires x.key != k
    ensures Set([x] + rest, k, v) == [x] + Set(rest, k, v)
  {
    assert ([x] + rest)[1..] == rest;
  }

  lemma {:induction false} SetSet(r: Row, k: string, v: Value, w: Value)
    ensures Set(Set(r, k, v), k, w) == Set(r, k, w)
  {
    if r != [] && r[0].key != k {
      SetSet(r[1..], k, v, w);
    }
  }

  /** JavaScript `Number(x)`: `None` is NaN; `numberOf` parses a string. */
  function ToNumber(v: Option<Value>, numberOf: string -> Option<real>): (n: Option<real>)
    ensures v == Some(Null) ==> n == Some(0.0)
    ensures v.None? ==> n.None?
  {
    match v
    case None => None
    case Some(Null) => Some(0.0)
    case Some(Num(x)) => Some(x)
    case Some(Str(s)) => numberOf(s)
  }
}
