/**
 * The page's parsing step: keep the days whose `Date` parses, discover the ticker
 * columns in first-seen order, normalise the cells of tickers already known (`'-'` is 0,
 * a value in parentheses is negative) and add `TotalCheck`, the sum of the normalised
 * cells.  A ticker's cell in the day where the ticker is first seen is neither
 * normalised nor counted.
 */
module PageEnrich {
  import opened Wrappers
  import opened Rows
  import opened Externals
  import opened Seqs

  /** `dayjs(day.Date).isValid()`. */
  predicate HasValidDate(env: Env, day: Row) {
    env.isValidDate(Get(day, "Date"))
  }

  /** `rawData.filter(day => dayjs(day.Date).isValid())`. */
  function Kept(env: Env, raw: seq<Row>): (kept: seq<Row>)
    ensures |kept| <= |raw|
    ensures forall d :: d in kept ==> d in raw && HasValidDate(env, d)
  {
    if raw == [] then []
    else
      var rest := Kept(env, raw[..|raw| - 1]);
      var d := raw[|raw| - 1];
      if HasValidDate(env, d) then rest + [d] else rest
  }

  /** The filter works row by row: together with `KeptOne` it fixes its output and order. */
  lemma {:induction false} KeptConcat(env: Env, a: seq<Row>, b: seq<Row>)
    ensures Kept(env, a + b) == Kept(env, a) + Kept(env, b)
  {
    if b == [] {
      assert a + b == a;
    } else {
      var b' := b[..|b| - 1];
      assert (a + b)[..|a + b| - 1] == a + b';
      KeptConcat(env, a, b');
    }
  }

  /** Kept days are input days, so their keys are distinct too. */
  lemma {:induction false} KeptDistinctKeys(env: Env, raw: seq<Row>)
    requires forall i :: 0 <= i < |raw| ==> DistinctKeys(raw[i])
    ensures forall j :: 0 <= j < |Kept(env, raw)| ==> DistinctKeys(Kept(env, raw)[j])
  {
    if raw != [] {
      KeptDistinctKeys(env, raw[..|raw| - 1]);
    }
  }

  lemma KeptOne(env: Env, d: Row)
    ensures Kept(env, [d]) == if HasValidDate(env, d) then [d] else []
  {
    assert [d][..0] == [];
  }

  /** Every input day with a valid date is kept. */
  lemma {:induction false} KeptComplete(env: Env, raw: seq<Row>, i: nat)
    requires i < |raw| && HasValidDate(env, raw[i])
    ensures raw[i] in Kept(env, raw)
  {
    if i < |raw| - 1 {
      KeptComplete(env, raw[..|raw| - 1], i);
    }
  }

  /** A key that names a ticker column: not `Date`, not date-like, not `Total`. */
  predicate TickerKey(env: Env, k: string) {
    k != "Date" && !env.isValidDate(Some(Str(k))) && k != "Total"
  }

  /** The ticker keys of a row, in entry order. */
  function TickerKeys(env: Env, r: Row): (ks: seq<string>)
    ensures forall k :: k in ks ==> k in Keys(r[..]) && TickerKey(env, k)
  {
    if r == [] then []
    else
      var f := r[|r| - 1];
      KeysPrefix(r);
      TickerKeys(env, r[..|r| - 1]) + if TickerKey(env, f.key) then [f.key] else []
  }

  lemma KeysPrefix(r: Row)
    requires r != []
    ensures forall k :: k in Keys(r[..|r| - 1]) ==> k in Keys(r)
    ensures r[|r| - 1].key in Keys(r)
  {
    var n := |r| - 1;
    forall k | k in Keys(r[..n]) ensures k in Keys(r) {
      var i :| 0 <= i < |Keys(r[..n])| && Keys(r[..n])[i] == k;
      KeysAt(r[..n], i);
      KeysAt(r, i);
    }
    KeysAt(r, n);
  }

  /** Every ticker key of every row, day after day. */
  function AllTickerKeys(env: Env, rows: seq<Row>): seq<string> {
    if rows == [] then [] else AllTickerKeys(env, rows[..|rows| - 1]) + TickerKeys(env, rows[|rows| - 1])
  }

  /** The `tickers` list after processing `rows`: their ticker keys in first-seen order. */
  function TickersOf(env: Env, rows: seq<Row>): seq<string> {
    AddNew([], AllTickerKeys(env, rows))
  }

  lemma TickersOfStep(env: Env, rows: seq<Row>, j: nat)
    requires j < |rows|
    ensures TickersOf(env, rows[..j + 1]) == AddNew(TickersOf(env, rows[..j]), TickerKeys(env, rows[j]))
  {
    assert rows[..j + 1][..j] == rows[..j];
    AddNewConcat([], AllTickerKeys(env, rows[..j]), TickerKeys(env, rows[j]));
  }

  /** `s.replaceAll('(', '').replaceAll(')', '')`. */
  function RemoveParens(s: string): (t: string)
    ensures '(' !in t && ')' !in t && |t| <= |s|
  {
    if s == [] then []
    else
      var c := s[|s| - 1];
      RemoveParens(s[..|s| - 1]) + if c == '(' || c == ')' then [] else [c]
  }

  /** Without parentheses there is nothing to remove; so removing twice is removing once. */
  lemma {:induction false} RemoveParensNoop(s: string)
    requires '(' !in s && ')' !in s
    ensures RemoveParens(s) == s
  {
    if s != [] {
      RemoveParensNoop(s[..|s| - 1]);
      assert s == s[..|s| - 1] + [s[|s| - 1]];
    }
  }

  /**
   * `numeral(String(v) without parentheses).multiply(sign).value()`, with `sign` -1 when
   * the string holds a parenthesis; `None` when numeral yields null or NaN.
   */
  function Signed(env: Env, v: Value): Option<real> {
    var s := ToStr(v, env);
    var sign := if '(' in s || ')' in s then -1.0 else 1.0;
    match env.numeral(RemoveParens(s))
    case None => None
    case Some(x) => Some(sign * x)
  }

  /** Whether the cell is normalised: a ticker column already in `known`. */
  predicate Normalised(env: Env, known: seq<string>, f: Field) {
    TickerKey(env, f.key) && f.key in known
  }

  /** The value the loop leaves in the cell. */
  function CellOut(env: Env, known: seq<string>, f: Field): Value {
    if !Normalised(env, known, f) then f.value
    else if f.value == Str("-") then Num(0.0)
    else match Signed(env, f.value)
      case None => f.value
      case Some(x) => Num(x)
  }

  /** What the cell adds to `totalCheck`. */
  function Contribution(env: Env, known: seq<string>, f: Field): real {
    if !Normalised(env, known, f) || f.value == Str("-") then 0.0
    else match Signed(env, f.value)
      case None => 0.0
      case Some(x) => x
  }

  function NormaliseFields(env: Env, known: seq<string>, r: Row): (r': Row)
    ensures |r'| == |r| && forall i :: 0 <= i < |r| ==> r'[i] == Field(r[i].key, CellOut(env, known, r[i]))
  {
    seq(|r|, i requires 0 <= i < |r| => Field(r[i].key, CellOut(env, known, r[i])))
  }

  function Contributions(env: Env, known: seq<string>, r: Row): (cs: seq<real>)
    ensures |cs| == |r| && forall i :: 0 <= i < |r| ==> cs[i] == Contribution(env, known, r[i])
  {
    seq(|r|, i requires 0 <= i < |r| => Contribution(env, known, r[i]))
  }

  /** The `map` callback: the day with its known tickers' cells normalised and `TotalCheck` added. */
  function EnrichRow(env: Env, known: seq<string>, day: Row): (r: Row)
    ensures Get(r, "TotalCheck") == Some(Num(Sum(Contributions(env, known, day))))
  {
    Set(NormaliseFields(env, known, day), "TotalCheck", Num(Sum(Contributions(env, known, day))))
  }

  /** The enriched days: day `j` is enriched with the tickers seen in the days before it. */
  function Enriched(env: Env, kept: seq<Row>): (days: seq<Row>)
    ensures |days| == |kept|
    ensures forall i :: 0 <= i < |days| ==> Get(days[i], "TotalCheck").Some? && Get(days[i], "TotalCheck").value.Num?
  {
    if kept == [] then []
    else
      var n := |kept| - 1;
      Enriched(env, kept[..n]) + [EnrichRow(env, TickersOf(env, kept[..n]), kept[n])]
  }

  lemma {:induction false} EnrichedAt(env: Env, kept: seq<Row>, j: nat)
    requires j < |kept|
    ensures Enriched(env, kept)[j] == EnrichRow(env, TickersOf(env, kept[..j]), kept[j])
  {
    var n := |kept| - 1;
    var last := EnrichRow(env, TickersOf(env, kept[..n]), kept[n]);
    assert Enriched(env, kept) == Enriched(env, kept[..n]) + [last];
    if j < n {
      EnrichedAt(env, kept[..n], j);
      assert kept[..n][..j] == kept[..j];
      assert kept[..n][j] == kept[j];
      SnocAt(Enriched(env, kept[..n]), last, j);
    } else {
      SnocLast(Enriched(env, kept[..n]), last);
    }
  }

  lemma SnocLast<T>(s: seq<T>, x: T)
    ensures (s + [x])[|s|] == x
  {
  }

  lemma SnocAt<T>(s: seq<T>, x: T, j: nat)
    requires j < |s|
    ensures (s + [x])[j] == s[j]
  {
  }

  /** One pass of the entry loop extends the normalised prefix by one cell. */
  lemma EnrichDayStep(env: Env, known: seq<string>, day: Row, e: nat)
    requires e < |day|
    ensures NormaliseFields(env, known, day[..e + 1])
      == NormaliseFields(env, known, day[..e]) + [Field(day[e].key, CellOut(env, known, day[e]))]
  {
    assert day[..e + 1][..e] == day[..e];
  }

  /** ... and adds that cell's contribution to the running total. */
  lemma TotalStep(env: Env, known: seq<string>, day: Row, e: nat)
    requires e < |day|
    ensures Sum(Contributions(env, known, day[..e + 1]))
      == Sum(Contributions(env, known, day[..e])) + Contribution(env, known, day[e])
  {
    var cs := Contributions(env, known, day[..e + 1]);
    assert day[..e + 1][..e] == day[..e];
    assert cs[..e] == Contributions(env, known, day[..e]);
  }

  lemma TickerKeysStep(env: Env, day: Row, e: nat)
    requires e < |day|
    ensures TickerKeys(env, day[..e + 1])
      == TickerKeys(env, day[..e]) + if TickerKey(env, day[e].key) then [day[e].key] else []
  {
    assert day[..e + 1][..e] == day[..e];
  }

  /** A row's own key does not occur among the keys before it. */
  lemma KeyNotBefore(env: Env, day: Row, e: nat)
    requires DistinctKeys(day) && e < |day|
    ensures day[e].key !in Keys(day[..e])
    ensures day[e].key !in TickerKeys(env, day[..e])
  {
    forall i | 0 <= i < e ensures Keys(day[..e])[i] != day[e].key {
      KeysAt(day[..e], i);
    }
  }

  /**
   * How the `tickers` list and the normalisation test evolve at entry `e`: a ticker key
   * missing from `tickers` is new (and not normalised); one present is known.
   */
  lemma TickersStep(env: Env, known: seq<string>, day: Row, e: nat, tickers: seq<string>)
    requires DistinctKeys(day) && e < |day|
    requires tickers == AddNew(known, TickerKeys(env, day[..e]))
    ensures var f := day[e];
      AddNew(known, TickerKeys(env, day[..e + 1]))
      == if TickerKey(env, f.key) && f.key !in tickers then tickers + [f.key] else tickers
    ensures Normalised(env, known, day[e]) <==> TickerKey(env, day[e].key) && day[e].key in tickers
  {
    var f := day[e];
    var before := TickerKeys(env, day[..e]);
    TickerKeysStep(env, day, e);
    KeyNotBefore(env, day, e);
    AddNewMembers(known, before);
    assert f.key in tickers <==> f.key in known;
    if TickerKey(env, f.key) {
      var ks := before + [f.key];
      assert ks[..|ks| - 1] == before && ks[|ks| - 1] == f.key;
      assert AddNew(known, ks) == if f.key in tickers then tickers else tickers + [f.key];
    } else {
      assert before + [] == before;
    }
  }

  /**
   * The `map` callback's body: walk the day's entries, growing `tickers` and
   * normalising `dup` in place, then add `TotalCheck`.
   */
  method EnrichDay(env: Env, day: Row, known: seq<string>) returns (dup: Row, tickers: seq<string>)
    requires DistinctKeys(day)
    ensures dup == EnrichRow(env, known, day)
    ensures tickers == AddNew(known, TickerKeys(env, day))
  {
    var totalCheck := 0.0;
    dup := day;
    tickers := known;
    var entries := day;
    var e := 0;
    while e < |entries|
      invariant 0 <= e <= |entries|
      invariant tickers == AddNew(known, TickerKeys(env, day[..e]))
      invariant dup == NormaliseFields(env, known, day[..e]) + day[e..]
      invariant totalCheck == Sum(Contributions(env, known, day[..e]))
    {
      dup, tickers, totalCheck := EnrichEntry(env, known, day, e, dup, tickers, totalCheck);
      e := e + 1;
    }
    assert day[..e] == day && day[e..] == [];
    assert NormaliseFields(env, known, day[..e]) + day[e..] == NormaliseFields(env, known, day);
    dup := Set(dup, "TotalCheck", Num(totalCheck));
  }

  /**
   * One entry of the loop. `continue` on `Date`, date-like keys and `Total`; a new ticker
   * is recorded and its cell left alone; a known ticker's `'-'` becomes 0, and any other
   * cell is parsed (negated when parenthesised) and counted, or left alone if it does not parse.
   */
  method EnrichEntry(env: Env, known: seq<string>, day: Row, e: nat,
                     dup: Row, tickers: seq<string>, totalCheck: real)
    returns (dup': Row, tickers': seq<string>, totalCheck': real)
    requires DistinctKeys(day) && e < |day|
    requires tickers == AddNew(known, TickerKeys(env, day[..e]))
    requires dup == NormaliseFields(env, known, day[..e]) + day[e..]
    requires totalCheck == Sum(Contributions(env, known, day[..e]))
    ensures tickers' == AddNew(known, TickerKeys(env, day[..e + 1]))
    ensures dup' == NormaliseFields(env, known, day[..e + 1]) + day[e + 1..]
    ensures totalCheck' == Sum(Contributions(env, known, day[..e + 1]))
  {
    var key, value := day[e].key, day[e].value;
    TotalStep(env, known, day, e);
    TickersStep(env, known, day, e, tickers);
    CellCases(env, known, day[e], key in tickers);
    dup', tickers', totalCheck' := dup, tickers, totalCheck;
    if key == "Date" || env.isValidDate(Some(Str(key))) {
      KeepInPlace(env, known, day, e, dup);
    } else if key == "Total" {
      KeepInPlace(env, known, day, e, dup);
    } else if key !in tickers {
      KeepInPlace(env, known, day, e, dup);
      tickers' := tickers + [key];
    } else if value == Str("-") {
      SetInPlace(env, known, day, e, dup, Num(0.0));
      dup' := Set(dup, key, Num(0.0));
    } else {
      var s := ToStr(value, env);
      var sign := if '(' in s || ')' in s then -1.0 else 1.0;
      var parsed := env.numeral(RemoveParens(s));
      if parsed.Some? {
        SetInPlace(env, known, day, e, dup, Num(sign * parsed.value));
        dup' := Set(dup, key, Num(sign * parsed.value));
        totalCheck' := totalCheck + sign * parsed.value;
      } else {
        KeepInPlace(env, known, day, e, dup);
      }
    }
  }

  /** The loop's branches, read against `CellOut` and `Contribution`. */
  lemma CellCases(env: Env, known: seq<string>, f: Field, inTickers: bool)
    requires Normalised(env, known, f) <==> TickerKey(env, f.key) && inTickers
    ensures !TickerKey(env, f.key) || !inTickers ==>
      CellOut(env, known, f) == f.value && Contribution(env, known, f) == 0.0
    ensures TickerKey(env, f.key) && inTickers && f.value == Str("-") ==>
      CellOut(env, known, f) == Num(0.0) && Contribution(env, known, f) == 0.0
    ensures TickerKey(env, f.key) && inTickers && f.value != Str("-") ==>
      var s := ToStr(f.value, env);
      var sign := if '(' in s || ')' in s then -1.0 else 1.0;
      match env.numeral(RemoveParens(s))
      case None => CellOut(env, known, f) == f.value && Contribution(env, known, f) == 0.0
      case Some(x) => CellOut(env, known, f) == Num(sign * x) && Contribution(env, known, f) == sign * x
  {
  }

  /** Assigning the cell at entry `e` of the partly normalised day extends the normalised prefix. */
  lemma SetInPlace(env: Env, known: seq<string>, day: Row, e: nat, dup: Row, v: Value)
    requires DistinctKeys(day) && e < |day| && v == CellOut(env, known, day[e])
    requires dup == NormaliseFields(env, known, day[..e]) + day[e..]
    ensures Set(dup, day[e].key, v) == NormaliseFields(env, known, day[..e + 1]) + day[e + 1..]
  {
    var pre := NormaliseFields(env, known, day[..e]);
    EnrichDayStep(env, known, day, e);
    NormaliseKeys(env, known, day[..e]);
    KeyNotBefore(env, day, e);
    assert day[e..] == [day[e]] + day[e + 1..];
    SpliceStep(pre, NormaliseFields(env, known, day[..e + 1]), day[e], day[e + 1..], v, dup);
  }

  lemma SpliceStep(pre: Row, pre': Row, f: Field, post: Row, v: Value, dup: Row)
    requires f.key !in Keys(pre) && dup == pre + ([f] + post) && pre' == pre + [Field(f.key, v)]
    ensures Set(dup, f.key, v) == pre' + post
  {
    assert dup == pre + [f] + post;
    SetSplice(pre, f, post, v);
  }

  lemma {:induction false} NormaliseKeys(env: Env, known: seq<string>, r: Row)
    ensures Keys(NormaliseFields(env, known, r)) == Keys(r)
  {
    if r != [] {
      NormaliseKeys(env, known, r[1..]);
      assert NormaliseFields(env, known, r)[1..] == NormaliseFields(env, known, r[1..]);
    }
  }

  /** A cell the loop leaves alone also extends the normalised prefix. */
  lemma KeepInPlace(env: Env, known: seq<string>, day: Row, e: nat, dup: Row)
    requires e < |day| && CellOut(env, known, day[e]) == day[e].value
    requires dup == NormaliseFields(env, known, day[..e]) + day[e..]
    ensures dup == NormaliseFields(env, known, day[..e + 1]) + day[e + 1..]
  {
    EnrichDayStep(env, known, day, e);
    assert day[e..] == [day[e]] + day[e + 1..];
  }

  /**
   * The page's parse: filter the days with a valid date, then enrich each one in turn,
   * growing `tickers` as new ticker columns appear.
   */
  method Enrich(env: Env, raw: seq<Row>) returns (days: seq<Row>, tickers: seq<string>)
    requires forall i :: 0 <= i < |raw| ==> DistinctKeys(raw[i])
    ensures days == Enriched(env, Kept(env, raw))
    ensures tickers == TickersOf(env, Kept(env, raw))
  {
    var kept := Kept(env, raw);
    KeptDistinctKeys(env, raw);
    tickers := [];
    days := [];
    var j := 0;
    assert kept[..0] == [];
    while j < |kept|
      invariant 0 <= j <= |kept| && |days| == j
      invariant tickers == TickersOf(env, kept[..j])
      invariant days == Enriched(env, kept[..j])
    {
      TickersOfStep(env, kept, j);
      assert kept[..j + 1][..j] == kept[..j];
      var dup, tickers' := EnrichDay(env, kept[j], tickers);
      days := days + [dup];
      tickers := tickers';
      j := j + 1;
    }
    assert kept[..j] == kept;
  }

  /** A cell of the enriched day, read back by its key. */
  lemma {:induction false} EnrichRowAt(env: Env, known: seq<string>, day: Row, i: nat)
    requires DistinctKeys(day) && i < |day| && day[i].key != "TotalCheck"
    ensures Get(EnrichRow(env, known, day), day[i].key) == Some(CellOut(env, known, day[i]))
  {
    var n := NormaliseFields(env, known, day);
    assert DistinctKeys(n) by {
      assert forall p :: 0 <= p < |n| ==> n[p].key == day[p].key;
    }
    GetAt(n, i);
    GetSetOther(n, "TotalCheck", Num(Sum(Contributions(env, known, day))), day[i].key);
  }

  /** A known ticker's `'-'` becomes 0 and leaves `TotalCheck` unchanged. */
  lemma KnownDashIsZero(env: Env, known: seq<string>, day: Row, i: nat)
    requires DistinctKeys(day) && i < |day| && day[i].key != "TotalCheck"
    requires TickerKey(env, day[i].key) && day[i].key in known && day[i].value == Str("-")
    ensures Get(EnrichRow(env, known, day), day[i].key) == Some(Num(0.0))
    ensures Contribution(env, known, day[i]) == 0.0
  {
    EnrichRowAt(env, known, day, i);
  }

  /**
   * A known ticker's cell written with parentheses is stored, and counted, as minus the
   * parsed value of the string without them.
   */
  lemma ParenthesisedIsNegative(env: Env, known: seq<string>, day: Row, i: nat, x: real)
    requires DistinctKeys(day) && i < |day| && day[i].key != "TotalCheck"
    requires TickerKey(env, day[i].key) && day[i].key in known && day[i].value != Str("-")
    requires var s := ToStr(day[i].value, env); ('(' in s || ')' in s) && env.numeral(RemoveParens(s)) == Some(x)
    ensures Get(EnrichRow(env, known, day), day[i].key) == Some(Num(-x))
    ensures Contribution(env, known, day[i]) == -x
  {
    EnrichRowAt(env, known, day, i);
  }

  /**
   * Cells that are not normalised (`Date`, date-like keys, `Total`, a ticker's first
   * sighting) and known cells that do not parse keep their value and add nothing.
   */
  lemma UncountedCellsKept(env: Env, known: seq<string>, day: Row, i: nat)
    requires DistinctKeys(day) && i < |day| && day[i].key != "TotalCheck"
    requires !Normalised(env, known, day[i]) || (day[i].value != Str("-") && Signed(env, day[i].value).None?)
    ensures Get(EnrichRow(env, known, day), day[i].key) == Some(day[i].value)
    ensures Contribution(env, known, day[i]) == 0.0
  {
    EnrichRowAt(env, known, day, i);
  }

  /**
   * The quirk of the first sighting: in the kept day where a ticker column first
   * appears, its cell is left as scraped, contributes nothing, and the ticker is known
   * from the next day on.
   */
  lemma FirstSightingNotCounted(env: Env, kept: seq<Row>, j: nat, i: nat)
    requires j < |kept| && DistinctKeys(kept[j]) && i < |kept[j]| && kept[j][i].key != "TotalCheck"
    requires TickerKey(env, kept[j][i].key) && kept[j][i].key !in TickersOf(env, kept[..j])
    ensures Get(Enriched(env, kept)[j], kept[j][i].key) == Some(kept[j][i].value)
    ensures Contribution(env, TickersOf(env, kept[..j]), kept[j][i]) == 0.0
    ensures kept[j][i].key in TickersOf(env, kept[..j + 1])
  {
    UncountedCellsKept(env, TickersOf(env, kept[..j]), kept[j], i);
    EnrichedAt(env, kept, j);
    TickersOfStep(env, kept, j);
    TickerKeysMember(env, kept[j], i);
    AddNewMembers(TickersOf(env, kept[..j]), TickerKeys(env, kept[j]));
  }

  lemma {:induction false} TickerKeysMember(env: Env, r: Row, i: nat)
    requires i < |r| && TickerKey(env, r[i].key)
    ensures r[i].key in TickerKeys(env, r)
  {
    if i < |r| - 1 {
      TickerKeysMember(env, r[..|r| - 1], i);
    }
  }

  /** Nothing is known before the first kept day, so its `TotalCheck` is 0. */
  lemma FirstDayTotalCheckIsZero(env: Env, day: Row)
    ensures Get(EnrichRow(env, [], day), "TotalCheck") == Some(Num(0.0))
  {
    SumAllZero(Contributions(env, [], day));
  }

  /** Enrichment keeps the day's keys, in order, adding `TotalCheck` at the end if absent. */
  lemma EnrichRowKeys(env: Env, known: seq<string>, day: Row)
    ensures "TotalCheck" in Keys(day) ==> Keys(EnrichRow(env, known, day)) == Keys(day)
    ensures "TotalCheck" !in Keys(day) ==> Keys(EnrichRow(env, known, day)) == Keys(day) + ["TotalCheck"]
  {
    var n := NormaliseFields(env, known, day);
    var t := Num(Sum(Contributions(env, known, day)));
    NormaliseKeys(env, known, day);
    KeysSet(n, "TotalCheck", t);
    if "TotalCheck" !in Keys(day) {
      KeysConcat(n, [Field("TotalCheck", t)]);
    }
  }

  lemma AllTickerKeysMembers(env: Env, rows: seq<Row>)
    ensures forall t :: t in AllTickerKeys(env, rows) ==>
      TickerKey(env, t) && exists j :: 0 <= j < |rows| && t in Keys(rows[j])
    ensures forall j, t :: 0 <= j < |rows| && t in TickerKeys(env, rows[j]) ==> t in AllTickerKeys(env, rows)
  {
    AllTickerKeysSound(env, rows);
    forall j, t | 0 <= j < |rows| && t in TickerKeys(env, rows[j]) ensures t in AllTickerKeys(env, rows) {
      AllTickerKeysComplete(env, rows, j, t);
    }
  }

  /** Every collected key is a ticker key of some day. */
  lemma {:induction false} AllTickerKeysSound(env: Env, rows: seq<Row>)
    ensures forall t :: t in AllTickerKeys(env, rows) ==>
      TickerKey(env, t) && exists j :: 0 <= j < |rows| && t in Keys(rows[j])
  {
    if rows != [] {
      var init := rows[..|rows| - 1];
      AllTickerKeysSound(env, init);
      forall t | t in AllTickerKeys(env, rows)
        ensures TickerKey(env, t) && exists j :: 0 <= j < |rows| && t in Keys(rows[j])
      {
        if t in AllTickerKeys(env, init) {
          var j :| 0 <= j < |init| && t in Keys(init[j]);
          assert rows[j] == init[j];
        } else {
          assert t in Keys(rows[|rows| - 1][..]);
        }
      }
    }
  }

  /** Every ticker key of every day is collected. */
  lemma {:induction false} AllTickerKeysComplete(env: Env, rows: seq<Row>, j: nat, t: string)
    requires j < |rows| && t in TickerKeys(env, rows[j])
    ensures t in AllTickerKeys(env, rows)
  {
    var n := |rows| - 1;
    assert AllTickerKeys(env, rows) == AllTickerKeys(env, rows[..n]) + TickerKeys(env, rows[n]);
    if j < n {
      assert rows[..n][j] == rows[j];
      AllTickerKeysComplete(env, rows[..n], j, t);
    }
  }

  /**
   * `tickers` has no duplicates and lists exactly the ticker keys of the kept days,
   * in the order they are first seen.
   */
  lemma TickersOfSpec(env: Env, rows: seq<Row>)
    ensures Distinct(TickersOf(env, rows))
    ensures forall t :: t in TickersOf(env, rows) ==>
      TickerKey(env, t) && exists j :: 0 <= j < |rows| && t in Keys(rows[j])
    ensures forall j, t :: 0 <= j < |rows| && t in TickerKeys(env, rows[j]) ==> t in TickersOf(env, rows)
  {
    AddNewDistinct([], AllTickerKeys(env, rows));
    AddNewMembers([], AllTickerKeys(env, rows));
    AllTickerKeysMembers(env, rows);
  }

  /** Of two tickers, the one listed first was seen first. */
  lemma TickersFirstSeen(env: Env, rows: seq<Row>, p: nat, q: nat)
    requires p < q < |TickersOf(env, rows)|
    ensures var all := AllTickerKeys(env, rows); var ts := TickersOf(env, rows);
      ts[p] in all && ts[q] in all && IndexOf(all, ts[p]) < IndexOf(all, ts[q])
  {
    AddNewFirstSeen(AllTickerKeys(env, rows), p, q);
  }
}
