/**
 * The persistence step of the scheduled scrape job: stop on an empty parse, otherwise
 * upsert the last five enriched days, oldest first, under a key derived from the day's
 * label, and notify the key of the last day.  The store is a map from key to entity
 * that Prisma's `upsert` updates in place.
 */
module ScrapeJob {
  import opened Rows
  import opened Externals

  /** The ticker columns the job writes, in the order it writes them. */
  const StoredTickers: seq<string> := ["IBIT", "FBTC", "BITB", "ARKB", "BTCO", "EZBC", "BRRR", "HODL", "BTCW", "GBTC", "BTC"]

  /**
   * A stored flow without its key: `day`, `close_of_bussiness_hour` (milliseconds), one
   * cleaned number per stored ticker, `total` and the raw enriched day.
   */
  datatype Entity = Entity(day: string, closeOfBusiness: int, flows: seq<real>, total: real, raw: Row)

  /** Prisma's `create` input: the key and the columns. */
  datatype CreateInput = CreateInput(xataId: string, data: Entity)

  /** The job's result body: "empty data", or done after notifying the given key. */
  datatype Outcome = EmptyData | Done(notified: string)

  /** `toLowerCase` on one character of a day label. */
  function Lower(c: char): (l: char)
    ensures !('A' <= l <= 'Z')
    ensures c != ' ' ==> l != ' '
    ensures !('A' <= c <= 'Z') ==> l == c
  {
    if 'A' <= c <= 'Z' then (c as int - 'A' as int + 'a' as int) as char else c
  }

  /** `` `${day}`.toLowerCase().replaceAll(' ', '-') ``. */
  function Slug(s: string): (k: string)
    ensures |k| == |s|
    ensures forall i :: 0 <= i < |s| ==> k[i] == if s[i] == ' ' then '-' else Lower(s[i])
  {
    if s == [] then [] else [if s[0] == ' ' then '-' else Lower(s[0])] + Slug(s[1..])
  }

  /** A key has no spaces and no capitals, and re-slugging it changes nothing. */
  lemma SlugClean(s: string)
    ensures ' ' !in Slug(s)
    ensures forall i :: 0 <= i < |s| ==> !('A' <= Slug(s)[i] <= 'Z')
    ensures Slug(Slug(s)) == Slug(s)
  {
    var k := Slug(s);
    forall i | 0 <= i < |k| ensures k[i] != ' ' {
    }
  }

  /** `parsedData.slice(-5)`: the last five days, or all of them when there are fewer. */
  function Window<T>(s: seq<T>): (w: seq<T>)
    ensures |w| == if |s| < 5 then |s| else 5
    ensures w == s[|s| - |w|..]
  {
    if |s| <= 5 then s else s[|s| - 5..]
  }

  /** The key of an enriched day. */
  function XataId(env: Env, dayData: Row): string {
    Slug(env.formatDay(Get(dayData, "Date")))
  }

  /** The columns written for an enriched day, in both the `update` and the `create` payloads. */
  function EntityOf(env: Env, dayData: Row): (e: Entity)
    ensures |e.flows| == |StoredTickers|
  {
    var date := Get(dayData, "Date");
    Entity(env.formatDay(date), env.closeOfBusiness(date),
      seq(|StoredTickers|, i requires 0 <= i < |StoredTickers| => env.cleanFlow(Get(dayData, StoredTickers[i]))),
      env.cleanFlow(Get(dayData, "Total")), dayData)
  }

  /** `upsert({ where, update, create })`: update the row under `where`, or create one. */
  function Upserted(rows: map<string, Entity>, where: string, update: Entity, create: CreateInput): (r: map<string, Entity>)
    ensures where in rows ==> r == rows[where := update]
    ensures where !in rows ==> r == rows[create.xataId := create.data]
  {
    if where in rows then rows[where := update] else rows[create.xataId := create.data]
  }

  /** With identical payloads under the same key, an upsert is a plain write, present or not. */
  lemma UpsertIsWrite(rows: map<string, Entity>, key: string, e: Entity)
    ensures Upserted(rows, key, e, CreateInput(key, e)) == rows[key := e]
  {
  }

  /** The store after upserting `days` in order onto `rows`. */
  function Persisted(env: Env, rows: map<string, Entity>, days: seq<Row>): map<string, Entity> {
    if days == [] then rows
    else
      var last := days[|days| - 1];
      Persisted(env, rows, days[..|days| - 1])[XataId(env, last) := EntityOf(env, last)]
  }

  /** What the upserts of `days` write: each key holds the entity of its last day. */
  function Written(env: Env, days: seq<Row>): (w: map<string, Entity>)
    ensures forall k :: k in w <==> exists i :: 0 <= i < |days| && XataId(env, days[i]) == k
  {
    if days == [] then map[]
    else
      var last := days[|days| - 1];
      var w := Written(env, days[..|days| - 1]);
      assert forall i :: 0 <= i < |days| - 1 ==> days[..|days| - 1][i] == days[i];
      w[XataId(env, last) := EntityOf(env, last)]
  }

  lemma OverrideWrite(a: map<string, Entity>, b: map<string, Entity>, k: string, e: Entity)
    ensures (a + b)[k := e] == a + b[k := e]
  {
  }

  /** Upserting a list of days overrides the store with what they write, and nothing else. */
  lemma {:induction false} PersistedIsOverride(env: Env, rows: map<string, Entity>, days: seq<Row>)
    ensures Persisted(env, rows, days) == rows + Written(env, days)
  {
    if days != [] {
      var init := days[..|days| - 1];
      var last := days[|days| - 1];
      PersistedIsOverride(env, rows, init);
      OverrideWrite(rows, Written(env, init), XataId(env, last), EntityOf(env, last));
    }
  }

  /** Re-running the job on the same days leaves the store as the first run left it. */
  lemma PersistedIdempotent(env: Env, rows: map<string, Entity>, days: seq<Row>)
    ensures Persisted(env, Persisted(env, rows, days), days) == Persisted(env, rows, days)
  {
    PersistedIsOverride(env, rows, days);
    PersistedIsOverride(env, Persisted(env, rows, days), days);
  }

  /** No key is deleted, and a key no day maps to keeps its entity. */
  lemma PersistedUntouched(env: Env, rows: map<string, Entity>, days: seq<Row>, k: string)
    ensures k in rows ==> k in Persisted(env, rows, days)
    ensures (forall i :: 0 <= i < |days| ==> XataId(env, days[i]) != k) ==>
      (k in Persisted(env, rows, days) <==> k in rows) &&
      (k in rows ==> Persisted(env, rows, days)[k] == rows[k])
  {
    PersistedIsOverride(env, rows, days);
  }

  /**
   * A day that is the last of its key is stored under that key with the columns of that
   * day: `total` is `cleanFlow(Total)` of the day, not a sum of its flows.
   */
  lemma {:induction false} PersistedDay(env: Env, rows: map<string, Entity>, days: seq<Row>, i: nat)
    requires i < |days| && forall j :: i < j < |days| ==> XataId(env, days[j]) != XataId(env, days[i])
    ensures var k := XataId(env, days[i]); var p := Persisted(env, rows, days);
      k in p && p[k] == EntityOf(env, days[i]) &&
      p[k].total == env.cleanFlow(Get(days[i], "Total")) && p[k].raw == days[i] &&
      forall t :: 0 <= t < |StoredTickers| ==> p[k].flows[t] == env.cleanFlow(Get(days[i], StoredTickers[t]))
  {
    var n := |days| - 1;
    if i < n {
      PersistedDay(env, rows, days[..n], i);
      assert XataId(env, days[n]) != XataId(env, days[i]);
    }
  }

  /** The store the job writes to: a map keyed by `xata_id`. */
  class FlowStore {
    var rows: map<string, Entity>

    constructor(initial: map<string, Entity>)
      ensures rows == initial
    {
      rows := initial;
    }

    method Upsert(where: string, update: Entity, create: CreateInput)
      modifies this
      ensures rows == Upserted(old(rows), where, update, create)
    {
      if where in rows {
        rows := rows[where := update];
      } else {
        rows := rows[create.xataId := create.data];
      }
    }
  }

  /**
   * The job from `parsedData` on: an empty parse stops before any write; otherwise the
   * window is upserted day by day and the key of the latest day is notified.
   */
  method Run(env: Env, parsedData: seq<Row>, store: FlowStore) returns (outcome: Outcome)
    modifies store
    ensures parsedData == [] ==> outcome == EmptyData && store.rows == old(store.rows)
    ensures parsedData != [] ==>
      store.rows == Persisted(env, old(store.rows), Window(parsedData)) &&
      outcome == Done(XataId(env, Window(parsedData)[|Window(parsedData)| - 1])) &&
      outcome.notified in store.rows
  {
    if |parsedData| == 0 {
      return EmptyData;
    }
    var latestDaysFlows := Window(parsedData);
    var dayIndex := 0;
    while dayIndex < |latestDaysFlows|
      invariant 0 <= dayIndex <= |latestDaysFlows|
      invariant store.rows == Persisted(env, old(store.rows), latestDaysFlows[..dayIndex])
    {
      var dayData := latestDaysFlows[dayIndex];
      var xataId := XataId(env, dayData);
      store.Upsert(xataId, EntityOf(env, dayData), CreateInput(xataId, EntityOf(env, dayData)));
      assert latestDaysFlows[..dayIndex + 1][..dayIndex] == latestDaysFlows[..dayIndex];
      dayIndex := dayIndex + 1;
    }
    assert latestDaysFlows[..dayIndex] == latestDaysFlows;
    var last := parsedData[|parsedData| - 1];
    outcome := Done(XataId(env, last));
  }
}
