/**
  The time-to-live loading cache (`LoadingCache` of cache.py). The table maps
  each key to its value and the time at which that value goes stale. The clock
  is read twice by `get`: once (`now`) to test freshness and once (`now2`,
  after the loader has run) to stamp the new entry. The loader is an oracle:
  `load` is what it returns or raises if it is invoked during this call.
*/
module Cache {
  import opened Wrappers

  type Table<K, V> = map<K, (V, int)>

  /** An entry is served only while the clock is strictly before its expiry. */
  predicate IsFresh<K, V>(table: Table<K, V>, key: K, now: int)
  {
    key in table && now < table[key].1
  }

  /** What one call of `get` returns, the table it leaves, and whether it invoked the loader. */
  datatype Step<K, V, E> = Step(result: Result<V, E>, table: Table<K, V>, loaded: bool)

  /** The specification of `get`. A failed load raises before the store. */
  function GetStep<K, V, E>(table: Table<K, V>, ttlSecs: int, key: K, now: int, load: Result<V, E>, now2: int): Step<K, V, E>
  {
    if IsFresh(table, key, now) then
      Step(Success(table[key].0), table, false)
    else if load.Failure? then
      Step(load, table, true)
    else
      Step(load, table[key := (load.value, now2 + ttlSecs)], true)
  }

  class LoadingCache<K(==), V, E> {
    var table: Table<K, V>
    const ttlSecs: int
    /** The keys the loader has been invoked with, in call order. */
    ghost var loaderCalls: seq<K>

    constructor (ttlSecs: int)
      ensures this.ttlSecs == ttlSecs && table == map[] && loaderCalls == []
    {
      this.ttlSecs := ttlSecs;
      table := map[];
      loaderCalls := [];
    }

    method Get(key: K, now: int, load: Result<V, E>, now2: int) returns (r: Result<V, E>)
      modifies this
      ensures var s := GetStep(old(table), ttlSecs, key, now, load, now2);
              r == s.result && table == s.table &&
              loaderCalls == old(loaderCalls) + (if s.loaded then [key] else [])
    {
      if key in table {
        var (value, expiry) := table[key];
        if now < expiry {
          return Success(value);
        }
      }
      loaderCalls := loaderCalls + [key];
      r := load;
      if load.Success? {
        table := table[key := (load.value, now2 + ttlSecs)];
      }
    }
  }

  /** A fresh entry is returned as stored; the loader is not called and the table is unchanged. */
  lemma HitServesStoredValue<K, V, E>(table: Table<K, V>, ttlSecs: int, key: K, now: int, load: Result<V, E>, now2: int)
    requires key in table && now < table[key].1
    ensures var s := GetStep(table, ttlSecs, key, now, load, now2);
            !s.loaded && s.result == Success(table[key].0) && s.table == table
  {
  }

  /**
    An absent or stale key calls the loader exactly once; its value is both
    returned and stored with expiry `now2 + ttlSecs`.
  */
  lemma MissLoadsAndStores<K, V, E>(table: Table<K, V>, ttlSecs: int, key: K, now: int, v: V, now2: int)
    requires key !in table || table[key].1 <= now
    ensures var s := GetStep<K, V, E>(table, ttlSecs, key, now, Success(v), now2);
            s.loaded && s.result == Success(v) &&
            key in s.table && s.table[key] == (v, now2 + ttlSecs)
  {
  }

  /** Freshness is strict: at the expiry instant the entry is reloaded. */
  lemma ExpiryInstantIsStale<K, V, E>(table: Table<K, V>, ttlSecs: int, key: K, load: Result<V, E>, now2: int)
    requires key in table
    ensures GetStep(table, ttlSecs, key, table[key].1, load, now2).loaded
  {
  }

  /** `get` touches at most the entry of its own key. */
  lemma OtherKeysUntouched<K, V, E>(table: Table<K, V>, ttlSecs: int, key: K, now: int, load: Result<V, E>, now2: int, other: K)
    requires other != key
    ensures var s := GetStep(table, ttlSecs, key, now, load, now2);
            (other in s.table <==> other in table) &&
            (other in table ==> s.table[other] == table[other])
  {
  }

  /** A failing loader leaves the table, stale entry included, as it was; the failure is passed on. */
  lemma FailedLoadKeepsTable<K, V, E>(table: Table<K, V>, ttlSecs: int, key: K, now: int, e: E, now2: int)
    requires !IsFresh(table, key, now)
    ensures var s := GetStep(table, ttlSecs, key, now, Failure(e), now2);
            s.loaded && s.result == Failure(e) && s.table == table
  {
  }

  /**
    Two successive gets of one key: after a load stored at `now2`, a get at
    `later` calls the loader again exactly when `later >= now2 + ttlSecs`.
  */
  lemma SecondGet<K, V, E>(table: Table<K, V>, ttlSecs: int, key: K, now: int, v: V, now2: int,
                          later: int, load: Result<V, E>, later2: int)
    requires !IsFresh(table, key, now)
    ensures var first := GetStep<K, V, E>(table, ttlSecs, key, now, Success(v), now2);
            var second := GetStep(first.table, ttlSecs, key, later, load, later2);
            (second.loaded <==> later >= now2 + ttlSecs) &&
            (!second.loaded ==> second.result == Success(v))
  {
  }

  /** One call of `get`, with the clock readings and the loader's answer it sees. */
  datatype Request<K, V, E> = Request(key: K, now: int, load: Result<V, E>, now2: int)

  /** The table after a series of gets. */
  function After<K, V, E>(table: Table<K, V>, ttlSecs: int, reqs: seq<Request<K, V, E>>): Table<K, V>
    decreases |reqs|
  {
    if reqs == [] then table
    else
      var r := reqs[0];
      After(GetStep(table, ttlSecs, r.key, r.now, r.load, r.now2).table, ttlSecs, reqs[1..])
  }

  /** How many times a series of gets invokes the loader. */
  function LoaderCalls<K, V, E>(table: Table<K, V>, ttlSecs: int, reqs: seq<Request<K, V, E>>): nat
    decreases |reqs|
  {
    if reqs == [] then 0
    else
      var r := reqs[0];
      var s := GetStep(table, ttlSecs, r.key, r.now, r.load, r.now2);
      (if s.loaded then 1 else 0) + LoaderCalls(s.table, ttlSecs, reqs[1..])
  }

  /** The wall clock never goes back, within a call or between calls. */
  predicate ClockNeverGoesBack<K, V, E>(reqs: seq<Request<K, V, E>>)
  {
    (forall i :: 0 <= i < |reqs| ==> reqs[i].now <= reqs[i].now2) &&
    (forall i, j :: 0 <= i < j < |reqs| ==> reqs[i].now2 <= reqs[j].now)
  }

  /**
    With a TTL of zero or less (such as the -1 the EC2 provider passes) and a
    clock that never goes back, every get calls the loader: nothing is ever
    served from the table.
  */
  lemma {:induction false} NonPositiveTtlAlwaysLoads<K, V, E>(table: Table<K, V>, ttlSecs: int, start: int, reqs: seq<Request<K, V, E>>)
    requires ttlSecs <= 0
    requires ClockNeverGoesBack(reqs)
    requires forall k :: k in table ==> table[k].1 <= start
    requires forall i :: 0 <= i < |reqs| ==> start <= reqs[i].now
    ensures LoaderCalls(table, ttlSecs, reqs) == |reqs|
    decreases |reqs|
  {
    if reqs != [] {
      var r := reqs[0];
      var s := GetStep(table, ttlSecs, r.key, r.now, r.load, r.now2);
      assert s.loaded;
      forall k | k in s.table
        ensures s.table[k].1 <= r.now2
      {
        if k != r.key || r.load.Failure? {
          assert s.table[k] == table[k];
        }
      }
      var rest := reqs[1..];
      assert forall i :: 0 <= i < |rest| ==> rest[i] == reqs[i + 1];
      NonPositiveTtlAlwaysLoads(s.table, ttlSecs, r.now2, rest);
    }
  }

  /** Gets that all find `key` fresh never call the loader and leave the table alone. */
  lemma {:induction false} FreshKeyNeverLoads<K, V, E>(table: Table<K, V>, ttlSecs: int, key: K, reqs: seq<Request<K, V, E>>)
    requires forall i :: 0 <= i < |reqs| ==> reqs[i].key == key && IsFresh(table, key, reqs[i].now)
    ensures LoaderCalls(table, ttlSecs, reqs) == 0 && After(table, ttlSecs, reqs) == table
    decreases |reqs|
  {
    if reqs != [] {
      var rest := reqs[1..];
      assert forall i :: 0 <= i < |rest| ==> rest[i] == reqs[i + 1];
      FreshKeyNeverLoads(table, ttlSecs, key, rest);
    }
  }

  /**
    With TTL T, after a get that loads and stores at `now2`, any number of
    further gets of the same key before `now2 + T` add no loader call.
  */
  lemma LoadsOnceWithinTtl<K, V, E>(table: Table<K, V>, ttlSecs: int, key: K, reqs: seq<Request<K, V, E>>)
    requires |reqs| >= 1 && reqs[0].key == key && reqs[0].load.Success?
    requires !IsFresh(table, key, reqs[0].now)
    requires forall i :: 1 <= i < |reqs| ==> reqs[i].key == key && reqs[i].now < reqs[0].now2 + ttlSecs
    ensures LoaderCalls(table, ttlSecs, reqs) == 1
  {
    var r := reqs[0];
    var s := GetStep(table, ttlSecs, key, r.now, r.load, r.now2);
    var rest := reqs[1..];
    assert forall i :: 0 <= i < |rest| ==> rest[i] == reqs[i + 1];
    FreshKeyNeverLoads(s.table, ttlSecs, key, rest);
  }
}
