// The buffer of uncacheable answers: aggregation with a cap on distinct keys.
module Uncacheable {
  import opened Options
  import opened Results

  const DEFAULT_MAX_KEYS := 2048

  // client, domain, qtype, reason
  type DetailKey = (string, string, string, Outcome)

  datatype Detail = Detail(hits: nat, lastTtl: Option<int>)

  datatype Skip = Skip(key: DetailKey, ttl: Option<int>)

  // A tracked key always counts; a new one only while there is room.
  function AfterSkip(data: map<DetailKey, Detail>, maxKeys: nat, e: Skip): map<DetailKey, Detail> {
    if e.key in data then data[e.key := Detail(data[e.key].hits + 1, e.ttl)]
    else if |data| < maxKeys then data[e.key := Detail(1, e.ttl)]
    else data
  }

  class UncacheableBuffer {
    const maxKeys: nat
    var data: map<DetailKey, Detail>

    constructor (limit: int := DEFAULT_MAX_KEYS)
      ensures data == map[] && maxKeys == if limit < 1 then 1 else limit
    {
      maxKeys := if limit < 1 then 1 else limit;
      data := map[];
    }

    method Add(client: string, domain: string, qtype: string, reason: Outcome, ttl: Option<int>)
      modifies this
      ensures data == AfterSkip(old(data), maxKeys, Skip((client, domain, qtype, reason), ttl))
    {
      var key := (client, domain, qtype, reason);
      if key in data {
        data := data[key := Detail(data[key].hits + 1, ttl)];
      } else if |data| < maxKeys {
        data := data[key := Detail(1, ttl)];
      }
    }

    method Take() returns (batch: map<DetailKey, Detail>)
      modifies this
      ensures batch == old(data) && data == map[]
    {
      batch := data;
      data := map[];
    }
  }

  function AfterSkips(maxKeys: nat, events: seq<Skip>): map<DetailKey, Detail> {
    if events == [] then map[] else
      AfterSkip(AfterSkips(maxKeys, events[..|events| - 1]), maxKeys, events[|events| - 1])
  }

  // The keys of the events before this one, repeated keys once.
  function KeysBefore(events: seq<Skip>, n: nat): set<DetailKey>
    requires n <= |events|
  {
    set i | 0 <= i < n :: events[i].key
  }

  // The first event with the key comes while fewer than `maxKeys` distinct keys have been seen.
  ghost predicate Admitted(maxKeys: nat, events: seq<Skip>, k: DetailKey) {
    events != [] &&
    var n := |events| - 1;
    Admitted(maxKeys, events[..n], k)
    || (events[n].key == k && k !in KeysBefore(events, n) && |KeysBefore(events, n)| < maxKeys)
  }

  function HitsOf(events: seq<Skip>, k: DetailKey): nat {
    if events == [] then 0 else
      HitsOf(events[..|events| - 1], k) + if events[|events| - 1].key == k then 1 else 0
  }

  function LastTtlOf(events: seq<Skip>, k: DetailKey): Option<int> {
    if events == [] then None
    else if events[|events| - 1].key == k then events[|events| - 1].ttl
    else LastTtlOf(events[..|events| - 1], k)
  }

  // The buffer holds seen keys only: all of them while they are few enough, and as many
  // as it may once they are not.
  ghost predicate Capped(data: map<DetailKey, Detail>, seen: set<DetailKey>, maxKeys: nat) {
    && data.Keys <= seen
    && |data.Keys| <= maxKeys
    && (|seen| <= maxKeys ==> data.Keys == seen)
    && (|seen| >= maxKeys ==> |data.Keys| == maxKeys)
  }

  lemma SkipKeys(data: map<DetailKey, Detail>, maxKeys: nat, e: Skip)
    ensures AfterSkip(data, maxKeys, e).Keys
         == if e.key in data || |data.Keys| >= maxKeys then data.Keys else data.Keys + {e.key}
  {
    assert |data| == |data.Keys|;
  }

  lemma CappedStep(data: map<DetailKey, Detail>, seen: set<DetailKey>, maxKeys: nat, e: Skip)
    requires Capped(data, seen, maxKeys)
    ensures Capped(AfterSkip(data, maxKeys, e), seen + {e.key}, maxKeys)
  {
    SkipKeys(data, maxKeys, e);
    if e.key in seen {
      assert seen + {e.key} == seen;
    } else {
      assert |seen + {e.key}| == |seen| + 1;
    }
  }

  lemma OneMoreKey(events: seq<Skip>)
    requires events != []
    ensures var n := |events| - 1;
            && KeysBefore(events[..n], n) == KeysBefore(events, n)
            && KeysBefore(events, |events|) == KeysBefore(events, n) + {events[n].key}
  {
  }

  lemma {:induction false} CappedKeys(maxKeys: nat, events: seq<Skip>)
    ensures Capped(AfterSkips(maxKeys, events), KeysBefore(events, |events|), maxKeys)
  {
    if events == [] {
    } else {
      var n := |events| - 1;
      CappedKeys(maxKeys, events[..n]);
      OneMoreKey(events);
      CappedStep(AfterSkips(maxKeys, events[..n]), KeysBefore(events, n), maxKeys, events[n]);
    }
  }

  lemma {:induction false} UnseenHits(events: seq<Skip>, k: DetailKey)
    requires k !in KeysBefore(events, |events|)
    ensures HitsOf(events, k) == 0
  {
    if events == [] {
    } else {
      OneMoreKey(events);
      UnseenHits(events[..|events| - 1], k);
    }
  }

  // A key is held exactly when it was admitted, with all of its hits.
  ghost predicate Counts(data: map<DetailKey, Detail>, maxKeys: nat, events: seq<Skip>, k: DetailKey) {
    && (k in data <==> Admitted(maxKeys, events, k))
    && (k in data ==> data[k] == Detail(HitsOf(events, k), LastTtlOf(events, k)))
  }

  lemma CountsStep(data: map<DetailKey, Detail>, maxKeys: nat, events: seq<Skip>, k: DetailKey)
    requires events != []
    requires var n := |events| - 1;
             Counts(data, maxKeys, events[..n], k) && Capped(data, KeysBefore(events, n), maxKeys)
             && (k !in KeysBefore(events, n) ==> HitsOf(events[..n], k) == 0)
    ensures Counts(AfterSkip(data, maxKeys, events[|events| - 1]), maxKeys, events, k)
  {
    var e := events[|events| - 1];
    assert |data| == |data.Keys|;
    if e.key != k {
      assert k in AfterSkip(data, maxKeys, e) <==> k in data;
    } else if k !in data && |data| < maxKeys {
      assert AfterSkip(data, maxKeys, e)[k] == Detail(1, e.ttl);
    }
  }

  // Between two flushes the buffer never holds more than `maxKeys` keys; it holds a key
  // exactly when the key was admitted, and then with every one of its hits and its
  // latest TTL. Keys beyond the cap are dropped whole, never undercounted.
  lemma {:induction false} CappedCounts(maxKeys: nat, events: seq<Skip>, k: DetailKey)
    ensures |AfterSkips(maxKeys, events)| <= maxKeys
    ensures Counts(AfterSkips(maxKeys, events), maxKeys, events, k)
  {
    CappedKeys(maxKeys, events);
    assert |AfterSkips(maxKeys, events)| == |AfterSkips(maxKeys, events).Keys|;
    if events != [] {
      var n := |events| - 1;
      CappedCounts(maxKeys, events[..n], k);
      CappedKeys(maxKeys, events[..n]);
      OneMoreKey(events);
      if k !in KeysBefore(events, n) {
        UnseenHits(events[..n], k);
      }
      CountsStep(AfterSkips(maxKeys, events[..n]), maxKeys, events, k);
    }
  }
}
