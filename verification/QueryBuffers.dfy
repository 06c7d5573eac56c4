// The query-log buffer, its mutable counters, and the table it flushes into.
module QueryBuffers {
  import opened Aggregation
  import opened Results

  type QueryKey = (string, string, string)

  datatype QueryEvent = QueryEvent(client: string, domain: string, qtype: string, action: Result, response: string)

  datatype QueryCount = QueryCount(count: nat, lastAction: Result, lastResponse: string)

  // Counts add up, the latest action and response win, nothing is ever purged.
  const QUERIES: Scheme<QueryEvent, QueryKey, QueryCount> := Scheme(
    (e: QueryEvent) => (e.client, e.domain, e.qtype),
    (e: QueryEvent) => QueryCount(1, e.action, e.response),
    (a: QueryCount, b: QueryCount) => QueryCount(a.count + b.count, b.lastAction, b.lastResponse),
    (k: QueryKey, now: int) => false)

  lemma QueriesAssociative()
    ensures Associative(QUERIES)
  {
  }

  // `_Counter`
  class Counter {
    var count: nat
    var lastAction: Result
    var lastResponse: string

    constructor (count: nat, lastAction: Result, lastResponse: string)
      ensures Value() == QueryCount(count, lastAction, lastResponse)
    {
      this.count, this.lastAction, this.lastResponse := count, lastAction, lastResponse;
    }

    function Value(): QueryCount
      reads this
    {
      QueryCount(count, lastAction, lastResponse)
    }

    method Bump(action: Result, response: string)
      modifies this
      ensures Value() == QueryCount(old(count) + 1, action, response)
    {
      count := count + 1;
      lastAction := action;
      lastResponse := response;
    }
  }

  type Counters = map<QueryKey, Counter>

  // No two keys share a counter object.
  ghost predicate Separate(data: Counters) {
    forall j, k | j in data && k in data && j != k :: data[j] != data[k]
  }

  ghost function Objects(data: Counters): set<Counter> {
    set k | k in data :: data[k]
  }

  ghost function Values(data: Counters): map<QueryKey, QueryCount>
    reads Objects(data)
  {
    map k | k in data :: data[k].Value()
  }

  class QueryBuffer {
    var data: Counters
    ghost var pending: map<QueryKey, QueryCount>  // what the counters stand for

    ghost predicate Valid()
      reads this, Objects(data)
    {
      Separate(data) && pending == Values(data)
    }

    constructor ()
      ensures Valid() && data == map[] && pending == map[]
    {
      data := map[];
      pending := map[];
    }

    method Add(e: QueryEvent)
      requires Valid()
      modifies this, Objects(data)
      ensures Valid()
      ensures pending == AddEvent(QUERIES, old(pending), e)
      ensures fresh(Objects(data) - old(Objects(data)))
    {
      if (e.client, e.domain, e.qtype) in data {
        AddKnown(e);
      } else {
        AddNew(e);
      }
    }

    method AddNew(e: QueryEvent)
      requires Valid() && (e.client, e.domain, e.qtype) !in data
      modifies this
      ensures Valid()
      ensures pending == AddEvent(QUERIES, old(pending), e)
      ensures fresh(Objects(data) - old(Objects(data)))
    {
      var counter := new Counter(1, e.action, e.response);
      data := data[(e.client, e.domain, e.qtype) := counter];
      pending := AddEvent(QUERIES, pending, e);
    }

    method AddKnown(e: QueryEvent)
      requires Valid() && (e.client, e.domain, e.qtype) in data
      modifies this`pending, data[(e.client, e.domain, e.qtype)]
      ensures Valid()
      ensures pending == AddEvent(QUERIES, old(pending), e)
    {
      var key := (e.client, e.domain, e.qtype);
      assert forall k | k in data && k != key :: data[k] != data[key];
      data[key].Bump(e.action, e.response);
      pending := AddEvent(QUERIES, pending, e);
    }

    // The swap at the start of `flush`.
    method Take() returns (snapshot: Counters)
      requires Valid()
      modifies this
      ensures Valid() && data == map[] && pending == map[]
      ensures snapshot == old(data) && Separate(snapshot)
      ensures Values(snapshot) == old(pending)
    {
      snapshot := data;
      data := map[];
      pending := map[];
    }
  }

  // When a row was first and last written.
  datatype Seen = Seen(first: int, last: int)

  // Writing row i at `clock(i)`: a new key gets both stamps, a known one a new last stamp.
  function Stamped(seen: map<QueryKey, Seen>, batch: seq<(QueryKey, QueryCount)>,
                   clock: nat -> int): map<QueryKey, Seen> {
    if batch == [] then seen else
      var i := |batch| - 1;
      var known, key := Stamped(seen, batch[..i], clock), batch[i].0;
      known[key := Seen(if key in known then known[key].first else clock(i), clock(i))]
  }

  // A written key keeps its first stamp and its last one is the time of its row; any other
  // key keeps both.
  lemma {:induction false} StampsExact(seen: map<QueryKey, Seen>, batch: seq<(QueryKey, QueryCount)>, clock: nat -> int,
                                       k: QueryKey)
    requires DistinctRows(batch)
    ensures k !in MapOf(batch) ==> (k in Stamped(seen, batch, clock) <==> k in seen)
    ensures k !in MapOf(batch) && k in seen ==> Stamped(seen, batch, clock)[k] == seen[k]
    ensures k in MapOf(batch) ==>
              exists i | 0 <= i < |batch| :: batch[i].0 == k && k in Stamped(seen, batch, clock)
                && Stamped(seen, batch, clock)[k] == Seen(if k in seen then seen[k].first else clock(i), clock(i))
  {
    if batch == [] {
    } else {
      var n := |batch| - 1;
      StampsExact(seen, batch[..n], clock, k);
      if batch[n].0 != k && k in MapOf(batch) {
        var i :| 0 <= i < n && batch[..n][i].0 == k
                 && Stamped(seen, batch[..n], clock)[k]
                    == Seen(if k in seen then seen[k].first else clock(i), clock(i));
        assert batch[i].0 == k;
      }
    }
  }

  // The stamps of a whole batch, written in some order.
  ghost predicate Written(seen: map<QueryKey, Seen>, after: map<QueryKey, Seen>, batch: map<QueryKey, QueryCount>,
                          clock: nat -> int)
  {
    exists rows :: WrittenAs(seen, after, batch, clock, rows)
  }

  ghost predicate WrittenAs(seen: map<QueryKey, Seen>, after: map<QueryKey, Seen>, batch: map<QueryKey, QueryCount>,
                            clock: nat -> int, rows: seq<(QueryKey, QueryCount)>)
  {
    DistinctRows(rows) && MapOf(rows) == batch && after == Stamped(seen, rows, clock)
  }

  lemma WrittenNothing(seen: map<QueryKey, Seen>, clock: nat -> int)
    ensures Written(seen, seen, map[], clock)
  {
    assert WrittenAs(seen, seen, map[], clock, []);
  }

  class QueryLog {
    var rows: map<QueryKey, QueryCount>
    var seen: map<QueryKey, Seen>

    ghost predicate Valid()
      reads this
    {
      seen.Keys == rows.Keys
    }

    constructor ()
      ensures Valid() && rows == map[] && seen == map[]
    {
      rows, seen := map[], map[];
    }

    // `record_queries`: one transaction of upserts, row i at `clock(i)`.
    method RecordQueries(batch: seq<(QueryKey, QueryCount)>, clock: nat -> int)
      requires DistinctRows(batch) && Valid()
      modifies this
      ensures Valid()
      ensures rows == Merge(QUERIES, old(rows), MapOf(batch))
      ensures seen == Stamped(old(seen), batch, clock)
    {
      ghost var before, stamps := rows, seen;
      for i := 0 to |batch|
        invariant Valid()
        invariant rows == UpsertAll(QUERIES, before, batch[..i])
        invariant seen == Stamped(stamps, batch[..i], clock)
      {
        assert batch[..i + 1][..i] == batch[..i];
        var key, row := batch[i].0, batch[i].1;
        if key in rows {
          rows := rows[key := QueryCount(rows[key].count + row.count, row.lastAction, row.lastResponse)];
          seen := seen[key := Seen(seen[key].first, clock(i))];
        } else {
          rows := rows[key := row];
          seen := seen[key := Seen(clock(i), clock(i))];
        }
      }
      assert batch[..|batch|] == batch;
      UpsertAllMerges(QUERIES, before, batch);
    }
  }

  // The rows of a swapped-out snapshot, in some order.
  method SnapshotRows(snapshot: Counters) returns (rows: seq<(QueryKey, QueryCount)>)
    ensures DistinctRows(rows) && MapOf(rows) == Values(snapshot)
  {
    rows := [];
    var rest := snapshot.Keys;
    while rest != {}
      invariant rest <= snapshot.Keys
      invariant DistinctRows(rows) && MapOf(rows) == Values(snapshot) - rest
      decreases rest
    {
      var k :| k in rest;
      OneMoreRow(Values(snapshot), rest, rows, k);
      rest, rows := rest - {k}, rows + [(k, snapshot[k].Value())];
    }
  }

  method AddAll(buffer: QueryBuffer, events: seq<QueryEvent>)
    requires buffer.Valid() && buffer.pending == map[] && buffer.data == map[]
    modifies buffer
    ensures buffer.Valid() && buffer.pending == Fold(QUERIES, events)
  {
    for i := 0 to |events|
      invariant buffer.Valid()
      invariant fresh(Objects(buffer.data))
      invariant buffer.pending == Fold(QUERIES, events[..i])
    {
      assert events[..i + 1][..i] == events[..i];
      buffer.Add(events[i]);
    }
    assert events[..|events|] == events;
  }

  // One `flush`, other threads adding events between the swap and the write: the write
  // sees the counts as they were at the swap, and the adds all go to the new buffer.
  // `ok` says whether the write succeeds.
  method FlushDuringAdds(buffer: QueryBuffer, log: QueryLog, meanwhile: seq<QueryEvent>, ok: bool, clock: nat -> int)
    requires buffer.Valid() && log.Valid()
    modifies buffer, Objects(buffer.data), log
    ensures buffer.Valid() && log.Valid()
    ensures buffer.pending == Fold(QUERIES, meanwhile)
    ensures log.rows == if ok then Merge(QUERIES, old(log.rows), old(buffer.pending)) else old(log.rows)
    ensures if ok then Written(old(log.seen), log.seen, old(buffer.pending), clock) else log.seen == old(log.seen)
  {
    var snapshot := buffer.Take();
    AddAll(buffer, meanwhile);
    WriteSnapshot(log, snapshot, ok, clock);
  }

  method WriteSnapshot(log: QueryLog, snapshot: Counters, ok: bool, clock: nat -> int)
    requires log.Valid()
    modifies log
    ensures log.Valid()
    ensures if ok then Written(old(log.seen), log.seen, old(Values(snapshot)), clock) else log.seen == old(log.seen)
    ensures log.rows == if ok then Merge(QUERIES, old(log.rows), old(Values(snapshot))) else old(log.rows)
  {
    if snapshot == map[] {
      MergeEmpty(QUERIES, log.rows);
      WrittenNothing(log.seen, clock);
      return;
    }
    var rows := SnapshotRows(snapshot);
    if ok {
      ghost var before := log.seen;
      log.RecordQueries(rows, clock);
      assert WrittenAs(before, log.seen, old(Values(snapshot)), clock, rows);
    }
  }

  // The table, the batch in flight and the buffer together say, for each (client, name,
  // type), how many queries there were and what the latest one did, whatever the flush
  // schedule, as long as every write succeeds.
  lemma {:induction false} QueryTotals(steps: seq<Step<QueryEvent>>, k: QueryKey)
    requires forall step | step in steps :: step.Deliver? ==> step.ok
    ensures var held := Held(QUERIES, After(QUERIES, steps));
            && (k in held <==> Occurrences(Events(steps), k) > 0)
            && (k in held ==> held[k].count == Occurrences(Events(steps), k)
                              && held[k].lastAction == Latest(Events(steps), k).action
                              && held[k].lastResponse == Latest(Events(steps), k).response)
  {
    QueriesAssociative();
    FlushScheduleIndependence(QUERIES, steps, k);
    FoldCounts(Events(steps), k);
  }

  function Occurrences(events: seq<QueryEvent>, k: QueryKey): nat {
    |SelectEvents(events, k)|
  }

  function SelectEvents(events: seq<QueryEvent>, k: QueryKey): seq<QueryEvent> {
    if events == [] then [] else
      var e := events[|events| - 1];
      SelectEvents(events[..|events| - 1], k) + if (e.client, e.domain, e.qtype) == k then [e] else []
  }

  function Latest(events: seq<QueryEvent>, k: QueryKey): QueryEvent
    requires Occurrences(events, k) > 0
  {
    SelectEvents(events, k)[Occurrences(events, k) - 1]
  }

  lemma {:induction false} FoldCounts(events: seq<QueryEvent>, k: QueryKey)
    ensures k in Fold(QUERIES, events) <==> Occurrences(events, k) > 0
    ensures k in Fold(QUERIES, events) ==>
              Fold(QUERIES, events)[k] == QueryCount(Occurrences(events, k), Latest(events, k).action,
                                                     Latest(events, k).response)
  {
    if events == [] {
    } else {
      FoldCounts(events[..|events| - 1], k);
    }
  }
}
