// Counters bucketed by hour: client statistics and cache outcomes, with their tables.
module HourlyStats {
  import opened Options
  import opened Aggregation
  import Results

  const RETENTION_HOURS := 500
  const OUTCOME_RETENTION_HOURS := 100

  // `_floor_hour`, with times in seconds and hours counted from the same origin.
  function HourOf(now: int): int {
    now / 3600
  }

  // `hour_start < now - timedelta(hours=RETENTION_HOURS)`
  predicate HourExpired(hour: int, now: int) {
    hour * 3600 < now - RETENTION_HOURS * 3600
  }

  // The same with the shorter window of the cache-outcome table.
  predicate OutcomeHourExpired(hour: int, now: int) {
    hour * 3600 < now - OUTCOME_RETENTION_HOURS * 3600
  }

  // Hours are whole: an hour holds exactly its own 3600 seconds.
  lemma HourExact(now: int, hour: int)
    ensures HourOf(now) == hour <==> hour * 3600 <= now < (hour + 1) * 3600
  {
  }

  // A row outlives every purge up to 499 hours after the moment it counts (99 for a cache
  // outcome), and none from 501 hours on (101).
  lemma KeptForWindow(now: int, at: int)
    ensures now <= at <= now + 499 * 3600 ==> !HourExpired(HourOf(now), at)
    ensures at >= now + 501 * 3600 ==> HourExpired(HourOf(now), at)
    ensures now <= at <= now + 99 * 3600 ==> !OutcomeHourExpired(HourOf(now), at)
    ensures at >= now + 101 * 3600 ==> OutcomeHourExpired(HourOf(now), at)
  {
  }

  // ----- Client statistics -----

  const FOREIGN_CLIENT := "foreign"

  datatype StatEvent = StatEvent(client: string, result: Results.Result, now: int)

  type StatKey = (int, string)

  datatype StatRow = StatRow(total: nat, forwarded: nat, cached: nat, overridden: nat, local: nat,
                             denied: nat, blocked: nat, servfail: nat, foreign: nat)

  datatype StatColumn = Total | Forwarded | Cached | Overridden | Local | Denied | Blocked | Servfail | Foreign

  // `_RESULT_COLUMNS`
  function Column(result: Results.Result): Option<StatColumn> {
    match result
    case Forward => Some(Forwarded)
    case ForwardCache => Some(Cached)
    case Override => Some(Overridden)
    case Local => Some(Local)
    case Deny => Some(Denied)
    case Blocklist => Some(Blocked)
    case Servfail => Some(Servfail)
    case Foreign => Some(Foreign)
    case Nodata => None
  }

  type Counter = map<StatColumn, nat>

  function Get(counter: Counter, column: StatColumn): nat {
    if column in counter then counter[column] else 0
  }

  function RowFrom(f: StatColumn -> nat): StatRow {
    StatRow(f(Total), f(Forwarded), f(Cached), f(Overridden), f(Local), f(Denied), f(Blocked), f(Servfail), f(Foreign))
  }

  // The row a flush builds from one counter dict.
  function RowOf(counter: Counter): StatRow {
    RowFrom(x => Get(counter, x))
  }

  function Bumped(counter: Counter, column: StatColumn): Counter {
    counter[column := Get(counter, column) + 1]
  }

  function Hit(column: Option<StatColumn>, c: StatColumn): nat {
    if column == Some(c) then 1 else 0
  }

  // A row counting one query under the given column, if any.
  function OneIn(column: Option<StatColumn>): StatRow {
    RowFrom(x => if x == Total then 1 else Hit(column, x))
  }

  function OneQuery(result: Results.Result): StatRow {
    OneIn(Column(result))
  }

  // `counter["total"] += 1`, then the column's count if there is one.
  function Counted(counter: Counter, column: Option<StatColumn>): Counter {
    var c := Bumped(counter, Total);
    if column.Some? then Bumped(c, column.value) else c
  }

  lemma CountedGet(counter: Counter, column: Option<StatColumn>, x: StatColumn)
    requires column != Some(Total)
    ensures Get(Counted(counter, column), x) == Get(counter, x) + if x == Total then 1 else Hit(column, x)
  {
  }

  lemma RowFromSum(f: StatColumn -> nat, g: StatColumn -> nat, h: StatColumn -> nat)
    requires forall x :: f(x) == g(x) + h(x)
    ensures RowFrom(f) == PlusRow(RowFrom(g), RowFrom(h))
  {
  }

  // Counting a query in the dict adds its row.
  lemma CountedRow(counter: Counter, column: Option<StatColumn>)
    requires column != Some(Total)
    ensures RowOf(Counted(counter, column)) == PlusRow(RowOf(counter), OneIn(column))
  {
    var f: StatColumn -> nat := x => Get(Counted(counter, column), x);
    var g: StatColumn -> nat := x => Get(counter, x);
    var h: StatColumn -> nat := x => if x == Total then 1 else Hit(column, x);
    forall x
      ensures f(x) == g(x) + h(x)
    {
      CountedGet(counter, column, x);
    }
    RowFromSum(f, g, h);
  }

  lemma ZeroRow(r: StatRow)
    ensures PlusRow(RowOf(map[]), r) == r
  {
  }

  lemma OneInColumns(column: Option<StatColumn>)
    requires column != Some(Total)
    ensures OneIn(column).total == 1
    ensures Columns(OneIn(column)) == if column.Some? then 1 else 0
  {
    match column {
      case None =>
      case Some(c) =>
        match c
        case Total =>
        case Forwarded =>
        case Cached =>
        case Overridden =>
        case Local =>
        case Denied =>
        case Blocked =>
        case Servfail =>
        case Foreign =>
    }
  }

  lemma PlusTotals(a: StatRow, b: StatRow)
    ensures PlusRow(a, b).total == a.total + b.total
    ensures Columns(PlusRow(a, b)) == Columns(a) + Columns(b)
  {
  }

  function PlusRow(a: StatRow, b: StatRow): StatRow {
    StatRow(a.total + b.total, a.forwarded + b.forwarded, a.cached + b.cached, a.overridden + b.overridden,
            a.local + b.local, a.denied + b.denied, a.blocked + b.blocked, a.servfail + b.servfail,
            a.foreign + b.foreign)
  }

  const CLIENT_STATS: Scheme<StatEvent, StatKey, StatRow> := Scheme(
    (e: StatEvent) => (HourOf(e.now), e.client),
    (e: StatEvent) => OneQuery(e.result),
    (a: StatRow, b: StatRow) => PlusRow(a, b),
    (k: StatKey, now: int) => HourExpired(k.0, now))

  lemma ClientStatsCombine()
    ensures Associative(CLIENT_STATS) && Commutative(CLIENT_STATS)
  {
  }

  // Storing a dict that stands for the right row is adding the event to the rows.
  lemma StoreRow(data: map<StatKey, Counter>, e: StatEvent, next: Counter)
    requires RowOf(next) == if CLIENT_STATS.key(e) in data
                            then CLIENT_STATS.plus(RowOf(data[CLIENT_STATS.key(e)]), CLIENT_STATS.one(e))
                            else CLIENT_STATS.one(e)
    ensures MapValues(RowOf, data[CLIENT_STATS.key(e) := next]) == AddEvent(CLIENT_STATS, MapValues(RowOf, data), e)
  {
    UpdateRepresents(CLIENT_STATS, RowOf, data, e, next);
  }

  lemma NextRow(data: map<StatKey, Counter>, e: StatEvent)
    ensures var counter := if CLIENT_STATS.key(e) in data then data[CLIENT_STATS.key(e)] else map[];
            RowOf(Counted(counter, Column(e.result)))
            == if CLIENT_STATS.key(e) in data then CLIENT_STATS.plus(RowOf(counter), CLIENT_STATS.one(e))
               else CLIENT_STATS.one(e)
  {
    var counter := if CLIENT_STATS.key(e) in data then data[CLIENT_STATS.key(e)] else map[];
    CountedRow(counter, Column(e.result));
    ZeroRow(OneQuery(e.result));
  }

  // In a schedule whose writes all come within 499 hours of a query its row is never purged.
  lemma RecentStatRetained(steps: seq<Step<StatEvent>>, e: StatEvent)
    requires forall step | step in steps :: step.Deliver? ==> e.now <= step.now <= e.now + 499 * 3600
    ensures Retained(CLIENT_STATS, steps, (HourOf(e.now), e.client))
  {
    forall step | step in steps && step.Deliver?
      ensures !CLIENT_STATS.expired((HourOf(e.now), e.client), step.now)
    {
      KeptForWindow(e.now, step.now);
    }
  }

  class ClientStatsBuffer {
    var data: map<StatKey, Counter>

    ghost function Pending(): map<StatKey, StatRow>
      reads this
    {
      MapValues(RowOf, data)
    }

    constructor ()
      ensures Pending() == map[]
    {
      data := map[];
    }

    method Add(client: string, result: Results.Result, now: int)
      modifies this
      ensures Pending() == AddEvent(CLIENT_STATS, old(Pending()), StatEvent(client, result, now))
    {
      var key := (HourOf(now), client);
      var column := Column(result);
      ghost var e := StatEvent(client, result, now);
      NextRow(data, e);
      ghost var before := data;
      var counter := if key in data then data[key] else map[];
      counter := Bumped(counter, Total);
      if column.Some? {
        counter := Bumped(counter, column.value);
      }
      data := data[key := counter];
      StoreRow(before, e, counter);
    }

    method AddForeign(now: int)
      modifies this
      ensures Pending() == AddEvent(CLIENT_STATS, old(Pending()), StatEvent(FOREIGN_CLIENT, Results.Foreign, now))
    {
      Add(FOREIGN_CLIENT, Results.Foreign, now);
    }

    method Take() returns (batch: map<StatKey, StatRow>)
      modifies this
      ensures batch == old(Pending()) && Pending() == map[]
    {
      batch := MapValues(RowOf, data);
      data := map[];
    }
  }

  class ClientStatsTable {
    var rows: map<StatKey, StatRow>

    constructor ()
      ensures rows == map[]
    {
      rows := map[];
    }

    // `record_client_stats`: upsert each row, then purge.
    method RecordClientStats(batch: map<StatKey, StatRow>, now: int)
      modifies this
      ensures rows == if batch == map[] then old(rows)
                      else Purge(CLIENT_STATS, Merge(CLIENT_STATS, old(rows), batch), now)
    {
      if batch == map[] {
        return;
      }
      var list := Rows(batch);
      ghost var before := rows;
      for i := 0 to |list|
        invariant rows == UpsertAll(CLIENT_STATS, before, list[..i])
      {
        assert list[..i + 1][..i] == list[..i];
        var key, row := list[i].0, list[i].1;
        rows := rows[key := if key in rows then PlusRow(rows[key], row) else row];
      }
      assert list[..|list|] == list;
      UpsertAllMerges(CLIENT_STATS, before, list);
      rows := map k | k in rows && !HourExpired(k.0, now) :: rows[k];
    }
  }

  function Columns(r: StatRow): nat {
    r.forwarded + r.cached + r.overridden + r.local + r.denied + r.blocked + r.servfail + r.foreign
  }

  // The part of a row's total that no column shows.
  function Unshown(r: StatRow): int {
    r.total - Columns(r)
  }

  // The queries of one hour and client whose result has no column.
  function Uncounted(events: seq<StatEvent>, k: StatKey): nat {
    if events == [] then 0 else
      var e := events[|events| - 1];
      Uncounted(events[..|events| - 1], k)
      + if (HourOf(e.now), e.client) == k && Column(e.result).None? then 1 else 0
  }

  lemma {:induction false} UncountedMeasure(events: seq<StatEvent>, k: StatKey)
    ensures Measure(CLIENT_STATS, Unshown, events, k) == Uncounted(events, k)
  {
    if events == [] {
    } else {
      UncountedMeasure(events[..|events| - 1], k);
      OneInColumns(Column(events[|events| - 1].result));
    }
  }

  lemma FoldColumns(events: seq<StatEvent>, k: StatKey)
    ensures MeasureAt(Unshown, Fold(CLIENT_STATS, events), k) == Uncounted(events, k)
  {
    forall a, b
      ensures Unshown(CLIENT_STATS.plus(a, b)) == Unshown(a) + Unshown(b)
    {
      PlusTotals(a, b);
    }
    FoldMeasure(CLIENT_STATS, Unshown, events, k);
    UncountedMeasure(events, k);
  }

  // The events of one hour and client with a given result.
  function WithResult(events: seq<StatEvent>, k: StatKey, result: Results.Result): nat {
    if events == [] then 0 else
      var e := events[|events| - 1];
      WithResult(events[..|events| - 1], k, result)
      + if (HourOf(e.now), e.client) == k && e.result == result then 1 else 0
  }

  function OfKey(events: seq<StatEvent>, k: StatKey): nat {
    if events == [] then 0 else
      var e := events[|events| - 1];
      OfKey(events[..|events| - 1], k) + if (HourOf(e.now), e.client) == k then 1 else 0
  }

  // Each column shows the queries of its own result and no others.
  function ExactRow(events: seq<StatEvent>, k: StatKey): StatRow {
    StatRow(OfKey(events, k), WithResult(events, k, Results.Forward), WithResult(events, k, Results.ForwardCache),
            WithResult(events, k, Results.Override), WithResult(events, k, Results.Local),
            WithResult(events, k, Results.Deny), WithResult(events, k, Results.Blocklist),
            WithResult(events, k, Results.Servfail), WithResult(events, k, Results.Foreign))
  }

  function RowAt(rows: map<StatKey, StatRow>, k: StatKey): StatRow {
    if k in rows then rows[k] else StatRow(0, 0, 0, 0, 0, 0, 0, 0, 0)
  }

  function Bit(b: bool): nat {
    if b then 1 else 0
  }

  // A query counts under its own result and no other.
  lemma OneQueryCells(r: Results.Result)
    ensures OneQuery(r) == StatRow(1, Bit(r == Results.Forward), Bit(r == Results.ForwardCache),
                                   Bit(r == Results.Override), Bit(r == Results.Local), Bit(r == Results.Deny),
                                   Bit(r == Results.Blocklist), Bit(r == Results.Servfail), Bit(r == Results.Foreign))
  {
    match r
    case Nodata =>
    case Override =>
    case Deny =>
    case Blocklist =>
    case Local =>
    case ForwardCache =>
    case Forward =>
    case Servfail =>
    case Foreign =>
  }

  lemma WithResultMore(events: seq<StatEvent>, k: StatKey, result: Results.Result)
    requires events != []
    ensures var init, e := events[..|events| - 1], events[|events| - 1];
            WithResult(events, k, result)
            == WithResult(init, k, result) + Bit((HourOf(e.now), e.client) == k && e.result == result)
  {
  }

  lemma ExactRowMore(events: seq<StatEvent>, k: StatKey)
    requires events != []
    ensures var init, e := events[..|events| - 1], events[|events| - 1];
            && OfKey(events, k) == OfKey(init, k) + Bit((HourOf(e.now), e.client) == k)
            && ExactRow(events, k)
               == if (HourOf(e.now), e.client) == k then PlusRow(ExactRow(init, k), OneQuery(e.result))
                  else ExactRow(init, k)
  {
    var e := events[|events| - 1];
    if (HourOf(e.now), e.client) == k {
      OneQueryCells(e.result);
    }
    CellsMore(events, k);
  }

  lemma CellsMore(events: seq<StatEvent>, k: StatKey)
    requires events != []
    ensures var init, e := events[..|events| - 1], events[|events| - 1];
            ExactRow(events, k)
            == if (HourOf(e.now), e.client) == k
               then PlusRow(ExactRow(init, k),
                            StatRow(1, Bit(e.result == Results.Forward), Bit(e.result == Results.ForwardCache),
                                    Bit(e.result == Results.Override), Bit(e.result == Results.Local),
                                    Bit(e.result == Results.Deny), Bit(e.result == Results.Blocklist),
                                    Bit(e.result == Results.Servfail), Bit(e.result == Results.Foreign)))
               else ExactRow(init, k)
  {
    WithResultMore(events, k, Results.Forward);
    WithResultMore(events, k, Results.ForwardCache);
    WithResultMore(events, k, Results.Override);
    WithResultMore(events, k, Results.Local);
    WithResultMore(events, k, Results.Deny);
    WithResultMore(events, k, Results.Blocklist);
    WithResultMore(events, k, Results.Servfail);
    WithResultMore(events, k, Results.Foreign);
  }

  lemma AddedRow(rows: map<StatKey, StatRow>, e: StatEvent, k: StatKey)
    ensures var after := AddEvent(CLIENT_STATS, rows, e);
            && (k in after <==> k in rows || CLIENT_STATS.key(e) == k)
            && RowAt(after, k) == if CLIENT_STATS.key(e) == k then PlusRow(RowAt(rows, k), OneQuery(e.result))
                                  else RowAt(rows, k)
  {
  }

  // The count of any events has a row for exactly the hours and clients that occur, and each
  // column counts its own result.
  lemma {:induction false} FoldRows(events: seq<StatEvent>, k: StatKey)
    ensures k in Fold(CLIENT_STATS, events) <==> OfKey(events, k) > 0
    ensures RowAt(Fold(CLIENT_STATS, events), k) == ExactRow(events, k)
  {
    if events == [] {
    } else {
      var init, e := events[..|events| - 1], events[|events| - 1];
      FoldRows(init, k);
      ExactRowMore(events, k);
      AddedRow(Fold(CLIENT_STATS, init), e, k);
    }
  }

  // Whatever the flush schedule and whichever writes failed, in the table, the batch in
  // flight and the buffer together a client's hourly total is the sum of its columns
  // plus the queries kept whose result has no column.
  lemma {:induction false} TotalsAccountedFor(steps: seq<Step<StatEvent>>, k: StatKey)
    requires Retained(CLIENT_STATS, steps, k)
    requires k in Held(CLIENT_STATS, After(CLIENT_STATS, steps))
    ensures var row := Held(CLIENT_STATS, After(CLIENT_STATS, steps))[k];
            var l := LedgerAfter(CLIENT_STATS, steps);
            row.total == Columns(row) + Uncounted(l.delivered + l.taken + l.pending, k)
  {
    ClientStatsCombine();
    HeldIsKept(CLIENT_STATS, steps, k);
    var l := LedgerAfter(CLIENT_STATS, steps);
    FoldColumns(l.delivered + l.taken + l.pending, k);
  }

  // ----- Cache outcomes -----

  datatype OutcomeEvent = OutcomeEvent(reason: Results.Outcome, now: int)

  type OutcomeKey = (int, Results.Outcome)

  function OneHit(e: OutcomeEvent): nat {
    1
  }

  function PlusHits(a: nat, b: nat): nat {
    a + b
  }

  const OUTCOMES: Scheme<OutcomeEvent, OutcomeKey, nat> := Scheme(
    (e: OutcomeEvent) => (HourOf(e.now), e.reason),
    OneHit,
    PlusHits,
    (k: OutcomeKey, now: int) => OutcomeHourExpired(k.0, now))

  lemma OutcomesCombine()
    ensures Associative(OUTCOMES) && Commutative(OUTCOMES)
  {
  }

  // In a schedule whose writes all come within 99 hours of an outcome its row is never purged.
  lemma RecentOutcomeRetained(steps: seq<Step<OutcomeEvent>>, e: OutcomeEvent)
    requires forall step | step in steps :: step.Deliver? ==> e.now <= step.now <= e.now + 99 * 3600
    ensures Retained(OUTCOMES, steps, (HourOf(e.now), e.reason))
  {
    forall step | step in steps && step.Deliver?
      ensures !OUTCOMES.expired((HourOf(e.now), e.reason), step.now)
    {
      KeptForWindow(e.now, step.now);
    }
  }

  class CacheOutcomeBuffer {
    var data: map<OutcomeKey, nat>

    constructor ()
      ensures data == map[]
    {
      data := map[];
    }

    method Add(reason: Results.Outcome, now: int)
      modifies this
      ensures data == AddEvent(OUTCOMES, old(data), OutcomeEvent(reason, now))
    {
      var key := (HourOf(now), reason);
      data := data[key := (if key in data then data[key] else 0) + 1];
    }

    method Take() returns (batch: map<OutcomeKey, nat>)
      modifies this
      ensures batch == old(data) && data == map[]
    {
      batch := data;
      data := map[];
    }
  }

  class CacheOutcomeTable {
    var rows: map<OutcomeKey, nat>

    constructor ()
      ensures rows == map[]
    {
      rows := map[];
    }

    // `record_cache_outcomes`: upsert each row, then purge.
    method RecordCacheOutcomes(batch: map<OutcomeKey, nat>, now: int)
      modifies this
      ensures rows == if batch == map[] then old(rows) else Purge(OUTCOMES, Merge(OUTCOMES, old(rows), batch), now)
    {
      if batch == map[] {
        return;
      }
      var list := Rows(batch);
      ghost var before := rows;
      for i := 0 to |list|
        invariant rows == UpsertAll(OUTCOMES, before, list[..i])
      {
        assert list[..i + 1][..i] == list[..i];
        var key, hits := list[i].0, list[i].1;
        rows := rows[key := if key in rows then rows[key] + hits else hits];
      }
      assert list[..|list|] == list;
      UpsertAllMerges(OUTCOMES, before, list);
      rows := map k | k in rows && !OutcomeHourExpired(k.0, now) :: rows[k];
    }
  }

  // The two windows differ: an hour's outcomes are purged while its client statistics stay
  // exactly when the hour is over 100 and at most 500 hours old.
  lemma OutcomesPurgedFirstIff(hour: int, now: int)
    ensures OutcomeHourExpired(hour, now) && !HourExpired(hour, now)
       <==> OUTCOME_RETENTION_HOURS * 3600 < now - hour * 3600 <= RETENTION_HOURS * 3600
  {
  }

  function OutcomeCount(events: seq<OutcomeEvent>, k: OutcomeKey): nat {
    if events == [] then 0 else
      var e := events[|events| - 1];
      OutcomeCount(events[..|events| - 1], k) + if (HourOf(e.now), e.reason) == k then 1 else 0
  }

  lemma {:induction false} FoldOutcomes(events: seq<OutcomeEvent>, k: OutcomeKey)
    ensures MeasureAt(AsCount, Fold(OUTCOMES, events), k) == OutcomeCount(events, k)
  {
    if events == [] {
    } else {
      FoldOutcomes(events[..|events| - 1], k);
    }
  }

  function AsCount(n: nat): int {
    n
  }

  // Held and lost rows together count every outcome reported in an hour no purge dropped.
  lemma {:induction false} OutcomeTotals(steps: seq<Step<OutcomeEvent>>, k: OutcomeKey)
    requires Retained(OUTCOMES, steps, k)
    ensures MeasureAt(AsCount, Merge(OUTCOMES, Held(OUTCOMES, After(OUTCOMES, steps)),
                                  Fold(OUTCOMES, LedgerAfter(OUTCOMES, steps).lost)), k)
         == OutcomeCount(Events(steps), k)
  {
    OutcomesCombine();
    HeldPlusLost(OUTCOMES, steps, k);
    FoldOutcomes(Events(steps), k);
  }
}
