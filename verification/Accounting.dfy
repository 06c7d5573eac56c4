// What the counters say over whole runs of the resolver, each by itself and against the
// others.
module Accounting {
  import opened Options
  import R = Results
  import opened Answers
  import opened Aggregation
  import opened QueryBuffers
  import opened HourlyStats
  import opened Resolver
  import opened Screening
  import opened ResolverRuns

  function StatEvents(log: seq<Tally>): seq<StatEvent> {
    if log == [] then [] else
      var t := log[|log| - 1];
      StatEvents(log[..|log| - 1]) + [StatEvent(t.client, t.result, t.loggedAt)]
  }

  // The query-log entries and the cache outcomes of a run, in order.
  function QueryEvents(log: seq<Tally>): seq<QueryEvent> {
    if log == [] then [] else
      var t := log[|log| - 1];
      QueryEvents(log[..|log| - 1]) + if t.entry.Some? then [t.entry.value] else []
  }

  function OutcomeEvents(log: seq<Tally>): seq<OutcomeEvent> {
    if log == [] then [] else
      var t := log[|log| - 1];
      OutcomeEvents(log[..|log| - 1]) + if t.outcome.Some? then [t.outcome.value] else []
  }

  // The queries of one outcome hour that were forwarded, answered or not.
  function ForwardedIn(log: seq<Tally>, hour: int): nat {
    if log == [] then 0 else
      var t := log[|log| - 1];
      ForwardedIn(log[..|log| - 1], hour) + if Upstream(Some(t.result)) && HourOf(t.outcomeAt) == hour then 1 else 0
  }

  // The replies of one outcome hour that went into the cache.
  function StoresIn(heard: seq<Heard>, hour: int): nat {
    if heard == [] then 0 else
      var h := heard[|heard| - 1];
      StoresIn(heard[..|heard| - 1], hour) + if h.Reported? && HourOf(h.outcomeAt) == hour then 1 else 0
  }

  function Hits(outcomes: map<OutcomeKey, nat>, hour: int, reason: R.Outcome): nat {
    if (hour, reason) in outcomes then outcomes[(hour, reason)] else 0
  }

  function AllHits(outcomes: map<OutcomeKey, nat>, hour: int): nat {
    Hits(outcomes, hour, R.Cached) + Hits(outcomes, hour, R.Nxdomain) + Hits(outcomes, hour, R.Error)
    + Hits(outcomes, hour, R.EmptyAnswer) + Hits(outcomes, hour, R.ZeroTtl) + Hits(outcomes, hour, R.UpstreamFailure)
  }

  lemma OneMoreHit(outcomes: map<OutcomeKey, nat>, e: OutcomeEvent, hour: int)
    ensures AllHits(AddEvent(OUTCOMES, outcomes, e), hour)
         == AllHits(outcomes, hour) + if HourOf(e.now) == hour then 1 else 0
    ensures Hits(AddEvent(OUTCOMES, outcomes, e), hour, R.Cached)
         == Hits(outcomes, hour, R.Cached) + if HourOf(e.now) == hour && e.reason == R.Cached then 1 else 0
  {
    var after := AddEvent(OUTCOMES, outcomes, e);
    forall reason
      ensures Hits(after, hour, reason)
           == Hits(outcomes, hour, reason) + if HourOf(e.now) == hour && e.reason == reason then 1 else 0
    {
    }
    match e.reason
    case Cached =>
    case Nxdomain =>
    case Error =>
    case EmptyAnswer =>
    case ZeroTtl =>
    case UpstreamFailure =>
  }

  // With caching on, a query reports one outcome exactly when it goes upstream, and
  // that outcome is `cached` exactly when its reply is stored.
  lemma OutcomeEffect(lib: Library, w: World, l: Limits, e: Event)
    requires e.Query? && e.config.settings.cacheEnabled
    ensures var (w1, _, result) := Handled(lib, w, l, e.config, e.request, e.client, e.clock, e.forwarded);
            w1.outcomes == if Upstream(result)
                           then AddEvent(OUTCOMES, w.outcomes, OutcomeEvent(ReasonOf(e, result), e.clock.outcomeAt))
                           else w.outcomes
    ensures var result := Handled(lib, w, l, e.config, e.request, e.client, e.clock, e.forwarded).2;
            HeardFrom(e, result) != [] <==> Upstream(result) && ReasonOf(e, result) == R.Cached
  {
    var result := Handled(lib, w, l, e.config, e.request, e.client, e.clock, e.forwarded).2;
    HandledIsScreenedOrResolved(lib, w, l, e.config, e.request, e.client, e.clock, e.forwarded);
    ResolvedOutcome(lib, w, l, e.config.settings, e.request, e.client, e.clock, e.forwarded);
    HeardIffCached(e, result);
  }

  lemma HeardIffCached(e: Event, result: Option<R.Result>)
    requires e.Query? && e.config.settings.cacheEnabled
    ensures HeardFrom(e, result) != [] <==> Upstream(result) && ReasonOf(e, result) == R.Cached
  {
    if e.forwarded.Some? {
      JudgedKeepsForSource(e.forwarded.value, e.config.settings);
    }
  }

  lemma OutcomeCounts(lib: Library, w: World, l: Limits, e: Event, hour: int)
    requires e.Query? && e.config.settings.cacheEnabled
    ensures var (w1, _, result) := Handled(lib, w, l, e.config, e.request, e.client, e.clock, e.forwarded);
            var now := HourOf(e.clock.outcomeAt) == hour;
            && AllHits(w1.outcomes, hour) == AllHits(w.outcomes, hour) + (if Upstream(result) && now then 1 else 0)
            && Hits(w1.outcomes, hour, R.Cached)
               == Hits(w.outcomes, hour, R.Cached) + (if HeardFrom(e, result) != [] && now then 1 else 0)
  {
    var (w1, _, result) := Handled(lib, w, l, e.config, e.request, e.client, e.clock, e.forwarded);
    OutcomeEffect(lib, w, l, e);
    if Upstream(result) {
      OneMoreHit(w.outcomes, OutcomeEvent(ReasonOf(e, result), e.clock.outcomeAt), hour);
    }
  }

  lemma CountStep(lib: Library, l: Limits, s: System, e: Event, hour: int)
    requires e.Query? && e.config.settings.cacheEnabled
    requires AllHits(s.world.outcomes, hour) == ForwardedIn(s.log, hour)
    requires Hits(s.world.outcomes, hour, R.Cached) == StoresIn(s.heard, hour)
    ensures var s1 := ResolverRuns.Step(lib, l, s, e);
            && AllHits(s1.world.outcomes, hour) == ForwardedIn(s1.log, hour)
            && Hits(s1.world.outcomes, hour, R.Cached) == StoresIn(s1.heard, hour)
  {
    var (_, reply, result) := Handled(lib, s.world, l, e.config, e.request, e.client, e.clock, e.forwarded);
    OutcomeCounts(lib, s.world, l, e, hour);
    HeardMore(s.heard, e, result, hour);
    LogMore(lib, s.log, e, reply, result, hour);
  }

  // A foreign query and a flush change none of these numbers.
  lemma OtherStep(lib: Library, l: Limits, s: System, e: Event, hour: int)
    requires !e.Query?
    ensures var s1 := ResolverRuns.Step(lib, l, s, e);
            && s1.world.outcomes == s.world.outcomes
            && ForwardedIn(s1.log, hour) == ForwardedIn(s.log, hour)
            && StoresIn(s1.heard, hour) == StoresIn(s.heard, hour)
  {
    if e.ForeignQuery? {
      ForeignNotForwarded(s.log, e.now, hour);
    } else {
      FlushStoresNothing(s.heard, hour);
    }
  }

  lemma ForeignNotForwarded(log: seq<Tally>, now: int, hour: int)
    ensures ForwardedIn(log + [ForeignTally(now)], hour) == ForwardedIn(log, hour)
  {
    assert (log + [ForeignTally(now)])[..|log|] == log;
  }

  lemma FlushStoresNothing(heard: seq<Heard>, hour: int)
    ensures StoresIn(heard + [Flushed], hour) == StoresIn(heard, hour)
  {
    assert (heard + [Flushed])[..|heard|] == heard;
  }

  lemma HeardMore(heard: seq<Heard>, e: Event, result: Option<R.Result>, hour: int)
    requires e.Query?
    ensures StoresIn(heard + HeardFrom(e, result), hour)
         == StoresIn(heard, hour) + if HeardFrom(e, result) != [] && HourOf(e.clock.outcomeAt) == hour then 1 else 0
  {
    var more := HeardFrom(e, result);
    if more == [] {
      assert heard + more == heard;
    } else {
      assert (heard + more)[..|heard|] == heard;
    }
  }

  lemma LogMore(lib: Library, log: seq<Tally>, e: Event, reply: Reply, result: Option<R.Result>, hour: int)
    requires e.Query?
    ensures ForwardedIn(log + LoggedAs(lib, e, reply, result), hour)
         == ForwardedIn(log, hour) + if Upstream(result) && HourOf(e.clock.outcomeAt) == hour then 1 else 0
  {
    var more := LoggedAs(lib, e, reply, result);
    if more == [] {
      assert log + more == log;
    } else {
      assert (log + more)[..|log|] == log;
    }
  }

  // Over any run with caching on: the outcomes counted in an hour are as many as the
  // queries forwarded (answered or failed), and those counted as cached as many as the
  // replies stored.
  lemma {:induction false} OutcomesAccounted(lib: Library, l: Limits, events: seq<Event>, hour: int)
    requires forall e | e in events :: e.Query? ==> e.config.settings.cacheEnabled
    ensures var s := RunOf(lib, l, events);
            && AllHits(s.world.outcomes, hour) == ForwardedIn(s.log, hour)
            && Hits(s.world.outcomes, hour, R.Cached) == StoresIn(s.heard, hour)
  {
    if events == [] {
    } else {
      var init, e := events[..|events| - 1], events[|events| - 1];
      assert e in events && forall x | x in init :: x in events;
      OutcomesAccounted(lib, l, init, hour);
      if e.Query? {
        CountStep(lib, l, RunOf(lib, l, init), e, hour);
      } else {
        OtherStep(lib, l, RunOf(lib, l, init), e, hour);
      }
    }
  }

  // ----- Every buffer counts the log -----

  // The three buffers each hold one count of their own events of the log.
  ghost predicate CountsLog(w: World, log: seq<Tally>) {
    && w.stats == Fold(CLIENT_STATS, StatEvents(log))
    && w.queries == Fold(QUERIES, QueryEvents(log))
    && w.outcomes == Fold(OUTCOMES, OutcomeEvents(log))
  }

  // What one counted query adds to each buffer.
  function AddTally(w: World, t: Tally): World {
    w.(stats := AddEvent(CLIENT_STATS, w.stats, StatEvent(t.client, t.result, t.loggedAt)),
       queries := match t.entry case Some(q) => AddEvent(QUERIES, w.queries, q) case None => w.queries,
       outcomes := match t.outcome case Some(o) => AddEvent(OUTCOMES, w.outcomes, o) case None => w.outcomes)
  }

  predicate SameCounts(w: World, w': World) {
    w.stats == w'.stats && w.queries == w'.queries && w.outcomes == w'.outcomes
  }

  lemma CountedMore(w: World, log: seq<Tally>, t: Tally)
    requires CountsLog(w, log)
    ensures CountsLog(AddTally(w, t), log + [t])
  {
    FoldOneMore(CLIENT_STATS, StatEvents(log), StatEvent(t.client, t.result, t.loggedAt));
    EventsMore(log, t);
    if t.entry.Some? {
      FoldOneMore(QUERIES, QueryEvents(log), t.entry.value);
    }
    if t.outcome.Some? {
      FoldOneMore(OUTCOMES, OutcomeEvents(log), t.outcome.value);
    }
  }

  lemma EventsMore(log: seq<Tally>, t: Tally)
    ensures StatEvents(log + [t]) == StatEvents(log) + [StatEvent(t.client, t.result, t.loggedAt)]
    ensures QueryEvents(log + [t]) == match t.entry
                                      case Some(q) => QueryEvents(log) + [q]
                                      case None => QueryEvents(log)
    ensures OutcomeEvents(log + [t]) == match t.outcome
                                        case Some(o) => OutcomeEvents(log) + [o]
                                        case None => OutcomeEvents(log)
  {
    assert (log + [t])[..|log|] == log;
  }

  // A query adds exactly what its tally says, and one that is answered silently nothing.
  lemma TallyEffect(lib: Library, w: World, l: Limits, e: Event)
    requires e.Query?
    ensures var (w1, reply, result) := Handled(lib, w, l, e.config, e.request, e.client, e.clock, e.forwarded);
            var tallies := LoggedAs(lib, e, reply, result);
            SameCounts(w1, if tallies == [] then w else AddTally(w, tallies[0]))
  {
    var result := Handled(lib, w, l, e.config, e.request, e.client, e.clock, e.forwarded).2;
    HandledIsScreenedOrResolved(lib, w, l, e.config, e.request, e.client, e.clock, e.forwarded);
    if e.config.settings.cacheEnabled {
      OutcomeEffect(lib, w, l, e);
    } else {
      ResolvedUncached(lib, w, l, e.config.settings, e.request, e.client, e.clock, e.forwarded);
    }
  }

  lemma ResolvedUncached(lib: Library, w: World, l: Limits, s: Settings, request: Request, client: string, k: Clock,
                         forwarded: Option<Reply>)
    requires !s.cacheEnabled
    ensures Resolved(lib, w, l, s, request, client, k, forwarded).0 == w
  {
  }

  // Over any run, whatever the settings: the client statistics, the query log and the cache
  // outcomes are each one count of what the run logged.
  lemma {:induction false} RunCounted(lib: Library, l: Limits, events: seq<Event>)
    ensures CountsLog(RunOf(lib, l, events).world, RunOf(lib, l, events).log)
  {
    if events == [] {
    } else {
      var init, e := events[..|events| - 1], events[|events| - 1];
      RunCounted(lib, l, init);
      var s := RunOf(lib, l, init);
      match e
      case Query(_, _, _, _, _) => CountedStep(lib, l, s, e);
      case ForeignQuery(now) => CountedMore(s.world, s.log, ForeignTally(now));
      case ClearCache =>
    }
  }

  lemma CountedStep(lib: Library, l: Limits, s: System, e: Event)
    requires e.Query? && CountsLog(s.world, s.log)
    ensures var s1 := ResolverRuns.Step(lib, l, s, e);
            CountsLog(s1.world, s1.log)
  {
    var (w1, reply, result) := Handled(lib, s.world, l, e.config, e.request, e.client, e.clock, e.forwarded);
    var tallies := LoggedAs(lib, e, reply, result);
    TallyEffect(lib, s.world, l, e);
    if tallies == [] {
      assert s.log + tallies == s.log;
    } else {
      assert tallies == [tallies[0]];
      CountedMore(s.world, s.log, tallies[0]);
    }
  }

  // The queries of one hour and client that IPv4-only mode answered empty.
  function SuppressedIn(log: seq<Tally>, k: StatKey): nat {
    if log == [] then 0 else
      var t := log[|log| - 1];
      SuppressedIn(log[..|log| - 1], k)
      + if t.result == R.Nodata && (HourOf(t.loggedAt), t.client) == k then 1 else 0
  }

  lemma {:induction false} UncountedAreSuppressed(log: seq<Tally>, k: StatKey)
    ensures Uncounted(StatEvents(log), k) == SuppressedIn(log, k)
  {
    if log == [] {
    } else {
      var init, t := log[..|log| - 1], log[|log| - 1];
      UncountedAreSuppressed(init, k);
      var e := StatEvent(t.client, t.result, t.loggedAt);
      assert StatEvents(log)[..|StatEvents(init)|] == StatEvents(init);
    }
  }

  // Over any run, each client's hourly total is the sum of its result columns plus its
  // suppressed IPv6 queries.
  lemma {:induction false} TotalsAccounted(lib: Library, l: Limits, events: seq<Event>, k: StatKey)
    ensures var s := RunOf(lib, l, events);
            k in s.world.stats ==>
              s.world.stats[k].total == Columns(s.world.stats[k]) + SuppressedIn(s.log, k)
  {
    var s := RunOf(lib, l, events);
    RunCounted(lib, l, events);
    FoldColumns(StatEvents(s.log), k);
    UncountedAreSuppressed(s.log, k);
  }

  // Over any run, the row of an hour and client shows in each column the logged queries with
  // the column's own result, and there is a row exactly if there was a query.
  lemma {:induction false} RowsAccounted(lib: Library, l: Limits, events: seq<Event>, k: StatKey)
    ensures var s := RunOf(lib, l, events);
            && (k in s.world.stats <==> OfKey(StatEvents(s.log), k) > 0)
            && RowAt(s.world.stats, k) == ExactRow(StatEvents(s.log), k)
  {
    RunCounted(lib, l, events);
    FoldRows(StatEvents(RunOf(lib, l, events).log), k);
  }

  // The outcome counts of an hour are the same however and whenever they were flushed, as
  // long as every write succeeded and no purge has reached the hour: `steps` is any
  // schedule of the run's own outcomes.
  lemma {:induction false} OutcomesAccountedAnySchedule(lib: Library, l: Limits, events: seq<Event>, hour: int,
                                                        steps: seq<Aggregation.Step<OutcomeEvent>>)
    requires forall e | e in events :: e.Query? ==> e.config.settings.cacheEnabled
    requires forall step | step in steps :: step.Deliver? ==> step.ok && !OutcomeHourExpired(hour, step.now)
    ensures var s, held := RunOf(lib, l, events), Held(OUTCOMES, After(OUTCOMES, steps));
            Events(steps) == OutcomeEvents(s.log) ==>
              AllHits(held, hour) == ForwardedIn(s.log, hour) && Hits(held, hour, R.Cached) == StoresIn(s.heard, hour)
  {
    OutcomesAccounted(lib, l, events, hour);
    RunCounted(lib, l, events);
    HeldHits(steps, hour);
  }

  lemma {:induction false} HeldHits(steps: seq<Aggregation.Step<OutcomeEvent>>, hour: int)
    requires forall step | step in steps :: step.Deliver? ==> step.ok && !OutcomeHourExpired(hour, step.now)
    ensures var held, all := Held(OUTCOMES, After(OUTCOMES, steps)), Fold(OUTCOMES, Events(steps));
            AllHits(held, hour) == AllHits(all, hour) && Hits(held, hour, R.Cached) == Hits(all, hour, R.Cached)
  {
    OutcomesCombine();
    forall reason
      ensures Hits(Held(OUTCOMES, After(OUTCOMES, steps)), hour, reason)
           == Hits(Fold(OUTCOMES, Events(steps)), hour, reason)
    {
      FlushScheduleIndependence(OUTCOMES, steps, (hour, reason));
    }
  }

  // Over any run and flush schedule with no failed write, the query log's row of a (client,
  // name, type) counts the run's queries of it and shows what the latest did.
  lemma {:induction false} QueriesAccounted(lib: Library, l: Limits, events: seq<Event>, k: QueryKey,
                                            steps: seq<Aggregation.Step<QueryEvent>>)
    requires forall step | step in steps :: step.Deliver? ==> step.ok
    ensures var all, held := QueryEvents(RunOf(lib, l, events).log), Held(QUERIES, After(QUERIES, steps));
            Events(steps) == all ==> LogRowExact(held, all, k)
  {
    QueryTotals(steps, k);
  }

  // The row counts the key's events and shows the latest; there is one if there are any.
  predicate LogRowExact(rows: map<QueryKey, QueryCount>, all: seq<QueryEvent>, k: QueryKey) {
    && (k in rows <==> Occurrences(all, k) > 0)
    && (k in rows ==> rows[k] == QueryCount(Occurrences(all, k), Latest(all, k).action, Latest(all, k).response))
  }

  // ----- The two tables against each other -----

  // The queries of a row that went upstream.
  function Forwards(r: StatRow): int {
    r.forwarded + r.servfail
  }

  lemma ForwardsAdd()
    ensures forall a, b :: Forwards(CLIENT_STATS.plus(a, b)) == Forwards(a) + Forwards(b)
    ensures forall a, b :: AsCount(OUTCOMES.plus(a, b)) == AsCount(a) + AsCount(b)
  {
  }

  lemma ForwardsOfOne(client: string, result: R.Result, now: int)
    ensures Forwards(CLIENT_STATS.one(StatEvent(client, result, now))) == if Upstream(Some(result)) then 1 else 0
  {
    match result
    case Nodata =>
    case Override =>
    case Deny =>
    case Blocklist =>
    case Local =>
    case ForwardCache =>
    case Forward =>
    case Servfail =>
    case Foreign =>
  }

  // The queries of a row other than those dropped as foreign.
  function OwnQueries(r: StatRow): int {
    r.total - r.foreign
  }

  function TimesAsked(q: QueryCount): int {
    q.count
  }

  lemma OwnQueriesAdd()
    ensures forall a, b :: OwnQueries(CLIENT_STATS.plus(a, b)) == OwnQueries(a) + OwnQueries(b)
    ensures forall a, b :: TimesAsked(QUERIES.plus(a, b)) == TimesAsked(a) + TimesAsked(b)
  {
  }

  lemma OwnQueriesOfOne(client: string, result: R.Result, now: int)
    ensures OwnQueries(CLIENT_STATS.one(StatEvent(client, result, now))) == if result == R.Foreign then 0 else 1
  {
    match result
    case Nodata =>
    case Override =>
    case Deny =>
    case Blocklist =>
    case Local =>
    case ForwardCache =>
    case Forward =>
    case Servfail =>
    case Foreign =>
  }

  // A tally that counts as a cache outcome exactly if its query went upstream, and has a
  // query-log entry exactly if it was not dropped as foreign.
  predicate Regular(t: Tally) {
    (t.outcome.Some? <==> Upstream(Some(t.result))) && (t.entry.Some? <==> t.result != R.Foreign)
  }

  // What the tables count together: forwarded and failed queries against outcomes, and
  // queries against query-log entries.
  ghost predicate TablesAgree(w: World) {
    && SumOver(Forwards, w.stats) == SumOver(AsCount, w.outcomes)
    && SumOver(OwnQueries, w.stats) == SumOver(TimesAsked, w.queries)
  }

  lemma ForwardsSum(stats: map<StatKey, StatRow>, client: string, result: R.Result, now: int)
    ensures SumOver(Forwards, AddEvent(CLIENT_STATS, stats, StatEvent(client, result, now)))
         == SumOver(Forwards, stats) + if Upstream(Some(result)) then 1 else 0
  {
    ForwardsAdd();
    ForwardsOfOne(client, result, now);
    SumAdd(CLIENT_STATS, Forwards, stats, StatEvent(client, result, now));
  }

  lemma OwnQueriesSum(stats: map<StatKey, StatRow>, client: string, result: R.Result, now: int)
    ensures SumOver(OwnQueries, AddEvent(CLIENT_STATS, stats, StatEvent(client, result, now)))
         == SumOver(OwnQueries, stats) + if result == R.Foreign then 0 else 1
  {
    OwnQueriesAdd();
    OwnQueriesOfOne(client, result, now);
    SumAdd(CLIENT_STATS, OwnQueries, stats, StatEvent(client, result, now));
  }

  lemma OutcomesSum(outcomes: map<OutcomeKey, nat>, o: OutcomeEvent)
    ensures SumOver(AsCount, AddEvent(OUTCOMES, outcomes, o)) == SumOver(AsCount, outcomes) + 1
  {
    ForwardsAdd();
    SumAdd(OUTCOMES, AsCount, outcomes, o);
  }

  lemma TimesAskedSum(queries: map<QueryKey, QueryCount>, q: QueryEvent)
    ensures SumOver(TimesAsked, AddEvent(QUERIES, queries, q)) == SumOver(TimesAsked, queries) + 1
  {
    OwnQueriesAdd();
    SumAdd(QUERIES, TimesAsked, queries, q);
  }

  lemma TallyKeepsAgreement(w: World, t: Tally)
    requires TablesAgree(w) && Regular(t)
    ensures TablesAgree(AddTally(w, t))
  {
    ForwardsSum(w.stats, t.client, t.result, t.loggedAt);
    OwnQueriesSum(w.stats, t.client, t.result, t.loggedAt);
    if t.outcome.Some? {
      OutcomesSum(w.outcomes, t.outcome.value);
    }
    if t.entry.Some? {
      TimesAskedSum(w.queries, t.entry.value);
    }
  }

  lemma NeverForeign(lib: Library, w: World, l: Limits, e: Event)
    requires e.Query?
    ensures Handled(lib, w, l, e.config, e.request, e.client, e.clock, e.forwarded).2 != Some(R.Foreign)
  {
    HandledParts(lib, w, l, e.config, e.request, e.client, e.clock, e.forwarded);
    ScreenedResults(lib, e.config, e.request, e.client);
    ResolvedResults(lib, w, l, e.config.settings, e.request, e.client, e.clock, e.forwarded);
  }

  lemma QueryKeepsAgreement(lib: Library, w: World, l: Limits, e: Event)
    requires e.Query? && e.config.settings.cacheEnabled && TablesAgree(w)
    ensures TablesAgree(Handled(lib, w, l, e.config, e.request, e.client, e.clock, e.forwarded).0)
  {
    var (_, reply, result) := Handled(lib, w, l, e.config, e.request, e.client, e.clock, e.forwarded);
    TallyEffect(lib, w, l, e);
    NeverForeign(lib, w, l, e);
    if result.Some? {
      TallyKeepsAgreement(w, LoggedAs(lib, e, reply, result)[0]);
    }
  }

  // Over any run with caching on, all rows of the client statistics together show as many
  // forwarded and failed queries as all rows of the cache outcomes show hits, and as many
  // queries, but for foreign ones, as all rows of the query log.
  lemma {:induction false} StatsMatchOutcomes(lib: Library, l: Limits, events: seq<Event>)
    requires forall e | e in events :: e.Query? ==> e.config.settings.cacheEnabled
    ensures TablesAgree(RunOf(lib, l, events).world)
  {
    if events == [] {
    } else {
      var init, e := events[..|events| - 1], events[|events| - 1];
      assert e in events && forall x | x in init :: x in events;
      StatsMatchOutcomes(lib, l, init);
      match e
      case Query(_, _, _, _, _) => QueryKeepsAgreement(lib, RunOf(lib, l, init).world, l, e);
      case ForeignQuery(now) => ForeignKeepsAgreement(RunOf(lib, l, init).world, now);
      case ClearCache =>
    }
  }

  lemma ForeignKeepsAgreement(w: World, now: int)
    requires TablesAgree(w)
    ensures TablesAgree(AddTally(w, ForeignTally(now)))
  {
    TallyKeepsAgreement(w, ForeignTally(now));
  }

  // The same of what the tables, batches in flight and buffers hold, each flushed on a
  // schedule of its own, as long as every write succeeded and no purge reached a row.
  lemma {:induction false} TablesMatch(lib: Library, l: Limits, events: seq<Event>,
                                       statSteps: seq<Aggregation.Step<StatEvent>>,
                                       outcomeSteps: seq<Aggregation.Step<OutcomeEvent>>,
                                       querySteps: seq<Aggregation.Step<QueryEvent>>)
    requires forall e | e in events :: e.Query? ==> e.config.settings.cacheEnabled
    requires AllRetained(CLIENT_STATS, statSteps) && AllRetained(OUTCOMES, outcomeSteps)
    requires forall step | step in statSteps :: step.Deliver? ==> step.ok
    requires forall step | step in outcomeSteps :: step.Deliver? ==> step.ok
    requires forall step | step in querySteps :: step.Deliver? ==> step.ok
    ensures var log, stats := RunOf(lib, l, events).log, Held(CLIENT_STATS, After(CLIENT_STATS, statSteps));
            Events(statSteps) == StatEvents(log) && Events(outcomeSteps) == OutcomeEvents(log)
            && Events(querySteps) == QueryEvents(log) ==>
              && SumOver(Forwards, stats) == SumOver(AsCount, Held(OUTCOMES, After(OUTCOMES, outcomeSteps)))
              && SumOver(OwnQueries, stats) == SumOver(TimesAsked, Held(QUERIES, After(QUERIES, querySteps)))
  {
    ClientStatsCombine();
    OutcomesCombine();
    QueriesAssociative();
    HeldIsFold(CLIENT_STATS, statSteps);
    HeldIsFold(OUTCOMES, outcomeSteps);
    HeldIsFold(QUERIES, querySteps);
    RunCounted(lib, l, events);
    StatsMatchOutcomes(lib, l, events);
  }
}
