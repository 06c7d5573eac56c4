// Runs of the resolver, and what the answer cache keeps to over them.
module ResolverRuns {
  import opened Options
  import R = Results
  import opened Answers
  import opened OrderedDict
  import opened TtlCache
  import opened CacheKeys
  import opened Aggregation
  import opened QueryBuffers
  import opened HourlyStats
  import opened Resolver
  import opened Screening
  import opened Numbers
  import opened Sequences
  import Text

  // A query under whatever configuration is loaded at the time, one dropped for coming from
  // an untrusted network, or a flush of the cache. `forwarded` is what the upstreams would
  // bring back for this query.
  datatype Event =
    | Query(config: Config, request: Request, client: string, clock: Clock, forwarded: Option<Reply>)
    | ForeignQuery(now: int)
    | ClearCache

  datatype Question = Question(name: string, qtype: nat, qclass: nat)

  function QuestionOf(request: Request): Question {
    Question(Text.NormalizeDomain(request.qname), request.qtype, request.qclass)
  }

  // What upstreams were heard to say, and flushes.
  datatype Heard = Reported(question: Question, reply: Reply, at: real, keptFor: int, outcomeAt: int) | Flushed

  // One query that was counted, with its entry in the query log and its cache outcome.
  datatype Tally = Tally(client: string, result: R.Result, loggedAt: int, outcomeAt: int,
                         entry: Option<QueryEvent>, outcome: Option<OutcomeEvent>)

  datatype System = System(world: World, heard: seq<Heard>, log: seq<Tally>)

  const EMPTY_WORLD := World([], map[], map[], map[], map[])

  // A reply fetched for a query is heard if caching is on and it may be kept at all.
  function HeardFrom(e: Event, result: Option<R.Result>): seq<Heard> {
    match e
    case ClearCache => [Flushed]
    case ForeignQuery(_) => []
    case Query(c, request, _, clock, forwarded) =>
      if result == Some(R.Forward) && forwarded.Some? && c.settings.cacheEnabled
         && KeptFor(forwarded.value, c.settings).Some?
      then [Reported(QuestionOf(request), forwarded.value, clock.storedAt,
                     KeptFor(forwarded.value, c.settings).value, clock.outcomeAt)]
      else []
  }

  function Step(lib: Library, l: Limits, s: System, e: Event): System {
    match e
    case ClearCache => s.(world := s.world.(cache := []), heard := s.heard + HeardFrom(e, None))
    case ForeignQuery(now) =>
      var event := StatEvent(FOREIGN_CLIENT, R.Foreign, now);
      s.(world := s.world.(stats := AddEvent(CLIENT_STATS, s.world.stats, event)), log := s.log + [ForeignTally(now)])
    case Query(c, request, client, clock, forwarded) =>
      var (world, reply, result) := Handled(lib, s.world, l, c, request, client, clock, forwarded);
      System(world, s.heard + HeardFrom(e, result), s.log + LoggedAs(lib, e, reply, result))
  }

  function ForeignTally(now: int): Tally {
    Tally(FOREIGN_CLIENT, R.Foreign, now, now, None, None)
  }

  function LoggedAs(lib: Library, e: Event, reply: Reply, result: Option<R.Result>): seq<Tally>
    requires e.Query?
  {
    match result
    case Some(r) =>
      [Tally(e.client, r, e.clock.loggedAt, e.clock.outcomeAt, Some(LogEvent(lib, e.request, e.client, reply, r)),
             OutcomeOf(e, result))]
    case None => []
  }

  predicate Upstream(result: Option<R.Result>) {
    result == Some(R.Forward) || result == Some(R.Servfail)
  }

  // The reason a forwarded query is counted under.
  function ReasonOf(e: Event, result: Option<R.Result>): R.Outcome
    requires e.Query?
  {
    if result == Some(R.Forward) && e.forwarded.Some? then Judged(e.forwarded.value, e.config.settings).1
    else R.UpstreamFailure
  }

  function OutcomeOf(e: Event, result: Option<R.Result>): Option<OutcomeEvent>
    requires e.Query?
  {
    if e.config.settings.cacheEnabled && Upstream(result)
    then Some(OutcomeEvent(ReasonOf(e, result), e.clock.outcomeAt))
    else None
  }

  function RunOf(lib: Library, l: Limits, events: seq<Event>): System {
    if events == [] then System(EMPTY_WORLD, [], [])
    else Step(lib, l, RunOf(lib, l, events[..|events| - 1]), events[|events| - 1])
  }

  // ----- Cache coherence -----

  // Report i is the latest about its question, with no flush since.
  predicate LatestReport(heard: seq<Heard>, question: Question, i: int) {
    && 0 <= i < |heard| && heard[i].Reported? && heard[i].question == question
    && forall j | i < j < |heard| :: heard[j].Reported? && heard[j].question != question
  }

  // A cached item is the latest report about some question.
  ghost predicate Backed(heard: seq<Heard>, x: Item<Entry<Reply>>) {
    exists q, i ::
      && LatestReport(heard, q, i) && x.key == CacheKey(q.name, q.qtype, q.qclass) && Text.Normalized(q.name)
      && x.value == NewEntry(heard[i].reply, heard[i].keptFor, heard[i].at)
  }

  ghost predicate CacheBacked(cache: Dict<Entry<Reply>>, heard: seq<Heard>) {
    Unique(cache) && forall x | x in cache :: Backed(heard, x)
  }

  ghost predicate Coherent(s: System) {
    CacheBacked(s.world.cache, s.heard)
  }

  lemma BackedByOthers(heard: seq<Heard>, x: Item<Entry<Reply>>, more: Heard)
    requires Backed(heard, x)
    requires more.Reported? && Text.Normalized(more.question.name)
    requires x.key != CacheKey(more.question.name, more.question.qtype, more.question.qclass)
    ensures Backed(heard + [more], x)
  {
    var q, i :| LatestReport(heard, q, i) && x.key == CacheKey(q.name, q.qtype, q.qclass) && Text.Normalized(q.name)
                && x.value == NewEntry(heard[i].reply, heard[i].keptFor, heard[i].at);
    assert LatestReport(heard + [more], q, i);
    assert (heard + [more])[i] == heard[i];
  }

  lemma NewestBacked(heard: seq<Heard>, more: Heard)
    requires more.Reported? && Text.Normalized(more.question.name)
    ensures Backed(heard + [more], Item(CacheKey(more.question.name, more.question.qtype, more.question.qclass),
                                        NewEntry(more.reply, more.keptFor, more.at)))
  {
    assert LatestReport(heard + [more], more.question, |heard|);
  }

  lemma KeyOfQuestion(request: Request)
    ensures var q := QuestionOf(request);
            KeyOf(request) == CacheKey(q.name, q.qtype, q.qclass) && Text.Normalized(q.name)
  {
    Text.NormalizeFixpoint(request.qname);
    Text.NormalizeFixpoint(Text.NormalizeDomain(request.qname));
  }

  // ----- The effect of one query, part by part -----

  lemma StoredCache(lib: Library, w: World, l: Limits, s: Settings, request: Request, client: string, k: Clock,
                    reply: Reply)
    ensures Stored(lib, w, l, s, request, client, k, reply).cache
         == match KeptFor(reply, s)
            case Some(t) => AfterSet(w.cache, l.capacity, KeyOf(request), NewEntry(reply, t, k.storedAt))
            case None => w.cache
  {
    JudgedKeepsForSource(reply, s);
  }

  // With caching on, going to the cache and the upstreams looks the key up and stores a
  // fetched reply for as long as it may be kept.
  lemma ResolvedCache(lib: Library, w: World, l: Limits, s: Settings, request: Request, client: string, k: Clock,
                      forwarded: Option<Reply>)
    ensures var (w1, reply, result) := Resolved(lib, w, l, s, request, client, k, forwarded);
            var looked := AfterGet(w.cache, KeyOf(request), k.lookupAt);
            w1.cache ==
            if !s.cacheEnabled then w.cache
            else if result == R.Forward && forwarded.Some? && KeptFor(forwarded.value, s).Some? then
              AfterSet(looked, l.capacity, KeyOf(request),
                       NewEntry(forwarded.value, KeptFor(forwarded.value, s).value, k.storedAt))
            else looked
  {
    if forwarded.Some? {
      StoredCache(lib, w.(cache := AfterGet(w.cache, KeyOf(request), k.lookupAt)), l, s, request, client, k,
                  forwarded.value);
    }
  }

  lemma ResolvedHit(lib: Library, w: World, l: Limits, s: Settings, request: Request, client: string, k: Clock,
                    forwarded: Option<Reply>)
    requires Resolved(lib, w, l, s, request, client, k, forwarded).2 == R.ForwardCache
    ensures var hit := Lookup(w.cache, KeyOf(request), k.lookupAt);
            hit.Some? && Resolved(lib, w, l, s, request, client, k, forwarded).1
                         == Served(hit.value.value, request.id, Remaining(hit.value.expiresAt, k.servedAt))
  {
  }

  // With caching on, one outcome is reported exactly when the query goes upstream, and it
  // is `cached` exactly when the reply is stored.
  lemma ResolvedOutcome(lib: Library, w: World, l: Limits, s: Settings, request: Request, client: string, k: Clock,
                        forwarded: Option<Reply>)
    requires s.cacheEnabled
    ensures var (w1, reply, result) := Resolved(lib, w, l, s, request, client, k, forwarded);
            match result
            case Forward =>
              forwarded.Some?
              && w1.outcomes
                 == AddEvent(OUTCOMES, w.outcomes, OutcomeEvent(Judged(forwarded.value, s).1, k.outcomeAt))
            case Servfail => w1.outcomes == AddEvent(OUTCOMES, w.outcomes, OutcomeEvent(R.UpstreamFailure, k.outcomeAt))
            case _ => w1.outcomes == w.outcomes && result == R.ForwardCache
  {
  }

  lemma ResolvedKeepsStats(lib: Library, w: World, l: Limits, s: Settings, request: Request, client: string, k: Clock,
                           forwarded: Option<Reply>)
    ensures Resolved(lib, w, l, s, request, client, k, forwarded).0.stats == w.stats
    ensures Resolved(lib, w, l, s, request, client, k, forwarded).0.queries == w.queries
    ensures Resolved(lib, w, l, s, request, client, k, forwarded).2 in {R.Forward, R.ForwardCache, R.Servfail}
  {
  }

  // A query that screening answers, or drops, touches neither the cache nor the outcomes;
  // any other does exactly what resolving it does.
  lemma HandledIsScreenedOrResolved(lib: Library, w: World, l: Limits, c: Config, request: Request, client: string,
                                    k: Clock,
                                    forwarded: Option<Reply>)
    ensures var (w1, reply, result) := Handled(lib, w, l, c, request, client, k, forwarded);
            if result.Some? && result.value in {R.Forward, R.ForwardCache, R.Servfail} then
              var (w2, reply2, result2) := Resolved(lib, w, l, c.settings, request, client, k, forwarded);
              w1.cache == w2.cache && w1.outcomes == w2.outcomes && reply == reply2 && result == Some(result2)
            else w1.cache == w.cache && w1.outcomes == w.outcomes
    ensures var (w1, reply, result) := Handled(lib, w, l, c, request, client, k, forwarded);
            match result
            case Some(r) =>
              && w1.stats == AddEvent(CLIENT_STATS, w.stats, StatEvent(client, r, k.loggedAt))
              && w1.queries == AddEvent(QUERIES, w.queries, LogEvent(lib, request, client, reply, r))
            case None => w1.stats == w.stats && w1.queries == w.queries
  {
    HandledParts(lib, w, l, c, request, client, k, forwarded);
    if !DropsSilently(c, request) {
      var d := Decided(lib, w, l, c, request, client, k, forwarded);
      LoggedParts(lib, d.0, request, client, k, d.1, d.2);
      ScreenedResults(lib, c, request, client);
      if Screened(lib, c, request, client).None? {
        ResolvedKeepsStats(lib, w, l, c.settings, request, client, k, forwarded);
      }
    }
  }

  // What a query does to the cache: nothing, a lookup, or a lookup and a store of the
  // fetched reply for as long as it may be kept.
  lemma CacheEffect(lib: Library, w: World, l: Limits, e: Event)
    requires e.Query?
    ensures var (w1, reply, result) := Handled(lib, w, l, e.config, e.request, e.client, e.clock, e.forwarded);
            var heard := HeardFrom(e, result);
            var looked := AfterGet(w.cache, KeyOf(e.request), e.clock.lookupAt);
            if heard == [] then w1.cache == w.cache || w1.cache == looked
            else w1.cache == AfterSet(looked, l.capacity, KeyOf(e.request),
                                      NewEntry(heard[0].reply, heard[0].keptFor, heard[0].at))
  {
    HandledIsScreenedOrResolved(lib, w, l, e.config, e.request, e.client, e.clock, e.forwarded);
    ResolvedCache(lib, w, l, e.config.settings, e.request, e.client, e.clock, e.forwarded);
  }

  lemma LookKeeps(cache: Dict<Entry<Reply>>, heard: seq<Heard>, key: string, at: real)
    requires CacheBacked(cache, heard)
    ensures CacheBacked(AfterGet(cache, key, at), heard)
  {
    AfterGetUnique(cache, key, at);
    forall x | x in AfterGet(cache, key, at)
      ensures Backed(heard, x)
    {
      AfterGetMembers(cache, key, at, x);
    }
  }

  // After a store, an item is the newly heard reply or was backed already.
  lemma PutKeeps(cache: Dict<Entry<Reply>>, heard: seq<Heard>, capacity: nat, request: Request, more: Heard)
    requires CacheBacked(cache, heard) && 1 <= capacity
    requires more.Reported? && more.question == QuestionOf(request)
    ensures CacheBacked(AfterSet(cache, capacity, KeyOf(request), NewEntry(more.reply, more.keptFor, more.at)),
                        heard + [more])
  {
    var entry := NewEntry(more.reply, more.keptFor, more.at);
    KeyOfQuestion(request);
    AfterSetUnique(cache, capacity, KeyOf(request), entry);
    forall x | x in AfterSet(cache, capacity, KeyOf(request), entry)
      ensures Backed(heard + [more], x)
    {
      AfterSetMembers(cache, capacity, KeyOf(request), entry, x);
      if x == Item(KeyOf(request), entry) {
        NewestBacked(heard, more);
      } else {
        BackedByOthers(heard, x, more);
      }
    }
  }

  lemma QueryKeepsCoherent(lib: Library, l: Limits, s: System, e: Event)
    requires Coherent(s) && e.Query? && 1 <= l.capacity
    ensures Coherent(Step(lib, l, s, e))
  {
    var result := Handled(lib, s.world, l, e.config, e.request, e.client, e.clock, e.forwarded).2;
    var heard := HeardFrom(e, result);
    CacheEffect(lib, s.world, l, e);
    LookKeeps(s.world.cache, s.heard, KeyOf(e.request), e.clock.lookupAt);
    if heard == [] {
      assert s.heard + heard == s.heard;
    } else {
      assert heard == [heard[0]];
      PutKeeps(AfterGet(s.world.cache, KeyOf(e.request), e.clock.lookupAt), s.heard, l.capacity, e.request, heard[0]);
    }
  }

  lemma {:induction false} RunCoherent(lib: Library, l: Limits, events: seq<Event>)
    requires 1 <= l.capacity
    ensures Coherent(RunOf(lib, l, events))
  {
    if events == [] {
    } else {
      var init, e := events[..|events| - 1], events[|events| - 1];
      RunCoherent(lib, l, init);
      if e.Query? {
        QueryKeepsCoherent(lib, l, RunOf(lib, l, init), e);
      }
    }
  }

  // The reply is report i, the latest about the question with no flush since, heard
  // strictly less than its kept time before the lookup, and changed in nothing but the
  // header id and the TTLs.
  predicate Repeats(heard: seq<Heard>, request: Request, clock: Clock, reply: Reply, i: int) {
    && LatestReport(heard, QuestionOf(request), i)
    && clock.lookupAt - heard[i].at < heard[i].keptFor as real
    && reply == Served(heard[i].reply, request.id, Remaining(heard[i].at + heard[i].keptFor as real, clock.servedAt))
  }

  // After any run, a query answered from the cache repeats the latest report about its
  // own question.
  lemma {:induction false} CacheCoherence(lib: Library, l: Limits, events: seq<Event>, e: Event)
    requires 1 <= l.capacity && e.Query?
    ensures var s := RunOf(lib, l, events);
            var (_, reply, result) := Handled(lib, s.world, l, e.config, e.request, e.client, e.clock, e.forwarded);
            result == Some(R.ForwardCache) ==> exists i :: Repeats(s.heard, e.request, e.clock, reply, i)
  {
    RunCoherent(lib, l, events);
    var i := HitRepeats(lib, l, RunOf(lib, l, events), e);
  }

  lemma {:induction false} HitRepeats(lib: Library, l: Limits, s: System, e: Event) returns (i: int)
    requires Coherent(s) && e.Query?
    ensures var (_, reply, result) := Handled(lib, s.world, l, e.config, e.request, e.client, e.clock, e.forwarded);
            result == Some(R.ForwardCache) ==> Repeats(s.heard, e.request, e.clock, reply, i)
  {
    var (_, reply, result) := Handled(lib, s.world, l, e.config, e.request, e.client, e.clock, e.forwarded);
    i := 0;
    if result == Some(R.ForwardCache) {
      HandledIsScreenedOrResolved(lib, s.world, l, e.config, e.request, e.client, e.clock, e.forwarded);
      ResolvedHit(lib, s.world, l, e.config.settings, e.request, e.client, e.clock, e.forwarded);
      var entry := Lookup(s.world.cache, KeyOf(e.request), e.clock.lookupAt).value;
      FindMember(s.world.cache, KeyOf(e.request));
      i := LiveEntryRepeats(s.heard, e.request, e.clock, entry);
    }
  }

  lemma LiveEntryRepeats(heard: seq<Heard>, request: Request, clock: Clock, entry: Entry<Reply>) returns (i: int)
    requires Backed(heard, Item(KeyOf(request), entry)) && clock.lookupAt < entry.expiresAt
    ensures Repeats(heard, request, clock,
                    Served(entry.value, request.id, Remaining(entry.expiresAt, clock.servedAt)), i)
  {
    i := BackingReport(heard, request, entry);
  }

  predicate KeptWithinSource(h: Heard) {
    h.Reported? ==> SourceTtl(h.reply).Some? && h.keptFor <= SourceTtl(h.reply).value
  }

  // What is kept may be kept at all, and was heard by `now`.
  predicate HeardBefore(h: Heard, now: real) {
    h.Reported? ==> SourceTtl(h.reply).Some? && h.keptFor > 0 && h.at <= now
  }

  lemma {:induction false} RunHeardBefore(lib: Library, l: Limits, events: seq<Event>, now: real)
    requires forall e | e in events :: e.Query? ==> e.clock.storedAt <= now
    ensures forall h | h in RunOf(lib, l, events).heard :: HeardBefore(h, now)
  {
    if events == [] {
    } else {
      var init, e := events[..|events| - 1], events[|events| - 1];
      assert e in events && forall x | x in init :: x in events;
      RunHeardBefore(lib, l, init, now);
      var result := HeardInStep(lib, l, RunOf(lib, l, init), e);
      assert forall h | h in HeardFrom(e, result) :: HeardBefore(h, now);
    }
  }

  lemma HeardInStep(lib: Library, l: Limits, s: System, e: Event) returns (result: Option<R.Result>)
    ensures Step(lib, l, s, e).heard == s.heard + HeardFrom(e, result)
  {
    result := if e.Query?
              then Handled(lib, s.world, l, e.config, e.request, e.client, e.clock, e.forwarded).2
              else None;
  }

  // Served `elapsed` after it was fetched, a record promises at most what is left of
  // `original`.
  predicate WithinWord(served: int, original: int, elapsed: real) {
    0 <= served && served as real <= MaxReal(0.0, original as real - elapsed)
  }

  // Each answer record of a positive reply stays within its own TTL; a negative reply
  // within both the TTL and the MINIMUM of its SOA.
  ghost predicate CountedDown(h: Heard, reply: Reply, now: real)
    requires h.Reported?
  {
    && |reply.rr| == |h.reply.rr| && |reply.auth| == |h.reply.auth|
    && (h.reply.rcode != NXDOMAIN ==>
          forall j | 0 <= j < |reply.rr| :: WithinWord(reply.rr[j].ttl, h.reply.rr[j].ttl, now - h.at))
    && (h.reply.rcode == NXDOMAIN || h.reply.rr == [] ==>
          var soa := FirstSoa(h.reply.auth);
          soa.Some? && forall r | r in reply.auth :: WithinWord(r.ttl, soa.value.ttl, now - h.at)
                                                     && WithinWord(r.ttl, soa.value.minimum, now - h.at))
  }

  // Over any run, every answer from the cache repeats the latest report, and if the reply
  // repeated was kept within the upstream's word it promises no more than what is left of
  // the upstream's own TTLs. Whatever else the run fetched does not matter.
  lemma {:induction false} CacheCountsDown(lib: Library, l: Limits, events: seq<Event>, e: Event)
    requires 1 <= l.capacity && e.Query?
    requires forall x | x in events :: x.Query? ==> x.clock.storedAt <= e.clock.servedAt
    ensures var s := RunOf(lib, l, events);
            var (_, reply, result) := Handled(lib, s.world, l, e.config, e.request, e.client, e.clock, e.forwarded);
            result == Some(R.ForwardCache) ==>
              exists i :: Repeats(s.heard, e.request, e.clock, reply, i)
                          && (KeptWithinSource(s.heard[i]) ==> CountedDown(s.heard[i], reply, e.clock.servedAt))
  {
    RunCoherent(lib, l, events);
    var s := RunOf(lib, l, events);
    var i := HitRepeats(lib, l, s, e);
    RunHeardBefore(lib, l, events, e.clock.servedAt);
    var (_, reply, result) := Handled(lib, s.world, l, e.config, e.request, e.client, e.clock, e.forwarded);
    if result == Some(R.ForwardCache) && KeptWithinSource(s.heard[i]) {
      assert s.heard[i] in s.heard;
      RepeatCountsDown(s.heard, e.request, e.clock, reply, i);
    }
  }

  lemma RepeatCountsDown(heard: seq<Heard>, request: Request, clock: Clock, reply: Reply, i: int)
    requires Repeats(heard, request, clock, reply, i)
    requires KeptWithinSource(heard[i]) && heard[i].at <= clock.servedAt
    ensures CountedDown(heard[i], reply, clock.servedAt)
  {
    ServedCountsDown(heard[i], request.id, clock.servedAt);
  }

  lemma ServedCountsDown(h: Heard, id: nat, now: real)
    requires h.Reported? && KeptWithinSource(h) && h.at <= now
    ensures CountedDown(h, ServedAt(h, id, now), now)
  {
    var served := Remaining(h.at + h.keptFor as real, now);
    assert WithinWord(served, h.keptFor, now - h.at);
  }

  // A report as a hit at `now` serves it.
  function ServedAt(h: Heard, id: nat, now: real): Reply
    requires h.Reported?
  {
    Served(h.reply, id, Remaining(h.at + h.keptFor as real, now))
  }

  // The condition is exact: what a run heard counts down at all later times if and only if
  // it is kept no longer than the upstream's word.
  lemma ReportCountsDownIff(h: Heard, id: nat)
    requires h.Reported? && HeardBefore(h, h.at)
    ensures (forall now | h.at <= now :: CountedDown(h, ServedAt(h, id, now), now)) <==> KeptWithinSource(h)
  {
    if KeptWithinSource(h) {
      forall now | h.at <= now
        ensures CountedDown(h, ServedAt(h, id, now), now)
      {
        ServedCountsDown(h, id, now);
      }
    }
    if CountedDown(h, ServedAt(h, id, h.at), h.at) {
      CountedDownAtOnce(h, id);
    }
  }

  lemma CountedDownAtOnce(h: Heard, id: nat)
    requires h.Reported? && HeardBefore(h, h.at)
    requires CountedDown(h, ServedAt(h, id, h.at), h.at)
    ensures KeptWithinSource(h)
  {
    var reply := ServedAt(h, id, h.at);
    assert Remaining(h.at + h.keptFor as real, h.at) == h.keptFor;
    if h.reply.rcode == NXDOMAIN || h.reply.rr == [] {
      var soa := FirstSoa(h.reply.auth).value;
      var k :| 0 <= k < |h.reply.auth| && h.reply.auth[k] == soa;
      assert reply.auth[k] in reply.auth && reply.auth[k].ttl == h.keptFor;
    } else {
      var least :| least in h.reply.rr && least.ttl == SmallestTtl(h.reply.rr);
      var k :| 0 <= k < |h.reply.rr| && h.reply.rr[k] == least;
      assert reply.rr[k].ttl == h.keptFor;
    }
  }

  // ----- Two hits of one run -----

  lemma {:induction false} HeardGrows(lib: Library, l: Limits, events: seq<Event>, more: seq<Event>)
    ensures var a, b := RunOf(lib, l, events).heard, RunOf(lib, l, events + more).heard;
            |a| <= |b| && a == b[..|a|]
  {
    if more == [] {
      assert events + more == events;
    } else {
      var init, e := more[..|more| - 1], more[|more| - 1];
      LastApart(events, more);
      HeardGrows(lib, l, events, init);
      assert (events + more)[..|events + more| - 1] == events + init;
      var result := HeardInStep(lib, l, RunOf(lib, l, events + init), e);
    }
  }

  // The same records, none with a larger TTL.
  predicate Fallen(reply: Reply, later: Reply) {
    FallenTtls(reply.rr, later.rr) && FallenTtls(reply.auth, later.auth) && FallenTtls(reply.ar, later.ar)
  }

  predicate FallenTtls(records: seq<RR>, later: seq<RR>) {
    && |records| == |later|
    && forall k | 0 <= k < |records| ::
         0 <= later[k].ttl <= records[k].ttl && later[k].(ttl := 0) == records[k].(ttl := 0)
  }

  // Of any two hits about one question in a run, the later repeats the same report or a
  // later one; if the same, then with the same records and no TTL grown.
  lemma {:induction false} LaterHitsFall(lib: Library, l: Limits, events: seq<Event>, e: Event, more: seq<Event>,
                                         later: Event)
    requires 1 <= l.capacity && e.Query? && later.Query?
    requires QuestionOf(e.request) == QuestionOf(later.request) && e.clock.servedAt <= later.clock.servedAt
    ensures var s, t := RunOf(lib, l, events), RunOf(lib, l, events + [e] + more);
            var (_, reply, result) := Handled(lib, s.world, l, e.config, e.request, e.client, e.clock, e.forwarded);
            var (_, reply', result') :=
              Handled(lib, t.world, l, later.config, later.request, later.client, later.clock, later.forwarded);
            result == Some(R.ForwardCache) == result' ==>
              exists i, j | i <= j :: Repeats(s.heard, e.request, e.clock, reply, i)
                                      && Repeats(t.heard, later.request, later.clock, reply', j)
                                      && (i == j ==> Fallen(reply, reply'))
  {
    var s, t := RunOf(lib, l, events), RunOf(lib, l, events + [e] + more);
    RunCoherent(lib, l, events);
    RunCoherent(lib, l, events + [e] + more);
    var i := HitRepeats(lib, l, s, e);
    var j := HitRepeats(lib, l, t, later);
    Regroup(events, [e], more);
    HeardGrows(lib, l, events, [e] + more);
    var (_, reply, result) := Handled(lib, s.world, l, e.config, e.request, e.client, e.clock, e.forwarded);
    var (_, reply', result') :=
      Handled(lib, t.world, l, later.config, later.request, later.client, later.clock, later.forwarded);
    if result == Some(R.ForwardCache) == result' {
      RepeatsInOrder(s.heard, t.heard, e.request, later.request, e.clock, later.clock, reply, reply', i, j);
    }
  }

  lemma RepeatsInOrder(heard: seq<Heard>, longer: seq<Heard>, request: Request, again: Request, clock: Clock,
                       after: Clock,
                       reply: Reply, reply': Reply, i: int, j: int)
    requires |heard| <= |longer| && heard == longer[..|heard|]
    requires QuestionOf(request) == QuestionOf(again) && clock.servedAt <= after.servedAt
    requires Repeats(heard, request, clock, reply, i) && Repeats(longer, again, after, reply', j)
    ensures i <= j && (i == j ==> Fallen(reply, reply'))
  {
    assert longer[i] == heard[i];
    if i == j {
      var h := heard[i];
      var expiry := h.at + h.keptFor as real;
      assert 0 <= Remaining(expiry, after.servedAt) <= Remaining(expiry, clock.servedAt);
    }
  }

  // The report behind an entry stored under a question's key is about that question.
  lemma BackingReport(heard: seq<Heard>, request: Request, entry: Entry<Reply>) returns (i: int)
    requires Backed(heard, Item(KeyOf(request), entry))
    ensures LatestReport(heard, QuestionOf(request), i)
    ensures entry == NewEntry(heard[i].reply, heard[i].keptFor, heard[i].at)
  {
    var x := Item(KeyOf(request), entry);
    var q, j :| LatestReport(heard, q, j) && x.key == CacheKey(q.name, q.qtype, q.qclass) && Text.Normalized(q.name)
                && x.value == NewEntry(heard[j].reply, heard[j].keptFor, heard[j].at);
    KeyOfQuestion(request);
    SameQuestion(q, QuestionOf(request));
    i := j;
  }

  lemma SameQuestion(q: Question, p: Question)
    requires Text.Normalized(q.name) && Text.Normalized(p.name)
    requires CacheKey(q.name, q.qtype, q.qclass) == CacheKey(p.name, p.qtype, p.qclass)
    ensures q == p
  {
    KeyIdentifiesQuestion(q.name, q.qtype, q.qclass, p.name, p.qtype, p.qclass);
    Text.NormalizeFixpoint(q.name);
    Text.NormalizeFixpoint(p.name);
  }

  // ----- The same with the queries' own steps interleaved -----

  // What concurrent queries and flushes do to the cache, one locked call at a time: each
  // query looks its key up, and may later store what it fetched.
  datatype CacheStep =
    | Look(request: Request, lookedAt: real)
    | Put(request: Request, reply: Reply, keptFor: int, putAt: real, outcomeAt: int)
    | Wipe

  datatype Shared = Shared(cache: Dict<Entry<Reply>>, heard: seq<Heard>)

  function ReportOf(step: CacheStep): Heard
    requires step.Put?
  {
    Reported(QuestionOf(step.request), step.reply, step.putAt, step.keptFor, step.outcomeAt)
  }

  function SharedNext(l: Limits, s: Shared, step: CacheStep): Shared {
    match step
    case Look(request, at) => s.(cache := AfterGet(s.cache, KeyOf(request), at))
    case Put(request, reply, keptFor, at, _) =>
      Shared(AfterSet(s.cache, l.capacity, KeyOf(request), NewEntry(reply, keptFor, at)), s.heard + [ReportOf(step)])
    case Wipe => Shared([], s.heard + [Flushed])
  }

  function SharedRun(l: Limits, s: Shared, steps: seq<CacheStep>): Shared {
    if steps == [] then s else SharedNext(l, SharedRun(l, s, steps[..|steps| - 1]), steps[|steps| - 1])
  }

  lemma {:induction false} SharedBacked(l: Limits, s: Shared, steps: seq<CacheStep>)
    requires 1 <= l.capacity && CacheBacked(s.cache, s.heard)
    ensures CacheBacked(SharedRun(l, s, steps).cache, SharedRun(l, s, steps).heard)
  {
    if steps == [] {
    } else {
      var init, step := steps[..|steps| - 1], steps[|steps| - 1];
      SharedBacked(l, s, init);
      var before := SharedRun(l, s, init);
      match step
      case Look(request, at) => LookKeeps(before.cache, before.heard, KeyOf(request), at);
      case Put(request, _, _, _, _) => PutKeeps(before.cache, before.heard, l.capacity, request, ReportOf(step));
      case Wipe =>
    }
  }

  // In any interleaving of the lookups and stores of any number of queries with flushes, a
  // lookup that hits gives an entry whose reply, served at any later time, repeats the
  // latest report about the question at the moment of the lookup.
  lemma {:induction false} InterleavedCoherence(l: Limits, steps: seq<CacheStep>, request: Request, clock: Clock)
    requires 1 <= l.capacity
    ensures var s := SharedRun(l, Shared([], []), steps);
            var hit := Lookup(s.cache, KeyOf(request), clock.lookupAt);
            hit.Some? ==>
              exists i :: Repeats(s.heard, request, clock,
                                  Served(hit.value.value, request.id,
                                         Remaining(hit.value.expiresAt, clock.servedAt)), i)
  {
    SharedBacked(l, Shared([], []), steps);
    var s := SharedRun(l, Shared([], []), steps);
    if Lookup(s.cache, KeyOf(request), clock.lookupAt).Some? {
      FindMember(s.cache, KeyOf(request));
      var i := LiveEntryRepeats(s.heard, request, clock, Lookup(s.cache, KeyOf(request), clock.lookupAt).value);
    }
  }

  // The steps of one query that nothing comes between.
  function CacheSteps(e: Event, looks: bool, heard: seq<Heard>): seq<CacheStep>
    requires e.Query?
  {
    (if looks then [Look(e.request, e.clock.lookupAt)] else [])
    + (if heard != [] && heard[0].Reported?
       then [Put(e.request, heard[0].reply, heard[0].keptFor, heard[0].at, heard[0].outcomeAt)]
       else [])
  }

  // A query handled as one step is such a lookup and such a store in a row, or neither.
  lemma QueryIsSteps(lib: Library, l: Limits, s: System, e: Event)
    requires e.Query?
    ensures var t := Step(lib, l, s, e);
            var heard := HeardFrom(e, Handled(lib, s.world, l, e.config, e.request, e.client, e.clock, e.forwarded).2);
            exists looks ::
              SharedRun(l, Shared(s.world.cache, s.heard), CacheSteps(e, looks, heard))
                   == Shared(t.world.cache, t.heard)
  {
    var (w1, _, result) := Handled(lib, s.world, l, e.config, e.request, e.client, e.clock, e.forwarded);
    var heard := HeardFrom(e, result);
    CacheEffect(lib, s.world, l, e);
    var looks := w1.cache != s.world.cache || heard != [];
    QueryStepsRun(l, Shared(s.world.cache, s.heard), e, looks, heard);
    assert heard == [] ==> s.heard + heard == s.heard;
    assert SharedRun(l, Shared(s.world.cache, s.heard), CacheSteps(e, looks, heard))
        == Shared(w1.cache, s.heard + heard);
  }

  lemma QueryStepsRun(l: Limits, s: Shared, e: Event, looks: bool, heard: seq<Heard>)
    requires e.Query? && |heard| <= 1 && (heard != [] ==> looks && heard[0].Reported?)
    requires heard != [] ==> heard[0].question == QuestionOf(e.request)
    ensures var looked := if looks then AfterGet(s.cache, KeyOf(e.request), e.clock.lookupAt) else s.cache;
            SharedRun(l, s, CacheSteps(e, looks, heard)) ==
            if heard == [] then Shared(looked, s.heard)
            else Shared(AfterSet(looked, l.capacity, KeyOf(e.request),
                                 NewEntry(heard[0].reply, heard[0].keptFor, heard[0].at)), s.heard + heard)
  {
    var look := Look(e.request, e.clock.lookupAt);
    assert [look][..0] == [];
    assert SharedRun(l, s, [look]) == SharedNext(l, s, look);
    if heard != [] {
      var put := Put(e.request, heard[0].reply, heard[0].keptFor, heard[0].at, heard[0].outcomeAt);
      assert ([look] + [put])[..1] == [look];
      assert heard == [ReportOf(put)];
    } else {
      assert [look] + [] == [look];
    }
  }
}
