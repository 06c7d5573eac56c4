// The cache-flush request that crosses processes through the settings table.
module FlushSignal {
  import opened Options
  import opened OrderedDict
  import opened TtlCache
  import opened Sequences
  import Text

  const FLUSH_KEY := "cache_flush_requested_at"

  // `datetime.now().isoformat(timespec="seconds")`: equal within one second, and
  // different from one second to another.
  function Stamp(micros: nat): string {
    Text.Decimal(micros / 1_000_000)
  }

  lemma StampSeconds(m: nat, n: nat)
    ensures Stamp(m) == Stamp(n) <==> m / 1_000_000 == n / 1_000_000
  {
    Text.DecimalValue(m / 1_000_000);
    Text.DecimalValue(n / 1_000_000);
  }

  // The `app_settings` key/value table.
  class AppSettings {
    var rows: map<string, string>

    constructor ()
      ensures rows == map[]
    {
      rows := map[];
    }

    ghost function Requested(): Option<string>
      reads this
    {
      if FLUSH_KEY in rows then Some(rows[FLUSH_KEY]) else None
    }

    method RequestCacheFlush(micros: nat) returns (requestedAt: string)
      modifies this
      ensures requestedAt == Stamp(micros)
      ensures Requested() == Some(requestedAt)
      ensures rows - {FLUSH_KEY} == old(rows) - {FLUSH_KEY}
    {
      requestedAt := Stamp(micros);
      rows := rows[FLUSH_KEY := requestedAt];
    }

    method GetCacheFlushRequest() returns (r: Option<string>)
      ensures r == Requested()
    {
      return if FLUSH_KEY in rows then Some(rows[FLUSH_KEY]) else None;
    }
  }

  // The worker thread: `available` says whether each read of the database succeeds.
  class CacheFlusher<T(0)> {
    const settings: AppSettings
    const cache: TTLCache<T>
    var lastSeen: Option<string>

    constructor (settings: AppSettings, cache: TTLCache<T>, available: bool)
      ensures this.settings == settings && this.cache == cache
      ensures State() == Started(cache.data, settings.Requested(), available)
      ensures lastSeen == if available then settings.Requested() else None
    {
      this.settings := settings;
      this.cache := cache;
      new;
      lastSeen := None;
      if available {
        var r := settings.GetCacheFlushRequest();
        lastSeen := r;
      }
    }

    ghost function State(): System<T>
      reads this, settings, cache
    {
      System(cache.data, settings.Requested(), lastSeen)
    }

    method PollOnce(available: bool)
      modifies this, cache
      ensures State() == Next(old(State()), cache.maxEntries, Poll(available))
    {
      if !available {
        return;
      }
      var requested := settings.GetCacheFlushRequest();
      if requested.Some? && requested != lastSeen {
        cache.Clear();
        lastSeen := requested;
      }
    }
  }

  // ----- Runs of the two processes -----

  datatype System<+T> = System(cache: Dict<Entry<T>>, requested: Option<string>, lastSeen: Option<string>)

  datatype Step<+T> = Use(op: Op<T>) | Request(micros: nat) | Poll(available: bool)

  function Next<T>(s: System<T>, capacity: nat, step: Step<T>): System<T> {
    match step
    case Use(op) => s.(cache := Apply(s.cache, capacity, op))
    case Request(micros) => s.(requested := Some(Stamp(micros)))
    case Poll(available) =>
      if available && s.requested.Some? && s.requested != s.lastSeen
      then System([], s.requested, s.requested)
      else s
  }

  function After<T>(s: System<T>, capacity: nat, steps: seq<Step<T>>): System<T> {
    if steps == [] then s
    else Next(After(s, capacity, steps[..|steps| - 1]), capacity, steps[|steps| - 1])
  }

  lemma AfterOne<T>(s: System<T>, capacity: nat, steps: seq<Step<T>>, step: Step<T>)
    ensures After(s, capacity, steps + [step]) == Next(After(s, capacity, steps), capacity, step)
  {
    assert (steps + [step])[..|steps|] == steps;
  }

  lemma {:induction false} AfterAppend<T>(s: System<T>, capacity: nat, steps: seq<Step<T>>, more: seq<Step<T>>)
    ensures After(s, capacity, steps + more) == After(After(s, capacity, steps), capacity, more)
  {
    if more == [] {
      assert steps + more == steps;
    } else {
      var init, step := more[..|more| - 1], more[|more| - 1];
      LastApart(steps, more);
      AfterAppend(s, capacity, steps, init);
      AfterOne(s, capacity, steps + init, step);
      AfterOne(After(s, capacity, steps), capacity, init, step);
    }
  }

  lemma AfterFirst<T>(s: System<T>, capacity: nat, step: Step<T>, rest: seq<Step<T>>)
    ensures After(s, capacity, [step] + rest) == After(Next(s, capacity, step), capacity, rest)
  {
    AfterAppend(s, capacity, [step], rest);
    AfterOne(s, capacity, [], step);
    assert [] + [step] == [step];
  }

  // The steps that store `e` under `key`.
  predicate Stores<T(==)>(step: Step<T>, key: string, e: Entry<T>) {
    step.Use? && step.op.Set? && step.op.key == key
    && NewEntry(step.op.value, step.op.ttl, step.op.now) == e
  }

  lemma StoredByStep<T>(d: Dict<Entry<T>>, capacity: nat, step: Step<T>, x: Item<Entry<T>>)
    requires step.Use? && x in Apply(d, capacity, step.op) && x !in d
    ensures Stores(step, x.key, x.value)
  {
    match step.op
    case Get(key, now) => AfterGetMembers(d, key, now, x);
    case Set(key, value, ttl, now) => AfterSetMembers(d, capacity, key, NewEntry(value, ttl, now), x);
  }

  // Whatever the cache holds was there at the start or was stored since.
  lemma {:induction false} Provenance<T>(s: System<T>, capacity: nat, steps: seq<Step<T>>, x: Item<Entry<T>>)
    requires x in After(s, capacity, steps).cache
    ensures x in s.cache || exists step | step in steps :: Stores(step, x.key, x.value)
  {
    if steps == [] {
    } else {
      var init, step := steps[..|steps| - 1], steps[|steps| - 1];
      var c := After(s, capacity, init).cache;
      assert step in steps && forall t | t in init :: t in steps;
      if x in c {
        Provenance(s, capacity, init, x);
      } else {
        StoredByStep(c, capacity, step, x);
      }
    }
  }

  // Without a successful poll the worker keeps what it saw, and the cache follows its
  // own operations only: a failed poll is as good as none.
  lemma {:induction false} FailedPollsOnlyDelay<T>(s: System<T>, capacity: nat, steps: seq<Step<T>>)
    requires Poll(true) !in steps
    ensures After(s, capacity, steps).lastSeen == s.lastSeen
    ensures After(s, capacity, steps).cache == Run(s.cache, capacity, CacheOps(steps))
  {
    if steps == [] {
    } else {
      var init, step := steps[..|steps| - 1], steps[|steps| - 1];
      assert step in steps && forall t | t in init :: t in steps;
      FailedPollsOnlyDelay(s, capacity, init);
      match step
      case Use(op) =>
        assert CacheOps(steps)[..|CacheOps(steps)| - 1] == CacheOps(init);
      case Request(micros) =>
        assert CacheOps(steps) == CacheOps(init);
      case Poll(available) =>
        assert !available;
        assert CacheOps(steps) == CacheOps(init);
    }
  }

  function CacheOps<T>(steps: seq<Step<T>>): seq<Op<T>> {
    if steps == [] then [] else
      CacheOps(steps[..|steps| - 1])
      + if steps[|steps| - 1].Use? then [steps[|steps| - 1].op] else []
  }

  // Whether a successful poll would act on what the table holds now.
  predicate Pending<T>(s: System<T>) {
    s.requested.Some? && s.requested != s.lastSeen
  }

  // A request takes effect at the first successful poll after it exactly when the
  // stamp then in the table is not the one the worker acted on last. When it does, every
  // entry served afterwards was stored after that poll; when it does not, the poll
  // leaves the cache alone. Requests between two polls count once.
  lemma {:induction false} FlushTakesEffect<T>(s: System<T>, capacity: nat, micros: nat, between: seq<Step<T>>,
                                               after: seq<Step<T>>)
    requires Poll(true) !in between
    ensures var polled := [Request(micros)] + between + [Poll(true)];
            var before := After(s, capacity, [Request(micros)] + between);
            if Pending(before)
            then After(s, capacity, polled).cache == []
                 && !Pending(After(s, capacity, polled))
                 && forall x | x in After(s, capacity, polled + after).cache ::
                      exists step | step in after :: Stores(step, x.key, x.value)
            else After(s, capacity, polled) == before
  {
    var waiting := [Request(micros)] + between;
    var polled := waiting + [Poll(true)];
    assert polled[..|waiting|] == waiting;
    AfterAppend(s, capacity, polled, after);
    if Pending(After(s, capacity, waiting)) {
      forall x | x in After(s, capacity, polled + after).cache
        ensures exists step | step in after :: Stores(step, x.key, x.value)
      {
        Provenance(After(s, capacity, polled), capacity, after, x);
      }
    }
  }

  // ----- When every request is in a later second than the one before -----

  // What the table and the worker hold comes from before the given second.
  ghost predicate Older(o: Option<string>, second: nat) {
    o.Some? ==> exists t: nat :: t < second && o.value == Text.Decimal(t)
  }

  ghost predicate Consistent<T>(s: System<T>, second: nat) {
    Older(s.requested, second) && Older(s.lastSeen, second)
  }

  // Each request falls in a second of its own, the first not before `second`.
  predicate OneRequestPerSecond<T>(steps: seq<Step<T>>, second: nat) {
    steps == [] ||
    (if steps[0].Request?
     then second <= steps[0].micros / 1_000_000
          && OneRequestPerSecond(steps[1..], steps[0].micros / 1_000_000 + 1)
     else OneRequestPerSecond(steps[1..], second))
  }

  lemma OlderLater(o: Option<string>, second: nat, later: nat)
    requires Older(o, second) && second <= later
    ensures Older(o, later)
  {
  }

  lemma StampNew(o: Option<string>, micros: nat)
    requires Older(o, micros / 1_000_000)
    ensures o != Some(Stamp(micros))
    ensures Older(Some(Stamp(micros)), micros / 1_000_000 + 1)
  {
    Text.DecimalValue(micros / 1_000_000);
    if o == Some(Stamp(micros)) {
      var t: nat :| t < micros / 1_000_000 && o.value == Text.Decimal(t);
      Text.DecimalValue(t);
    }
  }

  // Between a request and the first successful poll, what the worker saw last stays
  // older than what the table holds.
  lemma {:induction false} StaysPending<T>(s: System<T>, capacity: nat, steps: seq<Step<T>>, second: nat)
    requires Poll(true) !in steps && Pending(s)
    requires Older(s.lastSeen, second) && OneRequestPerSecond(steps, second)
    ensures Pending(After(s, capacity, steps))
    decreases |steps|
  {
    if steps == [] {
    } else {
      var step := steps[0];
      FirstApart(steps, Poll(true));
      AfterFirst(s, capacity, step, steps[1..]);
      var s1 := Next(s, capacity, step);
      if step.Request? {
        OlderLater(s.lastSeen, second, step.micros / 1_000_000);
        StampNew(s.lastSeen, step.micros);
        OlderLater(s.lastSeen, second, step.micros / 1_000_000 + 1);
        StaysPending(s1, capacity, steps[1..], step.micros / 1_000_000 + 1);
      } else {
        StaysPending(s1, capacity, steps[1..], second);
      }
    }
  }

  // With at most one request in any second, the first successful poll after a request
  // always clears, whatever happened in between.
  lemma {:induction false} DistinctSecondsAlwaysFlush<T>(s: System<T>, capacity: nat, micros: nat,
                                                         between: seq<Step<T>>)
    requires Poll(true) !in between
    requires Consistent(s, micros / 1_000_000)
    requires OneRequestPerSecond(between, micros / 1_000_000 + 1)
    ensures Pending(After(s, capacity, [Request(micros)] + between))
    ensures After(s, capacity, [Request(micros)] + between + [Poll(true)]).cache == []
  {
    AfterFirst(s, capacity, Request(micros), between);
    var s1 := s.(requested := Some(Stamp(micros)));
    StampNew(s.lastSeen, micros);
    OlderLater(s.lastSeen, micros / 1_000_000, micros / 1_000_000 + 1);
    StaysPending(s1, capacity, between, micros / 1_000_000 + 1);
    FlushTakesEffect(s, capacity, micros, between, []);
  }

  // One step keeps what the table and the worker hold older than the requests to come.
  lemma ConsistentStep<T>(s: System<T>, capacity: nat, step: Step<T>, second: nat)
    requires Consistent(s, second) && (step.Request? ==> second <= step.micros / 1_000_000)
    ensures Consistent(Next(s, capacity, step), if step.Request? then step.micros / 1_000_000 + 1 else second)
  {
    if step.Request? {
      OlderLater(s.lastSeen, second, step.micros / 1_000_000 + 1);
      StampNew(None, step.micros);
    }
  }

  // The requests after any part of a run are all in later seconds than what that part left.
  lemma {:induction false} ConsistentBeforeRest<T>(s: System<T>, capacity: nat, steps: seq<Step<T>>, rest: seq<Step<T>>,
                                                   second: nat) returns (later: nat)
    requires Consistent(s, second) && OneRequestPerSecond(steps + rest, second)
    ensures Consistent(After(s, capacity, steps), later) && OneRequestPerSecond(rest, later)
    decreases |steps|
  {
    if steps == [] {
      assert steps + rest == rest;
      return second;
    }
    var step := steps[0];
    assert (steps + rest)[1..] == steps[1..] + rest;
    ConsistentStep(s, capacity, step, second);
    assert steps == [step] + steps[1..];
    AfterFirst(s, capacity, step, steps[1..]);
    later := ConsistentBeforeRest(Next(s, capacity, step), capacity, steps[1..], rest,
                                  if step.Request? then step.micros / 1_000_000 + 1 else second);
  }

  lemma {:induction false} RequestsOfPrefix<T>(steps: seq<Step<T>>, rest: seq<Step<T>>, second: nat)
    requires OneRequestPerSecond(steps + rest, second)
    ensures OneRequestPerSecond(steps, second)
  {
    if steps == [] {
    } else {
      assert (steps + rest)[1..] == steps[1..] + rest;
      RequestsOfPrefix(steps[1..], rest, if steps[0].Request? then steps[0].micros / 1_000_000 + 1 else second);
    }
  }

  // Over a whole run from any state older than its requests, a worker just restarted
  // included, and with requests at most once a second: after the first successful poll
  // following any request, everything the cache holds at any later time was stored after
  // that poll.
  lemma {:induction false} EveryRequestFlushes<T>(start: System<T>, second: nat, capacity: nat, earlier: seq<Step<T>>,
                                                  micros: nat, between: seq<Step<T>>, after: seq<Step<T>>)
    requires Consistent(start, second)
    requires OneRequestPerSecond(earlier + ([Request(micros)] + (between + ([Poll(true)] + after))), second)
    requires Poll(true) !in between
    ensures forall x | x in After(start, capacity,
                                  earlier + ([Request(micros)] + between + [Poll(true)] + after)).cache ::
              exists step | step in after :: Stores(step, x.key, x.value)
  {
    var rest := between + ([Poll(true)] + after);
    var requested: seq<Step<T>> := [Request(micros)] + rest;
    var later := ConsistentBeforeRest(start, capacity, earlier, requested, second);
    assert requested[1..] == rest && requested[0] == Request(micros);
    RequestsOfPrefix(between, [Poll(true)] + after, micros / 1_000_000 + 1);
    var s := After(start, capacity, earlier);
    OlderLater(s.requested, later, micros / 1_000_000);
    OlderLater(s.lastSeen, later, micros / 1_000_000);
    DistinctSecondsAlwaysFlush(s, capacity, micros, between);
    FlushTakesEffect(s, capacity, micros, between, after);
    AfterAppend(start, capacity, earlier, [Request(micros)] + between + [Poll(true)] + after);
  }

  // What a worker starts with: the table and the cache as they are by then, and the stored
  // stamp taken as acted on if the first read succeeds.
  function Started<T>(cache: Dict<Entry<T>>, requested: Option<string>, available: bool): System<T> {
    System(cache, requested, if available then requested else None)
  }

  // Whatever the table holds from earlier seconds, and whether or not the first read
  // succeeds, a worker starts in a state the whole-run theorem covers.
  lemma RestartIsConsistent<T>(cache: Dict<Entry<T>>, requested: Option<string>, second: nat, available: bool)
    requires Older(requested, second)
    ensures Consistent(Started(cache, requested, available), second)
  {
  }

  // The servers run before the worker's first read. A request made in between is taken as
  // acted on: until another request, polls leave the cache to its own operations, and what
  // was stored before the request goes on being served. Only a failed first read saves it.
  lemma {:induction false} EarlyRequestLost<T>(cache: Dict<Entry<T>>, micros: nat, capacity: nat, steps: seq<Step<T>>)
    requires forall step | step in steps :: !step.Request?
    ensures var start := Started(cache, Some(Stamp(micros)), true);
            && After(start, capacity, steps).cache == Run(cache, capacity, CacheOps(steps))
            && !Pending(After(start, capacity, steps))
    ensures After(Started(cache, Some(Stamp(micros)), false), capacity, [Poll(true)]).cache == []
  {
    var late := Started(cache, Some(Stamp(micros)), false);
    var poll: seq<Step<T>> := [Poll(true)];
    AfterOne(late, capacity, [], Poll(true));
    assert [] + poll == poll;
    QuietPolls(Started(cache, Some(Stamp(micros)), true), capacity, steps);
  }

  // With nothing pending and no new request the cache follows its own operations only.
  lemma {:induction false} QuietPolls<T>(s: System<T>, capacity: nat, steps: seq<Step<T>>)
    requires !Pending(s) && forall step | step in steps :: !step.Request?
    ensures After(s, capacity, steps).cache == Run(s.cache, capacity, CacheOps(steps))
    ensures After(s, capacity, steps).requested == s.requested && After(s, capacity, steps).lastSeen == s.lastSeen
  {
    if steps == [] {
    } else {
      var init, step := steps[..|steps| - 1], steps[|steps| - 1];
      assert step in steps && forall t | t in init :: t in steps;
      QuietPolls(s, capacity, init);
      match step
      case Use(op) => RunOne(s.cache, capacity, CacheOps(init), op);
      case Poll(available) => assert CacheOps(steps) == CacheOps(init);
    }
  }

  // Two requests within one second around a poll: the second one is lost, and what was
  // stored between the polls goes on being served.
  lemma SameSecondRequestLost<T>(capacity: nat, micros: nat, again: nat, key: string, value: T, ttl: int, now: real)
    requires micros / 1_000_000 == again / 1_000_000 && 1 <= capacity
    ensures var steps := [Request(micros), Poll(true)] + [Use(Set(key, value, ttl, now))]
                         + [Request(again), Poll(true)];
            Find(After(System([], None, None), capacity, steps).cache, key) == Some(NewEntry(value, ttl, now))
  {
    StampSeconds(micros, again);
    var start: System<T> := System([], None, None);
    var use := Use(Set(key, value, ttl, now));
    var x := Item(key, NewEntry(value, ttl, now));
    AfterAppend(start, capacity, [Request(micros), Poll(true)] + [use], [Request(again), Poll(true)]);
    AfterOne(start, capacity, [Request(micros), Poll(true)], use);
    AfterTwo(start, capacity, Request(micros), Poll(true));
    assert Apply([], capacity, use.op) == [x];
    var stored: System<T> := System([x], Some(Stamp(micros)), Some(Stamp(micros)));
    AfterTwo(stored, capacity, Request(again), Poll(true));
    assert [] + [x] == [x];
    FindAfterAppend([], x, key);
  }

  lemma AfterTwo<T>(s: System<T>, capacity: nat, first: Step<T>, second: Step<T>)
    ensures After(s, capacity, [first, second]) == Next(Next(s, capacity, first), capacity, second)
  {
    assert [first, second] == [first] + [second];
    AfterFirst(s, capacity, first, [second]);
    AfterFirst(Next(s, capacity, first), capacity, second, []);
    assert [second] + [] == [second];
  }
}
