// Screening one query: the decision, the answer cache, and what gets counted.
module Resolver {
  import opened Options
  import R = Results
  import opened Answers
  import opened OrderedDict
  import opened TtlCache
  import opened CacheKeys
  import opened Aggregation
  import opened QueryBuffers
  import opened HourlyStats
  import opened UpstreamStats
  import opened Uncacheable
  import opened Upstreams
  import opened LocalZones
  import opened AliasChase
  import Text
  import IpAddress
  import Policy
  import Blocklists = Blocklist

  // What the resolver takes from its libraries: IPv6 text, which values build an address
  // record, and the names of record types.
  datatype Library = Library(ip6: IpAddress.Ip6Text, builds: (nat, string) -> bool, typeName: nat -> string)

  datatype Config = Config(settings: Settings, policies: seq<Policy.Rule>, upstreams: seq<Upstream>,
                           blocklist: set<string>, excluded: set<string>, records: seq<LocalRecord>)

  // The clock readings of one query, in the order they are made.
  datatype Clock = Clock(lookupAt: real, servedAt: real, storedAt: real, outcomeAt: int, loggedAt: int)

  // ----- The decision -----

  function OverrideValues(text: string): seq<string> {
    NonEmpty(Text.Split(text, ','))
  }

  function NonEmpty(parts: seq<string>): seq<string> {
    if parts == [] then [] else
      var p := Text.Strip(parts[0]);
      (if p == "" then [] else [p]) + NonEmpty(parts[1..])
  }

  // The record one override value contributes to a question, if any.
  function OverrideRR(lib: Library, request: Request, value: string, ttl: int): seq<RR> {
    match IpAddress.ParseAddress(lib.ip6, value)
    case None => []
    case Some(a) =>
      if (request.qtype == TYPE_A && a.A4?) || (request.qtype == TYPE_AAAA && a.A6?)
      then [RR(request.qname, request.qtype, ttl, IpAddress.FormatAddress(lib.ip6, a), 0)]
      else []
  }

  function OverrideRRs(lib: Library, request: Request, values: seq<string>, ttl: int): seq<RR> {
    if values == [] then [] else
      OverrideRRs(lib, request, values[..|values| - 1], ttl) + OverrideRR(lib, request, values[|values| - 1], ttl)
  }

  // `_override`
  function OverrideReply(lib: Library, request: Request, rule: Policy.Rule): Reply {
    var text := match rule.overrideResponse case Some(t) => t case None => "";
    EmptyReply(request).(rr := OverrideRRs(lib, request, OverrideValues(text), rule.overrideTtl))
  }

  lemma OneMoreValue(lib: Library, request: Request, values: seq<string>, i: nat, ttl: int)
    requires i < |values|
    ensures OverrideRRs(lib, request, values[..i + 1], ttl)
         == OverrideRRs(lib, request, values[..i], ttl) + OverrideRR(lib, request, values[i], ttl)
  {
    assert values[..i + 1][..i] == values[..i];
  }

  method AddOverride(message: Message, lib: Library, request: Request, value: string, ttl: int)
    modifies message`rr
    ensures message.rr == old(message.rr) + OverrideRR(lib, request, value, ttl)
  {
    var address := IpAddress.ParseAddress(lib.ip6, value);
    if address.None? {
      return;
    }
    if request.qtype == TYPE_A && address.value.A4? {
      message.AddAnswer(RR(request.qname, TYPE_A, ttl, IpAddress.FormatAddress(lib.ip6, address.value), 0));
    } else if request.qtype == TYPE_AAAA && address.value.A6? {
      message.AddAnswer(RR(request.qname, TYPE_AAAA, ttl, IpAddress.FormatAddress(lib.ip6, address.value), 0));
    }
  }

  method BuildOverride(lib: Library, request: Request, rule: Policy.Rule) returns (reply: Reply)
    ensures reply == OverrideReply(lib, request, rule)
  {
    var message := new Message(EmptyReply(request));
    var values := OverrideValues(match rule.overrideResponse case Some(t) => t case None => "");
    for i := 0 to |values|
      invariant message.Value() == EmptyReply(request).(rr := OverrideRRs(lib, request, values[..i], rule.overrideTtl))
    {
      OneMoreValue(lib, request, values, i, rule.overrideTtl);
      AddOverride(message, lib, request, values[i], rule.overrideTtl);
    }
    assert values[..|values|] == values;
    return message.Value();
  }

  function DenyReply(request: Request): Reply {
    EmptyReply(request).(rcode := NXDOMAIN)
  }

  // A private reverse name nobody serves locally: answered and counted nowhere.
  predicate DropsSilently(c: Config, request: Request) {
    var name := Text.NormalizeDomain(request.qname);
    && c.settings.dropPrivatePtr && request.qtype == TYPE_PTR
    && IpAddress.IsPrivateReverseName(name)
    && !Owned(c.records, name)
  }

  function ActionFor(c: Config, request: Request, client: string): (Option<Policy.Rule>, string) {
    var rule := Policy.Select(c.policies, client, Text.NormalizeDomain(request.qname));
    (rule, match rule case Some(r) => r.action case None => c.settings.defaultAction)
  }

  // What screening answers by itself; None: the query goes on to the cache and upstreams.
  function Screened(lib: Library, c: Config, request: Request, client: string): Option<(Reply, R.Result)> {
    var (rule, action) := ActionFor(c, request, client);
    if request.qtype == TYPE_AAAA && !c.settings.ipv6Enabled then Some((EmptyReply(request), R.Nodata))
    else if action == Policy.ACTION_OVERRIDE && rule.Some? then
      Some((OverrideReply(lib, request, rule.value), R.Override))
    else if action == Policy.ACTION_DENY then Some((DenyReply(request), R.Deny))
    else if client !in c.excluded && Blocklists.IsBlocked(c.blocklist, Text.NormalizeDomain(request.qname)) then
      Some((DenyReply(request), R.Blocklist))
    else
      match LocalReply(c.records, request, lib.builds)
      case Some(reply) => Some((reply, R.Local))
      case None => None
  }

  // ----- Caching a forwarded answer -----

  // Whether `_cache_or_record_skip` stores the reply, and for how long; the reason it is
  // counted under; and the TTL that is noted when it is not stored.
  function Judged(reply: Reply, s: Settings): (Option<int>, R.Outcome, Option<int>) {
    if reply.rcode == NXDOMAIN then NegativeVerdict(reply, s, R.Nxdomain)
    else if reply.rcode != NOERROR then (None, R.Error, None)
    else if reply.rr == [] then NegativeVerdict(reply, s, R.EmptyAnswer)
    else
      var ttl := ComputeTtl(reply, s);
      if ttl > 0 then (Some(ttl), R.Cached, None) else (None, R.ZeroTtl, Some(SmallestTtl(reply.rr)))
  }

  function NegativeVerdict(reply: Reply, s: Settings, reason: R.Outcome): (Option<int>, R.Outcome, Option<int>) {
    match NegativeTtl(reply, s)
    case Some(ttl) => if ttl > 0 then (Some(ttl), R.Cached, None) else (None, reason, None)
    case None => (None, reason, None)
  }

  // The branches of the code keep a reply for exactly as long as the upstream's word and
  // the clamp allow, and count it as cached exactly when it is kept.
  lemma JudgedKeepsForSource(reply: Reply, s: Settings)
    ensures Judged(reply, s).0 == KeptFor(reply, s)
    ensures Judged(reply, s).1 == R.Cached <==> Judged(reply, s).0.Some?
    ensures Judged(reply, s).1 != R.UpstreamFailure
  {
  }

  // ----- One query's effect -----

  // The cache and the counts a query touches; `capacity` and `maxKeys` never change.
  datatype World = World(cache: Dict<Entry<Reply>>, queries: map<QueryKey, QueryCount>, stats: map<StatKey, StatRow>,
                         outcomes: map<OutcomeKey, nat>, uncached: map<DetailKey, Detail>)

  datatype Limits = Limits(capacity: nat, maxKeys: nat)

  function KeyOf(request: Request): string {
    CacheKey(request.qname, request.qtype, request.qclass)
  }

  function Tallied(lib: Library, w: World, l: Limits, request: Request, client: string, k: Clock,
                   reason: R.Outcome, ttl: Option<int>): World {
    var key := (client, Text.NormalizeDomain(request.qname), lib.typeName(request.qtype), reason);
    w.(outcomes := AddEvent(OUTCOMES, w.outcomes, OutcomeEvent(reason, k.outcomeAt)),
       uncached := if reason == R.Cached then w.uncached else AfterSkip(w.uncached, l.maxKeys, Skip(key, ttl)))
  }

  // Stores the reply if the verdict says so, and counts it under its reason.
  function Settled(lib: Library, w: World, l: Limits, request: Request, client: string, k: Clock, reply: Reply,
                   verdict: (Option<int>, R.Outcome, Option<int>)): World {
    var w1 := Tallied(lib, w, l, request, client, k, verdict.1, verdict.2);
    match verdict.0
    case Some(t) => w1.(cache := AfterSet(w.cache, l.capacity, KeyOf(request), NewEntry(reply, t, k.storedAt)))
    case None => w1
  }

  // `_cache_or_record_skip`
  function Stored(lib: Library, w: World, l: Limits, s: Settings, request: Request, client: string, k: Clock,
                  reply: Reply): World {
    Settled(lib, w, l, request, client, k, reply, Judged(reply, s))
  }

  function Servfailed(request: Request): Reply {
    EmptyReply(request).(rcode := SERVFAIL)
  }

  // `_forward_or_cache`; `forwarded` is what forwarding brings back if it is needed.
  function Resolved(lib: Library, w: World, l: Limits, s: Settings, request: Request, client: string, k: Clock,
                    forwarded: Option<Reply>): (World, Reply, R.Result) {
    var hit := if s.cacheEnabled then Lookup(w.cache, KeyOf(request), k.lookupAt) else None;
    var w1 := if s.cacheEnabled then w.(cache := AfterGet(w.cache, KeyOf(request), k.lookupAt)) else w;
    match hit
    case Some(e) => (w1, Served(e.value, request.id, Remaining(e.expiresAt, k.servedAt)), R.ForwardCache)
    case None =>
      match forwarded
      case None =>
        (if s.cacheEnabled then Tallied(lib, w1, l, request, client, k, R.UpstreamFailure, None) else w1,
         Servfailed(request), R.Servfail)
      case Some(reply) =>
        (if s.cacheEnabled then Stored(lib, w1, l, s, request, client, k, reply) else w1, reply, R.Forward)
  }

  function Summary(rr: seq<RR>): string {
    if rr == [] then "" else if |rr| == 1 then rr[0].data else Summary(rr[..|rr| - 1]) + ", " + rr[|rr| - 1].data
  }

  function LogEvent(lib: Library, request: Request, client: string, reply: Reply, result: R.Result): QueryEvent {
    QueryEvent(client, Text.NormalizeDomain(request.qname), lib.typeName(request.qtype), result, Summary(reply.rr))
  }

  function Logged(lib: Library, w: World, request: Request, client: string, k: Clock, reply: Reply,
                  result: R.Result): World {
    w.(queries := AddEvent(QUERIES, w.queries, LogEvent(lib, request, client, reply, result)),
       stats := AddEvent(CLIENT_STATS, w.stats, StatEvent(client, result, k.loggedAt)))
  }

  // Screening first, then the cache and the upstreams.
  function Decided(lib: Library, w: World, l: Limits, c: Config, request: Request, client: string, k: Clock,
                   forwarded: Option<Reply>): (World, Reply, R.Result) {
    match Screened(lib, c, request, client)
    case Some((reply, result)) => (w, reply, result)
    case None => Resolved(lib, w, l, c.settings, request, client, k, forwarded)
  }

  // `handle`. The result is None for a query that is answered but counted nowhere.
  function Handled(lib: Library, w: World, l: Limits, c: Config, request: Request, client: string, k: Clock,
                   forwarded: Option<Reply>): (World, Reply, Option<R.Result>) {
    if DropsSilently(c, request) then (w, EmptyReply(request), None)
    else
      var (w1, reply, result) := Decided(lib, w, l, c, request, client, k, forwarded);
      (Logged(lib, w1, request, client, k, reply, result), reply, Some(result))
  }

  lemma ScreenedNotResolved(lib: Library, c: Config, request: Request, client: string)
    ensures Screened(lib, c, request, client).Some? ==>
              var result := Screened(lib, c, request, client).value.1;
              result != R.Forward && result != R.Servfail && result != R.ForwardCache
  {
  }

  lemma ResolvedReply(lib: Library, w: World, l: Limits, s: Settings, request: Request, client: string, k: Clock,
                      forwarded: Option<Reply>)
    ensures var (_, reply, result) := Resolved(lib, w, l, s, request, client, k, forwarded);
            && (result == R.Forward ==> forwarded == Some(reply))
            && (result == R.Servfail ==> forwarded.None? && reply == Reply(request.id, 2, [], [], []))
  {
  }

  // A forwarded query is answered with what the upstreams brought back, and a failed one
  // with a bare server failure.
  lemma ForwardedAnswer(lib: Library, w: World, l: Limits, c: Config, request: Request, client: string, k: Clock,
                        forwarded: Option<Reply>)
    ensures var (_, reply, result) := Decided(lib, w, l, c, request, client, k, forwarded);
            && (result == R.Forward ==> forwarded == Some(reply))
            && (result == R.Servfail ==> forwarded.None? && reply == Reply(request.id, 2, [], [], []))
  {
    ScreenedNotResolved(lib, c, request, client);
    ResolvedReply(lib, w, l, c.settings, request, client, k, forwarded);
  }

  // ----- The resolver object -----

  class DnsResolver {
    const lib: Library
    const cache: TTLCache<Reply>
    const buffer: QueryBuffer
    const stats: ClientStatsBuffer
    const outcomes: CacheOutcomeBuffer
    const uncached: UncacheableBuffer
    const rtt: UpstreamRttBuffer
    var config: Config
    var local: LocalRecords

    ghost predicate Valid()
      reads this, cache, buffer, Objects(buffer.data)
    {
      cache.Valid() && buffer.Valid() && LocalsValid()
    }

    ghost predicate LocalsValid()
      reads this
    {
      local.Valid() && local.records == config.records
    }

    ghost function State(): World
      reads cache, buffer, stats, outcomes, uncached
    {
      World(cache.data, buffer.pending, stats.Pending(), outcomes.data, uncached.data)
    }

    ghost function Bounds(): Limits {
      Limits(cache.maxEntries, uncached.maxKeys)
    }

    constructor (lib: Library, config: Config, cacheEntries: int, maxKeys: int)
      ensures Valid() && this.config == config && this.lib == lib
      ensures State() == World([], map[], map[], map[], map[])
      ensures rtt.Both() == (map[], Coverage(None, {}))
      ensures Bounds().capacity == (if cacheEntries < 1 then 1 else cacheEntries)
    {
      this.lib := lib;
      this.config := config;
      cache := new TTLCache(cacheEntries);
      buffer := new QueryBuffer();
      stats := new ClientStatsBuffer();
      outcomes := new CacheOutcomeBuffer();
      uncached := new UncacheableBuffer(maxKeys);
      rtt := new UpstreamRttBuffer();
      local := new LocalRecords(config.records);
    }

    // `RuntimeState.reload`
    method Reload(config: Config)
      requires Valid()
      modifies this
      ensures Valid() && this.config == config
      ensures State() == old(State())
    {
      this.config := config;
      local := new LocalRecords(config.records);
    }

    // A query dropped for coming from an untrusted network only counts as such.
    method RecordForeign(k: Clock)
      modifies stats
      ensures State() == old(State()).(
                stats := AddEvent(CLIENT_STATS, old(stats.Pending()), StatEvent(FOREIGN_CLIENT, R.Foreign, k.loggedAt)))
    {
      stats.AddForeign(k.loggedAt);
    }

    method SkipCache(request: Request, client: string, k: Clock, reason: R.Outcome, ttl: Option<int>)
      requires reason != R.Cached
      modifies uncached, outcomes
      ensures State() == Tallied(lib, old(State()), Bounds(), request, client, k, reason, ttl)
    {
      uncached.Add(client, Text.NormalizeDomain(request.qname), lib.typeName(request.qtype), reason, ttl);
      outcomes.Add(reason, k.outcomeAt);
    }

    method CacheNegative(request: Request, reply: Reply, k: Clock) returns (stored: bool)
      requires cache.Valid()
      modifies cache, outcomes
      ensures cache.Valid()
      ensures var ttl := NegativeTtl(reply, config.settings);
              stored == (ttl.Some? && ttl.value > 0)
      ensures stored ==>
                State() == old(State()).(
                  cache := AfterSet(old(cache.data), cache.maxEntries, KeyOf(request),
                                    NewEntry(reply, NegativeTtl(reply, config.settings).value, k.storedAt)),
                  outcomes := AddEvent(OUTCOMES, old(outcomes.data), OutcomeEvent(R.Cached, k.outcomeAt)))
      ensures !stored ==> State() == old(State())
    {
      var ttl := NegativeTtl(reply, config.settings);
      if ttl.None? || ttl.value <= 0 {
        return false;
      }
      cache.Set(KeyOf(request), reply, ttl.value, k.storedAt);
      outcomes.Add(R.Cached, k.outcomeAt);
      return true;
    }

    method CacheNegativeOrSkip(request: Request, client: string, reply: Reply, k: Clock, reason: R.Outcome)
      requires cache.Valid() && reason != R.Cached
      modifies cache, outcomes, uncached
      ensures cache.Valid()
      ensures State() == Settled(lib, old(State()), Bounds(), request, client, k, reply,
                                 NegativeVerdict(reply, config.settings, reason))
    {
      var stored := CacheNegative(request, reply, k);
      if !stored {
        SkipCache(request, client, k, reason, None);
      }
    }

    method CacheOrRecordSkip(request: Request, client: string, reply: Reply, k: Clock)
      requires cache.Valid()
      modifies cache, outcomes, uncached
      ensures cache.Valid()
      ensures State() == Stored(lib, old(State()), Bounds(), config.settings, request, client, k, reply)
    {
      if reply.rcode == NXDOMAIN {
        CacheNegativeOrSkip(request, client, reply, k, R.Nxdomain);
        return;
      }
      if reply.rcode != NOERROR {
        SkipCache(request, client, k, R.Error, None);
        return;
      }
      if reply.rr == [] {
        CacheNegativeOrSkip(request, client, reply, k, R.EmptyAnswer);
        return;
      }
      var rawTtl := SmallestTtl(reply.rr);
      var ttl := ComputeTtl(reply, config.settings);
      if ttl > 0 {
        cache.Set(KeyOf(request), reply, ttl, k.storedAt);
        outcomes.Add(R.Cached, k.outcomeAt);
        return;
      }
      SkipCache(request, client, k, R.ZeroTtl, Some(rawTtl));
    }

    method ForwardOrCache(request: Request, client: string, k: Clock, shuffle: seq<Upstream> -> seq<Upstream>,
                          send: Network, elapsed: Upstream -> real)
      returns (reply: Reply, result: R.Result, ghost forwarded: Option<Reply>, ghost tried: seq<Upstream>)
      requires cache.Valid()
      requires forall s :: multiset(shuffle(s)) == multiset(s)
      modifies cache, outcomes, uncached, rtt
      ensures cache.Valid()
      ensures (State(), reply, result)
           == Resolved(lib, old(State()), Bounds(), config.settings, request, client, k, forwarded)
      ensures result == R.ForwardCache ==> tried == []
      ensures result != R.ForwardCache ==> BestReply(config.upstreams, send, forwarded)
      ensures FailoverOrder(config.upstreams, send, tried)
      ensures Timed(old(rtt.Both()), rtt.Both(), forwarded, tried, send, elapsed, k.loggedAt)
    {
      forwarded, tried := None, [];
      ghost var w := State();
      if config.settings.cacheEnabled {
        var hit := FromCache(request, k);
        if hit.Some? {
          return hit.value, R.ForwardCache, None, [];
        }
      }
      ghost var w1 := State();
      var answer;
      answer, tried := ForwardQuery(config.upstreams, shuffle, send, rtt, elapsed, k.loggedAt);
      assert State() == w1;
      forwarded := answer;
      if answer.None? {
        if config.settings.cacheEnabled {
          SkipCache(request, client, k, R.UpstreamFailure, None);
        }
        return Servfailed(request), R.Servfail, forwarded, tried;
      }
      if config.settings.cacheEnabled {
        CacheOrRecordSkip(request, client, answer.value, k);
      }
      return answer.value, R.Forward, forwarded, tried;
    }

    // A live cached answer with the question's id and its TTLs counted down.
    method FromCache(request: Request, k: Clock) returns (hit: Option<Reply>)
      requires cache.Valid()
      modifies cache
      ensures cache.Valid()
      ensures cache.data == AfterGet(old(cache.data), KeyOf(request), k.lookupAt)
      ensures hit == match Lookup(old(cache.data), KeyOf(request), k.lookupAt)
                     case Some(e) => Some(Served(e.value, request.id, Remaining(e.expiresAt, k.servedAt)))
                     case None => None
    {
      var entry := cache.Get(KeyOf(request), k.lookupAt);
      if entry.None? {
        return None;
      }
      var message := new Message(entry.value.value);
      message.id := request.id;
      message.SetTtls(Remaining(entry.value.expiresAt, k.servedAt));
      return Some(message.Value());
    }

    method Handle(request: Request, client: string, k: Clock, shuffle: seq<Upstream> -> seq<Upstream>,
                  send: Network, elapsed: Upstream -> real)
      returns (reply: Reply, ghost result: Option<R.Result>, ghost forwarded: Option<Reply>, ghost tried: seq<Upstream>)
      requires Valid()
      requires forall s :: multiset(shuffle(s)) == multiset(s)
      modifies cache, buffer, Objects(buffer.data), stats, outcomes, uncached, rtt
      ensures Valid()
      ensures (State(), reply, result) == Handled(lib, old(State()), Bounds(), config, request, client, k, forwarded)
      // The client gets what the upstreams brought back, or a bare server failure.
      ensures result == Some(R.Forward) ==> forwarded == Some(reply)
      ensures result == Some(R.Servfail) ==> forwarded.None? && reply == Reply(request.id, 2, [], [], [])
      // Upstreams are contacted only for a query that is forwarded, best priority first.
      ensures result != Some(R.Forward) && result != Some(R.Servfail) ==> tried == []
      ensures result == Some(R.Forward) || result == Some(R.Servfail) ==> BestReply(config.upstreams, send, forwarded)
      ensures FailoverOrder(config.upstreams, send, tried)
      ensures Timed(old(rtt.Both()), rtt.Both(), forwarded, tried, send, elapsed, k.loggedAt)
    {
      forwarded, tried := None, [];
      var dropped := DropsUnmatched(request);
      if dropped {
        return EmptyReply(request), None, None, [];
      }
      var answered: R.Result;
      reply, answered, forwarded, tried := AnswerAndLog(request, client, k, shuffle, send, elapsed);
      result := Some(answered);
    }

    method AnswerAndLog(request: Request, client: string, k: Clock, shuffle: seq<Upstream> -> seq<Upstream>,
                        send: Network, elapsed: Upstream -> real)
      returns (reply: Reply, result: R.Result, ghost forwarded: Option<Reply>, ghost tried: seq<Upstream>)
      requires Valid()
      requires forall s :: multiset(shuffle(s)) == multiset(s)
      modifies cache, buffer, Objects(buffer.data), stats, outcomes, uncached, rtt
      ensures Valid()
      ensures var (w, r, x) := Decided(lib, old(State()), Bounds(), config, request, client, k, forwarded);
              reply == r && result == x && State() == Logged(lib, w, request, client, k, r, x)
      ensures result == R.Forward ==> forwarded == Some(reply)
      ensures result == R.Servfail ==> forwarded.None? && reply == Reply(request.id, 2, [], [], [])
      ensures result != R.Forward && result != R.Servfail ==> tried == []
      ensures result == R.Forward || result == R.Servfail ==> BestReply(config.upstreams, send, forwarded)
      ensures FailoverOrder(config.upstreams, send, tried)
      ensures Timed(old(rtt.Both()), rtt.Both(), forwarded, tried, send, elapsed, k.loggedAt)
    {
      reply, result, forwarded, tried := Answer(request, client, k, shuffle, send, elapsed);
      ForwardedAnswer(lib, old(State()), Bounds(), config, request, client, k, forwarded);
      ghost var w := State();
      Log(request, client, k, reply, result);
      assert State() == Logged(lib, w, request, client, k, reply, result);
    }

    method DropsUnmatched(request: Request) returns (r: bool)
      requires LocalsValid()
      ensures r == DropsSilently(config, request)
    {
      var name := Text.NormalizeDomain(request.qname);
      local.Lookups(name, PTR);
      return config.settings.dropPrivatePtr && request.qtype == TYPE_PTR && IpAddress.IsPrivateReverseName(name)
             && !local.Owns(name);
    }

    // The chain of screening decisions, down to forwarding.
    method Answer(request: Request, client: string, k: Clock, shuffle: seq<Upstream> -> seq<Upstream>,
                  send: Network, elapsed: Upstream -> real)
      returns (reply: Reply, result: R.Result, ghost forwarded: Option<Reply>, ghost tried: seq<Upstream>)
      requires cache.Valid() && LocalsValid()
      requires forall s :: multiset(shuffle(s)) == multiset(s)
      modifies cache, outcomes, uncached, rtt
      ensures cache.Valid()
      ensures (State(), reply, result) == Decided(lib, old(State()), Bounds(), config, request, client, k, forwarded)
      ensures result != R.Forward && result != R.Servfail ==> tried == []
      ensures result == R.Forward || result == R.Servfail ==> BestReply(config.upstreams, send, forwarded)
      ensures FailoverOrder(config.upstreams, send, tried)
      ensures Timed(old(rtt.Both()), rtt.Both(), forwarded, tried, send, elapsed, k.loggedAt)
    {
      forwarded, tried := None, [];
      ghost var w := State();
      var screened := Screen(request, client);
      assert State() == w;
      if screened.Some? {
        return screened.value.0, screened.value.1, None, [];
      }
      reply, result, forwarded, tried := ForwardOrCache(request, client, k, shuffle, send, elapsed);
    }

    // The screening decisions of `handle`, in order.
    method Screen(request: Request, client: string) returns (r: Option<(Reply, R.Result)>)
      requires LocalsValid()
      ensures r == Screened(lib, config, request, client)
    {
      var rule := Policy.SelectPolicy(config.policies, client, request.qname);
      var action := match rule case Some(r) => r.action case None => config.settings.defaultAction;
      if request.qtype == TYPE_AAAA && !config.settings.ipv6Enabled {
        return Some((EmptyReply(request), R.Nodata));
      }
      if action == Policy.ACTION_OVERRIDE && rule.Some? {
        var reply := BuildOverride(lib, request, rule.value);
        return Some((reply, R.Override));
      }
      if action == Policy.ACTION_DENY {
        return Some((DenyReply(request), R.Deny));
      }
      if client !in config.excluded && Blocklists.IsBlocked(config.blocklist, Text.NormalizeDomain(request.qname)) {
        return Some((DenyReply(request), R.Blocklist));
      }
      var served := AnswerLocally(local, request, lib.builds);
      if served.Some? {
        return Some((served.value, R.Local));
      }
      return None;
    }

    method Log(request: Request, client: string, k: Clock, reply: Reply, result: R.Result)
      requires buffer.Valid()
      modifies buffer, Objects(buffer.data), stats
      ensures buffer.Valid()
      ensures buffer.pending == AddEvent(QUERIES, old(buffer.pending), LogEvent(lib, request, client, reply, result))
      ensures stats.Pending() == AddEvent(CLIENT_STATS, old(stats.Pending()), StatEvent(client, result, k.loggedAt))
    {
      ghost var counters := stats.data;
      buffer.Add(LogEvent(lib, request, client, reply, result));
      assert stats.data == counters;
      stats.Add(client, result, k.loggedAt);
    }
  }
}
