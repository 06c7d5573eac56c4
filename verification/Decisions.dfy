// What one query is answered and why, stated on the configuration, the question and the
// upstream's reply alone.
module Decisions {
  import opened Options
  import R = Results
  import opened Answers
  import opened OrderedDict
  import opened TtlCache
  import opened CacheKeys
  import opened Aggregation
  import opened QueryBuffers
  import opened HourlyStats
  import opened Uncacheable
  import opened LocalZones
  import opened Resolver
  import opened Screening
  import opened AliasChase
  import Blocklists = Blocklist
  import IpAddress
  import Policy
  import Text

  // ----- Which queries are dropped silently -----

  predicate InZone(c: Config, name: string) {
    exists r | r in c.records :: r.name == name
  }

  // The reverse name of a private IPv4 address, asked for its name.
  ghost predicate PrivateReverse(request: Request) {
    && request.qtype == 12
    && exists v: IpAddress.V4 :: IpAddress.PrivateOctets(v)
                                 && Text.StripDots(Text.NormalizeDomain(request.qname)) == IpAddress.ReverseV4(v)
  }

  // Exactly the private reverse names without a local record are answered empty and counted
  // nowhere, when the setting asks for it.
  lemma SilentIff(lib: Library, w: World, l: Limits, c: Config, request: Request, client: string, k: Clock,
                  forwarded: Option<Reply>)
    ensures var (w1, reply, result) := Handled(lib, w, l, c, request, client, k, forwarded);
            var silent := c.settings.dropPrivatePtr && PrivateReverse(request)
                          && !InZone(c, Text.NormalizeDomain(request.qname));
            && (result == None <==> silent)
            && (silent ==> w1 == w && reply == Reply(request.id, 0, [], [], []))
  {
    IpAddress.PrivateReverseNameExact(Text.NormalizeDomain(request.qname));
    HandledParts(lib, w, l, c, request, client, k, forwarded);
  }

  // ----- What screening leaves -----

  predicate Listed(c: Config, name: string) {
    name != "" && exists d | d in c.blocklist :: name == d || Text.EndsWith(name, "." + d)
  }

  // No denial and no override: a listed name does not exist for a client that is not
  // exempt; otherwise a name with local records is answered from them; any other is resolved.
  predicate FallsThrough(c: Config, request: Request, client: string, builds: (nat, string) -> bool, reply: Reply,
                         result: Option<R.Result>) {
    var name := Text.NormalizeDomain(request.qname);
    if client !in c.excluded && Listed(c, name) then
      result == Some(R.Blocklist) && reply == Reply(request.id, 3, [], [], [])
    else if InZone(c, name) then result == Some(R.Local) && LocalReply(c.records, request, builds) == Some(reply)
    else result == Some(R.Forward) || result == Some(R.ForwardCache) || result == Some(R.Servfail)
  }

  lemma ListedIff(c: Config, qname: string)
    ensures Blocklists.IsBlocked(c.blocklist, Text.NormalizeDomain(qname)) <==> Listed(c, Text.NormalizeDomain(qname))
  {
    var name := Text.NormalizeDomain(qname);
    Text.NormalizeFixpoint(qname);
    Text.NormalizeFixpoint(name);
    Blocklists.BlockedIffCovered(c.blocklist, name);
    assert forall d :: Blocklists.CoveredBy(name, d) <==> name == d || Text.EndsWith(name, "." + d);
  }

  lemma ScreenedRest(lib: Library, c: Config, request: Request, client: string)
    requires request.qtype == 28 ==> c.settings.ipv6Enabled
    requires var (rule, action) := ActionFor(c, request, client);
             action != "deny" && (action != "override" || rule.None?)
    ensures var name := Text.NormalizeDomain(request.qname);
            Screened(lib, c, request, client) ==
            if client !in c.excluded && Listed(c, name) then Some((Reply(request.id, 3, [], [], []), R.Blocklist))
            else match LocalReply(c.records, request, lib.builds)
                 case Some(reply) => Some((reply, R.Local))
                 case None => None
    ensures LocalReply(c.records, request, lib.builds).Some? <==> InZone(c, Text.NormalizeDomain(request.qname))
  {
    ListedIff(c, request.qname);
  }

  lemma RestFallsThrough(lib: Library, w: World, l: Limits, c: Config, request: Request, client: string, k: Clock,
                         forwarded: Option<Reply>)
    requires !DropsSilently(c, request) && (request.qtype == 28 ==> c.settings.ipv6Enabled)
    requires var (rule, action) := ActionFor(c, request, client);
             action != "deny" && (action != "override" || rule.None?)
    ensures var (_, reply, result) := Handled(lib, w, l, c, request, client, k, forwarded);
            FallsThrough(c, request, client, lib.builds, reply, result)
  {
    ScreenedRest(lib, c, request, client);
    HandledParts(lib, w, l, c, request, client, k, forwarded);
    ResolvedResults(lib, w, l, c.settings, request, client, k, forwarded);
  }

  // A query no rule matches, neither dropped nor a suppressed IPv6 question, gets the
  // default action.
  lemma NoRuleDecides(lib: Library, w: World, l: Limits, c: Config, request: Request, client: string, k: Clock,
                      forwarded: Option<Reply>)
    requires forall i | 0 <= i < |c.policies| ::
               !Policy.Matches(c.policies[i], client, Text.NormalizeDomain(request.qname))
    requires request.qtype == 28 ==> c.settings.ipv6Enabled
    ensures var (w1, reply, result) := Handled(lib, w, l, c, request, client, k, forwarded);
            result.Some? ==>
              if c.settings.defaultAction == "deny"
              then result == Some(R.Deny) && reply == Reply(request.id, 3, [], [], []) && w1.cache == w.cache
              else FallsThrough(c, request, client, lib.builds, reply, result)
  {
    Policy.SelectDocumentedOrder(c.policies, client, Text.NormalizeDomain(request.qname));
    HandledParts(lib, w, l, c, request, client, k, forwarded);
    if !DropsSilently(c, request) {
      if c.settings.defaultAction == "deny" {
        DeniedByDefault(lib, w, c, request, client, k);
      } else {
        RestFallsThrough(lib, w, l, c, request, client, k, forwarded);
      }
    }
  }

  lemma DeniedByDefault(lib: Library, w: World, c: Config, request: Request, client: string, k: Clock)
    requires Policy.Select(c.policies, client, Text.NormalizeDomain(request.qname)).None?
    requires c.settings.defaultAction == "deny" && (request.qtype == 28 ==> c.settings.ipv6Enabled)
    ensures Screened(lib, c, request, client) == Some((Reply(request.id, 3, [], [], []), R.Deny))
    ensures Logged(lib, w, request, client, k, Reply(request.id, 3, [], [], []), R.Deny).cache == w.cache
  {
    LoggedParts(lib, w, request, client, k, Reply(request.id, 3, [], [], []), R.Deny);
  }

  // A query some rule matches gets what the winning rule says.
  lemma MatchedRuleDecides(lib: Library, w: World, l: Limits, c: Config, request: Request, client: string, k: Clock,
                           forwarded: Option<Reply>, i: nat)
    requires |Text.NormalizeDomain(request.qname)| < Policy.SCORE_LIMIT
    requires Policy.Winner(c.policies, client, Text.NormalizeDomain(request.qname), i)
    requires request.qtype == 28 ==> c.settings.ipv6Enabled
    ensures var (w1, reply, result) := Handled(lib, w, l, c, request, client, k, forwarded);
            var rule := c.policies[i];
            result.Some? ==>
              if rule.action == "deny"
              then result == Some(R.Deny) && reply == Reply(request.id, 3, [], [], []) && w1.cache == w.cache
              else if rule.action == "override"
              then result == Some(R.Override) && reply == OverrideReply(lib, request, rule) && w1.cache == w.cache
              else FallsThrough(c, request, client, lib.builds, reply, result)
  {
    HandledParts(lib, w, l, c, request, client, k, forwarded);
    if !DropsSilently(c, request) {
      WinningRuleDecides(lib, w, l, c, request, client, k, forwarded, i);
      if c.policies[i].action != "deny" && c.policies[i].action != "override" {
        OnlyWinnerSelected(c.policies, client, Text.NormalizeDomain(request.qname), i);
        RestFallsThrough(lib, w, l, c, request, client, k, forwarded);
      }
    }
  }

  // A suppressed IPv6 question gets an empty answer and counts as such.
  lemma SuppressedExact(lib: Library, w: World, l: Limits, c: Config, request: Request, client: string, k: Clock,
                        forwarded: Option<Reply>)
    requires request.qtype == 28 && !c.settings.ipv6Enabled
    ensures var (_, reply, result) := Handled(lib, w, l, c, request, client, k, forwarded);
            result == Some(R.Nodata) && reply == Reply(request.id, 0, [], [], [])
  {
    HandledParts(lib, w, l, c, request, client, k, forwarded);
  }

  // ----- What resolving answers -----

  // The cache holds a reply to the question that is still live.
  predicate Live(w: World, request: Request, k: Clock) {
    match Find(w.cache, CacheKey(request.qname, request.qtype, request.qclass))
    case Some(e) => k.lookupAt < e.expiresAt
    case None => false
  }

  // The record as it was but for the TTL.
  predicate Retimed(records: seq<RR>, stored: seq<RR>, ttl: int) {
    && |records| == |stored|
    && forall j | 0 <= j < |records| ::
         records[j] == RR(stored[j].owner, stored[j].rtype, ttl, stored[j].data, stored[j].minimum)
  }

  // A hit is the stored reply with the question's id and every TTL the whole seconds left.
  predicate ServesEntry(reply: Reply, e: Entry<Reply>, request: Request, k: Clock) {
    var left := e.expiresAt - k.servedAt;
    var ttl := if left <= 0.0 then 0 else left.Floor;
    && reply.id == request.id && reply.rcode == e.value.rcode
    && Retimed(reply.rr, e.value.rr, ttl) && Retimed(reply.auth, e.value.auth, ttl)
    && Retimed(reply.ar, e.value.ar, ttl)
  }

  lemma ServedExact(e: Entry<Reply>, request: Request, k: Clock)
    ensures ServesEntry(Served(e.value, request.id, Remaining(e.expiresAt, k.servedAt)), e, request, k)
  {
  }

  // A query that is resolved is a hit exactly when caching is on and a live reply is
  // stored, and then serves it; otherwise the answer is what the upstreams brought back,
  // and a bare server failure when they brought nothing.
  lemma ResolvedAnswer(lib: Library, w: World, l: Limits, c: Config, request: Request, client: string, k: Clock,
                       forwarded: Option<Reply>)
    ensures var (_, reply, result) := Handled(lib, w, l, c, request, client, k, forwarded);
            result == Some(R.Forward) || result == Some(R.ForwardCache) || result == Some(R.Servfail) ==>
              if c.settings.cacheEnabled && Live(w, request, k) then
                && result == Some(R.ForwardCache)
                && ServesEntry(reply, Find(w.cache, CacheKey(request.qname, request.qtype, request.qclass)).value,
                               request, k)
              else if forwarded.Some? then result == Some(R.Forward) && reply == forwarded.value
              else result == Some(R.Servfail) && reply == Reply(request.id, 2, [], [], [])
  {
    HandledParts(lib, w, l, c, request, client, k, forwarded);
    ScreenedResults(lib, c, request, client);
    ResolvedByCases(lib, w, l, c.settings, request, client, k, forwarded);
  }

  lemma ResolvedByCases(lib: Library, w: World, l: Limits, s: Settings, request: Request, client: string, k: Clock,
                        forwarded: Option<Reply>)
    ensures var (_, reply, result) := Resolved(lib, w, l, s, request, client, k, forwarded);
            if s.cacheEnabled && Live(w, request, k) then
              && result == R.ForwardCache
              && ServesEntry(reply, Find(w.cache, CacheKey(request.qname, request.qtype, request.qclass)).value,
                             request, k)
            else if forwarded.Some? then result == R.Forward && reply == forwarded.value
            else result == R.Servfail && reply == Reply(request.id, 2, [], [], [])
  {
    if s.cacheEnabled && Live(w, request, k) {
      ServedExact(Find(w.cache, CacheKey(request.qname, request.qtype, request.qclass)).value, request, k);
    }
  }

  // ----- What one query counts -----

  // Each counted query adds one to the hour's row of its client, and to the query log's row
  // of its client, normalized name and type, where it leaves its result and its answers.
  lemma CountsQuery(lib: Library, w: World, l: Limits, c: Config, request: Request, client: string, k: Clock,
                    forwarded: Option<Reply>)
    ensures var (w1, reply, result) := Handled(lib, w, l, c, request, client, k, forwarded);
            var key := (client, Text.NormalizeDomain(request.qname), lib.typeName(request.qtype));
            if result.None? then w1.queries == w.queries && w1.stats == w.stats
            else
              && w1.stats == AddEvent(CLIENT_STATS, w.stats, StatEvent(client, result.value, k.loggedAt))
              && w1.queries == w.queries[key := QueryCount((if key in w.queries then w.queries[key].count else 0) + 1,
                                                           result.value, Summary(reply.rr))]
  {
    HandledParts(lib, w, l, c, request, client, k, forwarded);
    if !DropsSilently(c, request) {
      var d := Decided(lib, w, l, c, request, client, k, forwarded);
      LoggedParts(lib, d.0, request, client, k, d.1, d.2);
      ResolvedKeepsLogs(lib, w, l, c.settings, request, client, k, forwarded);
    }
  }

  // The outcome a forwarded query counts, and what is noted with it unless it is `cached`:
  // as cached when the reply is kept, else its reason.
  function OutcomeCounted(reply: Option<Reply>, s: Settings): (R.Outcome, Option<int>) {
    match reply
    case None => (R.UpstreamFailure, None)
    case Some(r) => if KeptFor(r, s).Some? then (R.Cached, None) else (Judged(r, s).1, Judged(r, s).2)
  }

  lemma ResolvedCounts(lib: Library, w: World, l: Limits, s: Settings, request: Request, client: string, k: Clock,
                       forwarded: Option<Reply>)
    requires s.cacheEnabled
    ensures var (w1, _, result) := Resolved(lib, w, l, s, request, client, k, forwarded);
            var (reason, ttl) := OutcomeCounted(forwarded, s);
            var skip := Skip((client, Text.NormalizeDomain(request.qname), lib.typeName(request.qtype), reason), ttl);
            if result == R.ForwardCache then w1.outcomes == w.outcomes && w1.uncached == w.uncached
            else
              && w1.outcomes == AddEvent(OUTCOMES, w.outcomes, OutcomeEvent(reason, k.outcomeAt))
              && w1.uncached == if reason == R.Cached then w.uncached else AfterSkip(w.uncached, l.maxKeys, skip)
  {
    if forwarded.Some? {
      JudgedKeepsForSource(forwarded.value, s);
    }
  }

  // With caching on a forwarded query counts one outcome, which unless it is `cached` is
  // also noted under its client, normalized name and type; any other query counts none.
  lemma CountsOutcome(lib: Library, w: World, l: Limits, c: Config, request: Request, client: string, k: Clock,
                      forwarded: Option<Reply>)
    requires c.settings.cacheEnabled
    ensures var (w1, _, result) := Handled(lib, w, l, c, request, client, k, forwarded);
            var (reason, ttl) := OutcomeCounted(forwarded, c.settings);
            var skip := Skip((client, Text.NormalizeDomain(request.qname), lib.typeName(request.qtype), reason), ttl);
            if result == Some(R.Forward) || result == Some(R.Servfail) then
              && w1.outcomes == AddEvent(OUTCOMES, w.outcomes, OutcomeEvent(reason, k.outcomeAt))
              && w1.uncached == if reason == R.Cached then w.uncached else AfterSkip(w.uncached, l.maxKeys, skip)
            else w1.outcomes == w.outcomes && w1.uncached == w.uncached
  {
    HandledParts(lib, w, l, c, request, client, k, forwarded);
    ScreenedNotResolved(lib, c, request, client);
    ResolvedResults(lib, w, l, c.settings, request, client, k, forwarded);
    ResolvedCounts(lib, w, l, c.settings, request, client, k, forwarded);
    if !DropsSilently(c, request) {
      var d := Decided(lib, w, l, c, request, client, k, forwarded);
      LoggedParts(lib, d.0, request, client, k, d.1, d.2);
    }
  }

  lemma ResolvedKeepsLogs(lib: Library, w: World, l: Limits, s: Settings, request: Request, client: string, k: Clock,
                          forwarded: Option<Reply>)
    ensures Resolved(lib, w, l, s, request, client, k, forwarded).0.stats == w.stats
    ensures Resolved(lib, w, l, s, request, client, k, forwarded).0.queries == w.queries
  {
  }

  // The log shows the answers' data in order, comma-separated.
  lemma {:induction false} SummaryExact(first: RR, rest: seq<RR>)
    ensures Summary([]) == "" && Summary([first]) == first.data
    ensures rest != [] ==> Summary([first] + rest) == first.data + ", " + Summary(rest)
  {
    if rest == [] {
    } else {
      var all := [first] + rest;
      assert all[..|all| - 1] == [first] + rest[..|rest| - 1];
      assert all[|all| - 1] == rest[|rest| - 1];
      if |rest| > 1 {
        SummaryExact(first, rest[..|rest| - 1]);
      } else {
        assert rest == [rest[0]] && rest[..0] == [];
        assert [first] + rest[..0] == [first];
      }
    }
  }

  // Why a forwarded reply is not cached, and the TTL noted with it.
  lemma UncachedReason(reply: Reply, s: Settings)
    requires KeptFor(reply, s) == None
    ensures reply.rcode == 3 ==> Judged(reply, s).1 == R.Nxdomain && Judged(reply, s).2 == None
    ensures reply.rcode == 0 && reply.rr == [] ==> Judged(reply, s).1 == R.EmptyAnswer && Judged(reply, s).2 == None
    ensures reply.rcode == 0 && reply.rr != [] ==>
              Judged(reply, s).1 == R.ZeroTtl && Judged(reply, s).2 == Some(SmallestTtl(reply.rr))
    ensures reply.rcode != 0 && reply.rcode != 3 ==> Judged(reply, s).1 == R.Error && Judged(reply, s).2 == None
  {
  }
}
