// How one query is decided: which rule, list or record answers it, and what stays local.
module Screening {
  import opened Options
  import R = Results
  import opened Answers
  import opened Aggregation
  import opened QueryBuffers
  import opened HourlyStats
  import opened LocalZones
  import opened Resolver
  import Blocklists = Blocklist
  import IpAddress
  import Policy
  import Text

  // Logging a query only adds to the query log and the client statistics.
  lemma LoggedParts(lib: Library, w: World, request: Request, client: string, k: Clock, reply: Reply, result: R.Result)
    ensures var w1 := Logged(lib, w, request, client, k, reply, result);
            && w1.cache == w.cache && w1.outcomes == w.outcomes && w1.uncached == w.uncached
            && w1.stats == AddEvent(CLIENT_STATS, w.stats, StatEvent(client, result, k.loggedAt))
            && w1.queries == AddEvent(QUERIES, w.queries, LogEvent(lib, request, client, reply, result))
  {
  }

  lemma HandledParts(lib: Library, w: World, l: Limits, c: Config, request: Request, client: string, k: Clock,
                     forwarded: Option<Reply>)
    ensures var h := Handled(lib, w, l, c, request, client, k, forwarded);
            if DropsSilently(c, request) then h == (w, EmptyReply(request), None)
            else
              var d := Decided(lib, w, l, c, request, client, k, forwarded);
              h == (Logged(lib, d.0, request, client, k, d.1, d.2), d.1, Some(d.2))
  {
  }

  lemma ScreenedResults(lib: Library, c: Config, request: Request, client: string)
    ensures var s := Screened(lib, c, request, client);
            s.Some? ==> s.value.1 in {R.Nodata, R.Override, R.Deny, R.Blocklist, R.Local}
  {
  }

  // ----- What never leaves -----

  // A name in the local records is never answered from the cache or an upstream, and
  // asking for it leaves the cache and the forwarding counts as they were; its answer is
  // the same whatever the cache holds and the upstreams would say.
  lemma OwnedNamesStayLocal(lib: Library, w: World, l: Limits, c: Config, request: Request, client: string, k: Clock,
                            forwarded: Option<Reply>, w': World, forwarded': Option<Reply>)
    requires Owned(c.records, Text.NormalizeDomain(request.qname))
    ensures var (w1, reply, result) := Handled(lib, w, l, c, request, client, k, forwarded);
            && result.Some? && result != Some(R.Forward) && result != Some(R.ForwardCache) && result != Some(R.Servfail)
            && w1.cache == w.cache && w1.outcomes == w.outcomes && w1.uncached == w.uncached
            && (reply, result) == (Handled(lib, w', l, c, request, client, k, forwarded').1,
                                   Handled(lib, w', l, c, request, client, k, forwarded').2)
  {
    OwnedIsScreened(lib, c, request, client);
    HandledParts(lib, w, l, c, request, client, k, forwarded);
    HandledParts(lib, w', l, c, request, client, k, forwarded');
    var answer := Screened(lib, c, request, client).value;
    LoggedParts(lib, w, request, client, k, answer.0, answer.1);
  }

  lemma OwnedIsScreened(lib: Library, c: Config, request: Request, client: string)
    requires Owned(c.records, Text.NormalizeDomain(request.qname))
    ensures !DropsSilently(c, request) && Screened(lib, c, request, client).Some?
    ensures Screened(lib, c, request, client).value.1 in {R.Nodata, R.Override, R.Deny, R.Blocklist, R.Local}
  {
  }

  // A name at or below a listed domain is never resolved for a client that is not
  // exempt: unless an override or a denial answers it first, it does not exist.
  lemma BlockedNamesNotResolved(lib: Library, w: World, l: Limits, c: Config, request: Request, client: string,
                                k: Clock,
                                forwarded: Option<Reply>, d: string)
    requires client !in c.excluded
    requires d in c.blocklist && Text.NormalizeDomain(request.qname) != ""
    requires Blocklists.CoveredBy(Text.NormalizeDomain(request.qname), d)
    ensures var (w1, reply, result) := Handled(lib, w, l, c, request, client, k, forwarded);
            && w1.cache == w.cache
            && (result == None || result == Some(R.Nodata) || result == Some(R.Override) || reply == DenyReply(request))
            && (reply.rr != [] ==> result == Some(R.Override))
  {
    BlockedIsScreened(lib, c, request, client, d);
    HandledParts(lib, w, l, c, request, client, k, forwarded);
    var answer := Screened(lib, c, request, client).value;
    LoggedParts(lib, w, request, client, k, answer.0, answer.1);
  }

  lemma BlockedIsScreened(lib: Library, c: Config, request: Request, client: string, d: string)
    requires client !in c.excluded
    requires d in c.blocklist && Text.NormalizeDomain(request.qname) != ""
    requires Blocklists.CoveredBy(Text.NormalizeDomain(request.qname), d)
    ensures var s := Screened(lib, c, request, client);
            && s.Some?
            && (s.value.1 == R.Override || (s.value.1 == R.Nodata && s.value.0 == EmptyReply(request))
                || s.value.0 == DenyReply(request))
  {
    var name := Text.NormalizeDomain(request.qname);
    Text.NormalizeFixpoint(request.qname);
    Text.NormalizeFixpoint(name);
    Blocklists.BlockedIffCovered(c.blocklist, name);
  }

  // ----- What the documented policy order decides -----

  // When IPv4-only mode is on, an AAAA question gets an empty NOERROR answer whatever any
  // policy, list or zone says.
  lemma Ipv4OnlyMode(lib: Library, w: World, l: Limits, c: Config, request: Request, client: string, k: Clock,
                     forwarded: Option<Reply>)
    requires request.qtype == TYPE_AAAA && !c.settings.ipv6Enabled
    ensures Handled(lib, w, l, c, request, client, k, forwarded).1 == EmptyReply(request)
    ensures Handled(lib, w, l, c, request, client, k, forwarded).0.cache == w.cache
  {
    HandledParts(lib, w, l, c, request, client, k, forwarded);
    LoggedParts(lib, w, request, client, k, EmptyReply(request), R.Nodata);
  }

  // The rule that wins by the documented order decides: a denial or an override answers
  // by itself, before any blocklist, local record, cached or forwarded answer; another
  // action leaves only the blocklist to deny the name.
  lemma WinningRuleDecides(lib: Library, w: World, l: Limits, c: Config, request: Request, client: string, k: Clock,
                           forwarded: Option<Reply>, i: nat)
    requires |Text.NormalizeDomain(request.qname)| < Policy.SCORE_LIMIT
    requires Policy.Winner(c.policies, client, Text.NormalizeDomain(request.qname), i)
    requires !DropsSilently(c, request) && (request.qtype == TYPE_AAAA ==> c.settings.ipv6Enabled)
    ensures var rule := c.policies[i];
            var (w1, reply, result) := Handled(lib, w, l, c, request, client, k, forwarded);
            && (rule.action == Policy.ACTION_DENY ==>
                  result == Some(R.Deny) && reply == DenyReply(request) && w1.cache == w.cache)
            && (rule.action == Policy.ACTION_OVERRIDE ==>
                  result == Some(R.Override) && reply == OverrideReply(lib, request, rule) && w1.cache == w.cache)
            && (rule.action != Policy.ACTION_DENY && rule.action != Policy.ACTION_OVERRIDE ==>
                  result != Some(R.Deny) && result != Some(R.Override)
                  && (result == Some(R.Blocklist) <==>
                        client !in c.excluded
                        && Blocklists.IsBlocked(c.blocklist, Text.NormalizeDomain(request.qname))))
  {
    var name := Text.NormalizeDomain(request.qname);
    OnlyWinnerSelected(c.policies, client, name, i);
    WinnerScreens(lib, c, request, client, c.policies[i]);
    HandledParts(lib, w, l, c, request, client, k, forwarded);
    ResolvedResults(lib, w, l, c.settings, request, client, k, forwarded);
    if Screened(lib, c, request, client).Some? {
      var answer := Screened(lib, c, request, client).value;
      LoggedParts(lib, w, request, client, k, answer.0, answer.1);
    }
  }

  lemma OnlyWinnerSelected(rules: seq<Policy.Rule>, client: string, name: string, i: nat)
    requires |name| < Policy.SCORE_LIMIT && Policy.Winner(rules, client, name, i)
    ensures Policy.Select(rules, client, name) == Some(rules[i])
  {
    Policy.SelectDocumentedOrder(rules, client, name);
    var w: nat :| Policy.Winner(rules, client, name, w) && Policy.Select(rules, client, name) == Some(rules[w]);
  }

  lemma WinnerScreens(lib: Library, c: Config, request: Request, client: string, rule: Policy.Rule)
    requires Policy.Select(c.policies, client, Text.NormalizeDomain(request.qname)) == Some(rule)
    requires request.qtype == TYPE_AAAA ==> c.settings.ipv6Enabled
    ensures var s := Screened(lib, c, request, client);
            var blocked := client !in c.excluded
                           && Blocklists.IsBlocked(c.blocklist, Text.NormalizeDomain(request.qname));
            if rule.action == Policy.ACTION_OVERRIDE then s == Some((OverrideReply(lib, request, rule), R.Override))
            else if rule.action == Policy.ACTION_DENY then s == Some((DenyReply(request), R.Deny))
            else if blocked then s == Some((DenyReply(request), R.Blocklist))
            else s.None? || s.value.1 == R.Local
  {
  }

  lemma ResolvedResults(lib: Library, w: World, l: Limits, s: Settings, request: Request, client: string, k: Clock,
                        forwarded: Option<Reply>)
    ensures Resolved(lib, w, l, s, request, client, k, forwarded).2 in {R.Forward, R.ForwardCache, R.Servfail}
  {
  }

  // ----- What an override answers -----

  // The answer one of the rule's values stands for.
  ghost predicate AnswersWith(lib: Library, request: Request, value: string, ttl: int, r: RR) {
    exists a ::
      && IpAddress.ParseAddress(lib.ip6, value) == Some(a)
      && ((request.qtype == TYPE_A && a.A4?) || (request.qtype == TYPE_AAAA && a.A6?))
      && r == RR(request.qname, request.qtype, ttl, IpAddress.FormatAddress(lib.ip6, a), 0)
  }

  // An override answers with its addresses of the asked family and nothing else: values
  // of the other family and values that are no address are left out.
  lemma {:induction false} OverrideExact(lib: Library, request: Request, values: seq<string>, ttl: int, r: RR)
    ensures r in OverrideRRs(lib, request, values, ttl)
       <==> exists v | v in values :: AnswersWith(lib, request, v, ttl, r)
  {
    if values == [] {
    } else {
      var init, last := values[..|values| - 1], values[|values| - 1];
      OverrideExact(lib, request, init, ttl, r);
      assert forall v :: v in values <==> v in init || v == last;
      OneOverride(lib, request, last, ttl, r);
    }
  }

  lemma OneOverride(lib: Library, request: Request, value: string, ttl: int, r: RR)
    ensures r in OverrideRR(lib, request, value, ttl) <==> AnswersWith(lib, request, value, ttl, r)
  {
    match IpAddress.ParseAddress(lib.ip6, value)
    case Some(a) =>
    case None =>
  }
}
