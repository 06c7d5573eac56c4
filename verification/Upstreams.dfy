// Forwarding: upstreams in priority order, equal priorities shuffled, failing over.
module Upstreams {
  import Sequences
  import opened Options
  import opened Answers
  import opened Aggregation
  import opened UpstreamStats
  import opened HourlyStats

  datatype Upstream = Upstream(address: string, port: nat, protocol: string, priority: int)

  datatype Received = Received(reply: Reply, truncated: bool)

  // The network: what sending to an upstream, over TCP or not, brings back. None: it fails.
  type Network = (Upstream, bool) -> Option<Received>

  // One upstream's turn: a truncated UDP reply is asked for again over TCP.
  function Attempt(u: Upstream, send: Network): Option<Reply> {
    match send(u, u.protocol == "tcp")
    case None => None
    case Some(first) =>
      if first.truncated && u.protocol != "tcp" then
        match send(u, true)
        case None => None
        case Some(again) => Some(again.reply)
      else Some(first.reply)
  }

  // What an attempt gives is something the upstream sent: untruncated, or received over TCP.
  // It fails only if a send fails, and a complete first reply is taken as it is.
  lemma AttemptExact(u: Upstream, send: Network)
    ensures Attempt(u, send).Some? ==>
              exists tcp :: send(u, tcp).Some? && send(u, tcp).value.reply == Attempt(u, send).value
                            && (send(u, tcp).value.truncated ==> tcp)
    ensures Attempt(u, send).None? ==> send(u, u.protocol == "tcp").None? || send(u, true).None?
    ensures var first := send(u, u.protocol == "tcp");
            first.Some? && !first.value.truncated ==> Attempt(u, send) == Some(first.value.reply)
  {
    if Attempt(u, send).Some? {
      var first := send(u, u.protocol == "tcp").value;
      var tcp := if first.truncated then true else u.protocol == "tcp";
      assert send(u, tcp).Some? && send(u, tcp).value.reply == Attempt(u, send).value;
    }
  }

  ghost predicate ByPriority(us: seq<Upstream>) {
    forall i, j | 0 <= i < j < |us| :: us[i].priority <= us[j].priority
  }

  function InsertByPriority(us: seq<Upstream>, u: Upstream): seq<Upstream> {
    if us != [] && us[|us| - 1].priority > u.priority
    then InsertByPriority(us[..|us| - 1], u) + [us[|us| - 1]]
    else us + [u]
  }

  // `sorted(upstreams, key=lambda u: u.priority)`
  function Sorted(us: seq<Upstream>): seq<Upstream> {
    if us == [] then [] else InsertByPriority(Sorted(us[..|us| - 1]), us[|us| - 1])
  }

  // A group of one priority may follow anything of no worse priority.
  lemma AppendGroup(us: seq<Upstream>, group: seq<Upstream>, priority: int)
    requires ByPriority(us) && forall x | x in us :: x.priority <= priority
    requires forall x | x in group :: x.priority == priority
    ensures ByPriority(us + group)
    ensures forall x | x in us + group :: x.priority <= priority
  {
    var r := us + group;
    forall i | 0 <= i < |r|
      ensures i < |us| ==> r[i] in us
      ensures i >= |us| ==> r[i] in group
    {
    }
  }

  lemma {:induction false} InsertKeeps(us: seq<Upstream>, u: Upstream)
    requires ByPriority(us)
    ensures ByPriority(InsertByPriority(us, u))
    ensures multiset(InsertByPriority(us, u)) == multiset(us) + multiset{u}
    ensures forall x | x in InsertByPriority(us, u) :: x in us || x == u
  {
    if us == [] || us[|us| - 1].priority <= u.priority {
      AppendGroup(us, [u], u.priority);
    } else {
      var init, last := us[..|us| - 1], us[|us| - 1];
      assert us == init + [last];
      InsertKeeps(init, u);
      AppendGroup(InsertByPriority(init, u), [last], last.priority);
    }
  }

  lemma {:induction false} SortedKeeps(us: seq<Upstream>)
    ensures ByPriority(Sorted(us)) && multiset(Sorted(us)) == multiset(us)
  {
    if us == [] {
    } else {
      var init, last := us[..|us| - 1], us[|us| - 1];
      Sequences.LastApart([], us);
      assert multiset(us) == multiset(init) + multiset{last};
      SortedKeeps(init);
      InsertKeeps(Sorted(init), last);
      assert Sorted(us) == InsertByPriority(Sorted(init), last);
    }
  }

  // The next group of equal priority starts where this one ends.
  method GroupEnd(us: seq<Upstream>, start: nat) returns (end: nat)
    requires start < |us| && ByPriority(us)
    ensures start < end <= |us|
    ensures forall i | start <= i < end :: us[i].priority == us[start].priority
    ensures forall i | end <= i < |us| :: us[i].priority > us[start].priority
  {
    end := start + 1;
    while end < |us| && us[end].priority == us[start].priority
      invariant start < end <= |us|
      invariant forall i | start <= i < end :: us[i].priority == us[start].priority
    {
      end := end + 1;
    }
  }

  lemma ShuffledMembers(peers: seq<Upstream>, group: seq<Upstream>)
    requires multiset(peers) == multiset(group)
    ensures forall x :: x in peers <==> x in group
  {
    forall x
      ensures x in peers <==> x in group
    {
      assert x in peers <==> x in multiset(peers);
      assert x in group <==> x in multiset(group);
    }
  }

  // `_balanced_order`, for any outcome of the shuffles.
  method BalancedOrder(upstreams: seq<Upstream>,
                       shuffle: seq<Upstream> -> seq<Upstream>) returns (ordered: seq<Upstream>)
    requires forall s :: multiset(shuffle(s)) == multiset(s)
    ensures ByPriority(ordered)
    ensures multiset(ordered) == multiset(upstreams)
  {
    var sorted := Sorted(upstreams);
    SortedKeeps(upstreams);
    ordered := [];
    var start := 0;
    while start < |sorted|
      invariant 0 <= start <= |sorted|
      invariant ByPriority(ordered)
      invariant multiset(ordered) == multiset(sorted[..start])
      invariant forall x, j | x in ordered && start <= j < |sorted| :: x.priority <= sorted[j].priority
    {
      var end := GroupEnd(sorted, start);
      var group := sorted[start..end];
      var peers := shuffle(group);
      ShuffledMembers(peers, group);
      assert sorted[..end] == sorted[..start] + group;
      assert forall x | x in ordered :: x.priority <= sorted[start].priority;
      AppendGroup(ordered, peers, sorted[start].priority);
      ordered := ordered + peers;
      start := end;
    }
    assert sorted[..|sorted|] == sorted;
  }

  // The reply of some best-priority upstream among those that respond, or none when no
  // upstream does.
  ghost predicate BestReply(us: seq<Upstream>, send: Network, r: Option<Reply>) {
    match r
    case None => forall u | u in us :: Attempt(u, send).None?
    case Some(reply) =>
      exists u | u in us :: Attempt(u, send) == Some(reply)
                            && forall v | v in us && v.priority < u.priority :: Attempt(v, send).None?
  }

  // Every upstream of a better priority than u was contacted before, and failed.
  ghost predicate BetterFirst(us: seq<Upstream>, send: Network, before: seq<Upstream>, u: Upstream) {
    forall v | v in us && v.priority < u.priority :: Attempt(v, send).None? && v in before
  }

  ghost predicate FailoverOrder(us: seq<Upstream>, send: Network, tried: seq<Upstream>) {
    forall i | 0 <= i < |tried| :: BetterFirst(us, send, tried[..i], tried[i])
  }

  // What one turn of forwarding leaves in the round-trip buffer: only the upstream that
  // answered, the last one tried, is timed, and is covered for the hour.
  ghost predicate Timed(before: (map<RttKey, Rtt>, Coverage), after: (map<RttKey, Rtt>, Coverage), reply: Option<Reply>,
                        tried: seq<Upstream>, send: Network, elapsed: Upstream -> real, now: int) {
    match reply
    case None => after == before
    case Some(_) =>
      tried != [] &&
      var u := tried[|tried| - 1];
      && Attempt(u, send) == reply
      && after.0 == AddEvent(RTTS, before.0, RttEvent(u.address, elapsed(u), now))
      && after.1 == Mark(before.1, HourOf(now), u.address)
  }

  // `_forward`; `elapsed` is the measured round trip in milliseconds, at time `now`.
  method ForwardQuery(upstreams: seq<Upstream>, shuffle: seq<Upstream> -> seq<Upstream>, send: Network,
                 rtt: UpstreamRttBuffer, elapsed: Upstream -> real, now: int)
    returns (reply: Option<Reply>, tried: seq<Upstream>)
    requires forall s :: multiset(shuffle(s)) == multiset(s)
    modifies rtt
    ensures BestReply(upstreams, send, reply)
    ensures FailoverOrder(upstreams, send, tried)
    ensures forall u | u in tried :: u in upstreams
    ensures Timed(old(rtt.Both()), rtt.Both(), reply, tried, send, elapsed, now)
    ensures reply.None? ==> multiset(tried) == multiset(upstreams)
  {
    tried := [];
    if upstreams == [] {
      return None, [];
    }
    var ordered := BalancedOrder(upstreams, shuffle);
    ShuffledMembers(ordered, upstreams);
    for i := 0 to |ordered|
      invariant tried == ordered[..i]
      invariant forall k | 0 <= k < i :: Attempt(ordered[k], send).None?
      invariant rtt.Both() == old(rtt.Both())
    {
      var u := ordered[i];
      assert u in ordered;
      tried := tried + [u];
      var useTcp := u.protocol == "tcp";
      var raw := send(u, useTcp);
      if raw.None? {
        continue;
      }
      if raw.value.truncated && !useTcp {
        raw := send(u, true);
        if raw.None? {
          continue;
        }
      }
      rtt.Add(u.address, elapsed(u), now);
      TriedInOrder(ordered, upstreams, send, i);
      assert tried == ordered[..i + 1];
      return Some(raw.value.reply), tried;
    }
    AllTried(ordered, upstreams, send);
    assert tried == ordered;
    return None, tried;
  }

  // The first to respond in priority order is a best one, and the order tried is fair.
  lemma TriedInOrder(ordered: seq<Upstream>, us: seq<Upstream>, send: Network, n: nat)
    requires ByPriority(ordered) && n < |ordered| && (forall x :: x in ordered <==> x in us)
    requires forall k | 0 <= k < n :: Attempt(ordered[k], send).None?
    ensures forall v | v in us && v.priority < ordered[n].priority :: Attempt(v, send).None?
    ensures FailoverOrder(us, send, ordered[..n + 1])
  {
    var tried := ordered[..n + 1];
    forall i | 0 <= i < |tried|
      ensures BetterFirst(us, send, tried[..i], tried[i])
    {
      forall v | v in us && v.priority < tried[i].priority
        ensures Attempt(v, send).None? && v in tried[..i]
      {
        var k :| 0 <= k < |ordered| && ordered[k] == v;
        assert k < i;
        assert tried[..i][k] == v;
      }
    }
    assert BetterFirst(us, send, tried[..n], tried[n]);
  }

  lemma AllTried(ordered: seq<Upstream>, us: seq<Upstream>, send: Network)
    requires ByPriority(ordered) && (forall x :: x in ordered <==> x in us)
    requires forall k | 0 <= k < |ordered| :: Attempt(ordered[k], send).None?
    ensures forall u | u in us :: Attempt(u, send).None?
    ensures FailoverOrder(us, send, ordered)
  {
    forall u | u in us
      ensures Attempt(u, send).None?
    {
      var k :| 0 <= k < |ordered| && ordered[k] == u;
    }
    if ordered != [] {
      TriedInOrder(ordered, us, send, |ordered| - 1);
      assert ordered[..|ordered|] == ordered;
    }
  }
}
