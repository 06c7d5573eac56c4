// DNS messages as the resolver sees them, and the TTL arithmetic of the answer cache.
module Answers {
  import opened Options
  import opened Numbers

  const TYPE_A: nat := 1
  const TYPE_CNAME: nat := 5
  const TYPE_SOA: nat := 6
  const TYPE_PTR: nat := 12
  const TYPE_AAAA: nat := 28

  const NOERROR: nat := 0
  const SERVFAIL: nat := 2
  const NXDOMAIN: nat := 3

  // A resource record; `minimum` is the MINIMUM field when the type is SOA.
  datatype RR = RR(owner: string, rtype: nat, ttl: int, data: string, minimum: int)

  datatype Reply = Reply(id: nat, rcode: nat, rr: seq<RR>, auth: seq<RR>, ar: seq<RR>)

  datatype Request = Request(id: nat, qname: string, qtype: nat, qclass: nat)

  datatype Settings = Settings(cacheEnabled: bool, cacheMaxTtl: int, cacheMinTtl: int, defaultAction: string,
                               ipv6Enabled: bool, dropPrivatePtr: bool)

  // `request.reply()`
  function EmptyReply(request: Request): Reply {
    Reply(request.id, NOERROR, [], [], [])
  }

  // A reply under construction.
  class Message {
    var id: nat
    var rcode: nat
    var rr: seq<RR>
    var auth: seq<RR>
    var ar: seq<RR>

    function Value(): Reply
      reads this
    {
      Reply(id, rcode, rr, auth, ar)
    }

    constructor (value: Reply)
      ensures Value() == value
    {
      id, rcode, rr, auth, ar := value.id, value.rcode, value.rr, value.auth, value.ar;
    }

    method AddAnswer(record: RR)
      modifies this`rr
      ensures rr == old(rr) + [record]
    {
      rr := rr + [record];
    }

    // `for record in (*rr, *auth, *ar): record.ttl = ttl`
    method SetTtls(ttl: int)
      modifies this`rr, this`auth, this`ar
      ensures rr == WithTtl(old(rr), ttl) && auth == WithTtl(old(auth), ttl) && ar == WithTtl(old(ar), ttl)
    {
      rr := WithTtl(rr, ttl);
      auth := WithTtl(auth, ttl);
      ar := WithTtl(ar, ttl);
    }
  }

  function WithTtl(records: seq<RR>, ttl: int): seq<RR> {
    seq(|records|, i requires 0 <= i < |records| => records[i].(ttl := ttl))
  }

  // A stored reply as a hit serves it: new id, one TTL for every record.
  function Served(stored: Reply, id: nat, ttl: int): Reply {
    Reply(id, stored.rcode, WithTtl(stored.rr, ttl), WithTtl(stored.auth, ttl), WithTtl(stored.ar, ttl))
  }

  // ----- How long an answer may be kept -----

  function Clamp(ttl: int, s: Settings): int {
    Max(s.cacheMinTtl, Min(ttl, s.cacheMaxTtl))
  }

  function FirstSoa(records: seq<RR>): (r: Option<RR>)
    ensures r.Some? <==> exists x | x in records :: x.rtype == TYPE_SOA
    ensures r.Some? ==> r.value in records && r.value.rtype == TYPE_SOA
  {
    if records == [] then None
    else if records[0].rtype == TYPE_SOA then Some(records[0])
    else FirstSoa(records[1..])
  }

  // The SOA that bounds a negative answer is the first one of the authority section.
  lemma {:induction false} FirstSoaIsFirst(records: seq<RR>, i: nat)
    requires i < |records| && records[i].rtype == 6
    requires forall j | 0 <= j < i :: records[j].rtype != 6
    ensures FirstSoa(records) == Some(records[i])
  {
    if i == 0 {
    } else {
      FirstSoaIsFirst(records[1..], i - 1);
    }
  }

  // ----- In the reply's own terms -----

  // What a reply without answers is kept for: the smaller of the SOA's TTL and MINIMUM, if
  // there is an SOA and the clamp leaves more than nothing of it.
  lemma NegativeKept(reply: Reply, s: Settings, i: nat)
    requires reply.rcode == 3 || (reply.rcode == 0 && reply.rr == [])
    ensures (forall r | r in reply.auth :: r.rtype != 6) ==> KeptFor(reply, s) == None
    ensures i < |reply.auth| && reply.auth[i].rtype == 6 && (forall j | 0 <= j < i :: reply.auth[j].rtype != 6) ==>
              var ttl := Clamp(Min(reply.auth[i].ttl, reply.auth[i].minimum), s);
              KeptFor(reply, s) == if ttl > 0 then Some(ttl) else None
  {
    if i < |reply.auth| && reply.auth[i].rtype == 6 && (forall j | 0 <= j < i :: reply.auth[j].rtype != 6) {
      FirstSoaIsFirst(reply.auth, i);
    }
  }

  // A reply with answers is kept for its smallest answer TTL, and an error not at all.
  lemma PositiveKept(reply: Reply, s: Settings, least: int)
    ensures reply.rcode != 0 && reply.rcode != 3 ==> KeptFor(reply, s) == None
    ensures reply.rcode == 0 && reply.rr != [] && (forall r | r in reply.rr :: least <= r.ttl)
            && (exists r | r in reply.rr :: r.ttl == least) ==>
              KeptFor(reply, s) == if Clamp(least, s) > 0 then Some(Clamp(least, s)) else None
  {
  }

  function SmallestTtl(records: seq<RR>): (m: int)
    requires records != []
    ensures forall x | x in records :: m <= x.ttl
    ensures exists x | x in records :: m == x.ttl
  {
    if |records| == 1 then records[0].ttl else Min(records[0].ttl, SmallestTtl(records[1..]))
  }

  // `_negative_ttl`
  function NegativeTtl(reply: Reply, s: Settings): Option<int> {
    match FirstSoa(reply.auth)
    case Some(soa) => Some(Clamp(Min(soa.ttl, soa.minimum), s))
    case None => None
  }

  // `_compute_ttl`
  function ComputeTtl(reply: Reply, s: Settings): int
    requires reply.rr != []
  {
    Clamp(SmallestTtl(reply.rr), s)
  }

  // An upstream's own word on how long its reply is good for: the smallest answer TTL, or
  // sections 3 and 5 of RFC 2308 for one without answers. None: nothing to go by.
  function SourceTtl(reply: Reply): Option<int> {
    if reply.rcode == NXDOMAIN || (reply.rcode == NOERROR && reply.rr == []) then
      match FirstSoa(reply.auth)
      case Some(soa) => Some(Min(soa.ttl, soa.minimum))
      case None => None
    else if reply.rcode == NOERROR then Some(SmallestTtl(reply.rr))
    else None
  }

  // How long the cache keeps a reply; None: not at all.
  function KeptFor(reply: Reply, s: Settings): Option<int> {
    match SourceTtl(reply)
    case Some(ttl) => if Clamp(ttl, s) > 0 then Some(Clamp(ttl, s)) else None
    case None => None
  }

  // A kept reply is kept no longer than the upstream allows exactly when the minimum cache
  // TTL does not exceed what the upstream gave it.
  lemma KeptWithinIff(reply: Reply, s: Settings)
    requires KeptFor(reply, s).Some?
    ensures KeptFor(reply, s).value <= SourceTtl(reply).value <==> s.cacheMinTtl <= SourceTtl(reply).value
  {
  }

  // A TTL inside the bounds is left alone, one outside is moved to the nearer bound, and a
  // minimum above the maximum always wins.
  lemma ClampExact(ttl: int, s: Settings)
    ensures s.cacheMinTtl <= ttl <= s.cacheMaxTtl ==> Clamp(ttl, s) == ttl
    ensures ttl <= s.cacheMinTtl <= s.cacheMaxTtl ==> Clamp(ttl, s) == s.cacheMinTtl
    ensures s.cacheMinTtl <= s.cacheMaxTtl <= ttl ==> Clamp(ttl, s) == s.cacheMaxTtl
    ensures s.cacheMaxTtl < s.cacheMinTtl ==> Clamp(ttl, s) == s.cacheMinTtl
  {
  }

  // The clamp stays inside its bounds exactly when they are in order.
  lemma ClampWithinBounds(s: Settings)
    ensures (forall ttl :: s.cacheMinTtl <= Clamp(ttl, s) <= s.cacheMaxTtl) <==> s.cacheMinTtl <= s.cacheMaxTtl
  {
    if s.cacheMinTtl > s.cacheMaxTtl {
      assert Clamp(0, s) == s.cacheMinTtl;
    }
  }

  // ----- Counting down -----

  // `int(x)`
  function Truncate(x: real): int {
    if x >= 0.0 then x.Floor else -(-x).Floor
  }

  // `max(0, int(entry.expires_at - time.monotonic()))`
  function Remaining(expiresAt: real, now: real): int {
    Max(0, Truncate(expiresAt - now))
  }

  // At `now`, a record kept since `at` is promised for no longer than its own TTL allows.
  predicate PromiseKept(kept: int, original: int, at: real, now: real) {
    Remaining(at + kept as real, now) as real <= MaxReal(0.0, original as real - (now - at))
  }

  // ... at any time from then on.
  ghost predicate CountsDown(kept: int, original: int, at: real) {
    forall now | at <= now :: PromiseKept(kept, original, at, now)
  }

  // That holds exactly when the record's TTL is not below the time the reply is kept.
  lemma CountsDownIff(kept: int, original: int, at: real)
    requires kept > 0 && original >= 0
    ensures CountsDown(kept, original, at) <==> kept <= original
  {
    if CountsDown(kept, original, at) {
      assert PromiseKept(kept, original, at, at);
      assert Remaining(at + kept as real, at) == kept;
    }
  }

  // The TTL served for one entry is never negative and never grows from hit to hit.
  lemma ServedTtlFalls(kept: int, at: real, now: real, later: real)
    requires at <= now <= later
    ensures 0 <= Remaining(at + kept as real, later) <= Remaining(at + kept as real, now)
    ensures now < at + kept as real ==> Remaining(at + kept as real, now) <= Max(0, kept)
  {
  }

  // Every answer record of a positive reply counts down within its own TTL, for all
  // time, exactly when the minimum cache TTL does not exceed the smallest of them.
  lemma PositiveCountDown(reply: Reply, s: Settings, at: real)
    requires reply.rcode == NOERROR && reply.rr != []
    requires forall r | r in reply.rr :: r.ttl >= 0
    requires KeptFor(reply, s).Some?
    ensures (forall r | r in reply.rr :: CountsDown(KeptFor(reply, s).value, r.ttl, at))
       <==> s.cacheMinTtl <= SmallestTtl(reply.rr)
  {
    var kept := KeptFor(reply, s).value;
    forall r | r in reply.rr {
      CountsDownIff(kept, r.ttl, at);
    }
    var least :| least in reply.rr && least.ttl == SmallestTtl(reply.rr);
    if forall r | r in reply.rr :: CountsDown(kept, r.ttl, at) {
      assert CountsDown(kept, least.ttl, at);
    }
  }

  // Likewise for a negative reply, where the SOA's TTL and its MINIMUM both bound it.
  lemma NegativeCountDown(reply: Reply, s: Settings, at: real)
    requires reply.rcode == NXDOMAIN || (reply.rcode == NOERROR && reply.rr == [])
    requires KeptFor(reply, s).Some?
    requires FirstSoa(reply.auth).value.ttl >= 0 && FirstSoa(reply.auth).value.minimum >= 0
    ensures var soa, kept := FirstSoa(reply.auth).value, KeptFor(reply, s).value;
            CountsDown(kept, soa.ttl, at) && CountsDown(kept, soa.minimum, at)
            <==> s.cacheMinTtl <= Min(soa.ttl, soa.minimum)
  {
    var soa := FirstSoa(reply.auth).value;
    CountsDownIff(KeptFor(reply, s).value, soa.ttl, at);
    CountsDownIff(KeptFor(reply, s).value, soa.minimum, at);
  }

  // An answer of TTL 5 under a minimum cache TTL of 60 is kept, and served, for longer than
  // the upstream allows.
  lemma AnswerOutlivesItsTtl(answer: RR, s: Settings, at: real)
    requires answer.ttl == 5 && s.cacheMinTtl == 60 && s.cacheMaxTtl >= 60
    ensures KeptFor(Reply(1, NOERROR, [answer], [], []), s) == Some(60)
    ensures !CountsDown(60, answer.ttl, at)
  {
    CountsDownIff(60, answer.ttl, at);
  }

  // The authority and additional records of a positive reply have no such bound: one with
  // a TTL below the answers' is served with more than it came with.
  lemma AuthorityTtlGrows(reply: Reply, s: Settings, at: real, r: RR)
    requires reply.rcode == NOERROR && reply.rr != [] && KeptFor(reply, s).Some?
    requires r in reply.auth + reply.ar && 0 <= r.ttl < KeptFor(reply, s).value
    ensures !CountsDown(KeptFor(reply, s).value, r.ttl, at)
    ensures Remaining(at + KeptFor(reply, s).value as real, at) > r.ttl
  {
    CountsDownIff(KeptFor(reply, s).value, r.ttl, at);
  }
}
