// Answering from local records, following aliases within them.
module AliasChase {
  import opened Options
  import opened Answers
  import opened LocalZones
  import opened Sequences
  import Text

  const MAX_CNAME_DEPTH := 8

  function TypeOf(qtype: nat): RecordType {
    if qtype == TYPE_A then A else AAAA
  }

  function AliasRR(owner: string, alias: LocalRecord): RR {
    RR(owner, TYPE_CNAME, alias.ttl, alias.value, 0)
  }

  // The address answers a name's own records give; `builds` says which values the
  // message library accepts as an address of the type.
  function AddressRRs(records: seq<LocalRecord>, owner: string, qtype: nat, builds: (nat, string) -> bool): seq<RR> {
    if records == [] then [] else
      var r := records[|records| - 1];
      AddressRRs(records[..|records| - 1], owner, qtype, builds)
      + if builds(qtype, r.value) then [RR(owner, qtype, r.ttl, r.value, 0)] else []
  }

  // What `_add_address_chain` adds for a name at a depth.
  function Chain(records: seq<LocalRecord>, owner: string, name: string, qtype: nat,
                 builds: (nat, string) -> bool, depth: nat): seq<RR>
    requires depth <= MAX_CNAME_DEPTH
    decreases MAX_CNAME_DEPTH - depth, 1
  {
    var matches := Matching(records, name, TypeOf(qtype));
    if matches != [] then AddressRRs(matches, owner, qtype, builds)
    else if depth >= MAX_CNAME_DEPTH then []
    else
      match FirstAlias(records, name)
      case None => []
      case Some(alias) => [AliasRR(owner, alias)] + Beyond(records, alias.value, qtype, builds, depth)
  }

  // What following an alias at a depth adds after it.
  function Beyond(records: seq<LocalRecord>, target: string, qtype: nat, builds: (nat, string) -> bool,
                  depth: nat): seq<RR>
    requires depth < MAX_CNAME_DEPTH
    decreases MAX_CNAME_DEPTH - depth, 0
  {
    if Owned(records, target) then Chain(records, target, target, qtype, builds, depth + 1) else []
  }

  // One alias step of a chase.
  lemma ChainStep(records: seq<LocalRecord>, owner: string, name: string, qtype: nat,
                  builds: (nat, string) -> bool, depth: nat, alias: LocalRecord)
    requires depth < MAX_CNAME_DEPTH
    requires Matching(records, name, TypeOf(qtype)) == [] && FirstAlias(records, name) == Some(alias)
    ensures Chain(records, owner, name, qtype, builds, depth)
         == [AliasRR(owner, alias)] + Beyond(records, alias.value, qtype, builds, depth)
  {
  }

  method AddAddresses(reply: Message, owner: string, qtype: nat, matches: seq<LocalRecord>,
                      builds: (nat, string) -> bool)
    modifies reply`rr
    ensures reply.rr == old(reply.rr) + AddressRRs(matches, owner, qtype, builds)
  {
    for i := 0 to |matches|
      invariant reply.rr == old(reply.rr) + AddressRRs(matches[..i], owner, qtype, builds)
    {
      assert matches[..i + 1][..i] == matches[..i];
      if builds(qtype, matches[i].value) {
        reply.AddAnswer(RR(owner, qtype, matches[i].ttl, matches[i].value, 0));
      }
    }
    assert matches[..|matches|] == matches;
  }

  method AddAddressChain(reply: Message, owner: string, name: string, qtype: nat, local: LocalRecords,
                         builds: (nat, string) -> bool, depth: nat)
    requires local.Valid() && depth <= MAX_CNAME_DEPTH
    modifies reply`rr
    ensures reply.rr == old(reply.rr) + Chain(local.records, owner, name, qtype, builds, depth)
    decreases MAX_CNAME_DEPTH - depth, 1
  {
    local.Lookups(name, TypeOf(qtype));
    var matches := local.Get(name, TypeOf(qtype));
    if matches != [] {
      AddAddresses(reply, owner, qtype, matches, builds);
      return;
    }
    if depth >= MAX_CNAME_DEPTH {
      return;
    }
    var alias := local.Cname(name);
    if alias.None? {
      return;
    }
    ChainStep(local.records, owner, name, qtype, builds, depth, alias.value);
    Regroup(reply.rr, [AliasRR(owner, alias.value)], Beyond(local.records, alias.value.value, qtype, builds, depth));
    reply.AddAnswer(AliasRR(owner, alias.value));
    FollowAlias(reply, alias.value.value, qtype, local, builds, depth);
  }

  method FollowAlias(reply: Message, target: string, qtype: nat, local: LocalRecords, builds: (nat, string) -> bool,
                     depth: nat)
    requires local.Valid() && depth < MAX_CNAME_DEPTH
    modifies reply`rr
    ensures reply.rr == old(reply.rr) + Beyond(local.records, target, qtype, builds, depth)
    decreases MAX_CNAME_DEPTH - depth, 0
  {
    local.Lookups(target, CNAME);
    if local.Owns(target) {
      AddAddressChain(reply, target, target, qtype, local, builds, depth + 1);
    }
  }

  // `_add_records`
  function PlainRRs(records: seq<LocalRecord>, owner: string): seq<RR> {
    if records == [] then [] else
      var r := records[|records| - 1];
      PlainRRs(records[..|records| - 1], owner)
      + match r.rtype
        case CNAME => [RR(owner, TYPE_CNAME, r.ttl, r.value, 0)]
        case PTR => [RR(owner, TYPE_PTR, r.ttl, r.value, 0)]
        case _ => []
  }

  method AddRecords(reply: Message, owner: string, records: seq<LocalRecord>)
    modifies reply`rr
    ensures reply.rr == old(reply.rr) + PlainRRs(records, owner)
  {
    for i := 0 to |records|
      invariant reply.rr == old(reply.rr) + PlainRRs(records[..i], owner)
    {
      assert records[..i + 1][..i] == records[..i];
      match records[i].rtype {
        case CNAME => reply.AddAnswer(RR(owner, TYPE_CNAME, records[i].ttl, records[i].value, 0));
        case PTR => reply.AddAnswer(RR(owner, TYPE_PTR, records[i].ttl, records[i].value, 0));
        case _ =>
      }
    }
    assert records[..|records|] == records;
  }

  function LocalRRs(records: seq<LocalRecord>, request: Request, name: string, builds: (nat, string) -> bool): seq<RR> {
    if request.qtype == TYPE_A || request.qtype == TYPE_AAAA then
      Chain(records, request.qname, name, request.qtype, builds, 0)
    else if request.qtype == TYPE_CNAME then PlainRRs(Matching(records, name, CNAME), request.qname)
    else if request.qtype == TYPE_PTR then PlainRRs(Matching(records, name, PTR), request.qname)
    else []
  }

  // `_local`: None when the name is not served locally.
  function LocalReply(records: seq<LocalRecord>, request: Request, builds: (nat, string) -> bool): Option<Reply> {
    var name := Text.NormalizeDomain(request.qname);
    if !Owned(records, name) then None
    else Some(EmptyReply(request).(rr := LocalRRs(records, request, name, builds)))
  }

  method AnswerLocally(local: LocalRecords, request: Request, builds: (nat, string) -> bool) returns (r: Option<Reply>)
    requires local.Valid()
    ensures r == LocalReply(local.records, request, builds)
  {
    var name := Text.NormalizeDomain(request.qname);
    local.Lookups(name, CNAME);
    if !local.Owns(name) {
      return None;
    }
    var reply := new Message(EmptyReply(request));
    AddLocal(reply, local, request, name, builds);
    assert reply.rr == LocalRRs(local.records, request, name, builds);
    return Some(reply.Value());
  }

  method AddLocal(reply: Message, local: LocalRecords, request: Request, name: string,
                  builds: (nat, string) -> bool)
    requires local.Valid()
    modifies reply`rr
    ensures reply.rr == old(reply.rr) + LocalRRs(local.records, request, name, builds)
  {
    local.Lookups(name, CNAME);
    local.Lookups(name, PTR);
    if request.qtype == TYPE_A || request.qtype == TYPE_AAAA {
      AddAddressChain(reply, request.qname, name, request.qtype, local, builds, 0);
    } else if request.qtype == TYPE_CNAME {
      AddRecords(reply, request.qname, local.Get(name, CNAME));
    } else if request.qtype == TYPE_PTR {
      AddRecords(reply, request.qname, local.Get(name, PTR));
    }
  }

  // ----- The alias path -----

  // The name reached after k first aliases, if there are that many.
  function Walk(records: seq<LocalRecord>, name: string, k: nat): Option<string> {
    if k == 0 then Some(name) else
      match Walk(records, name, k - 1)
      case None => None
      case Some(n) =>
        match FirstAlias(records, n)
        case Some(alias) => Some(alias.value)
        case None => None
  }

  lemma {:induction false} WalkShift(records: seq<LocalRecord>, name: string, k: nat)
    ensures Walk(records, name, k + 1) ==
            match FirstAlias(records, name)
            case Some(alias) => Walk(records, alias.value, k)
            case None => None
  {
    if k == 0 {
      assert Walk(records, name, 0) == Some(name);
    } else {
      WalkShift(records, name, k - 1);
    }
  }

  // The question's own spelling owns the first answer; each alias target owns the next.
  function OwnerAt(records: seq<LocalRecord>, owner: string, name: string, j: nat): string
    requires Walk(records, name, j).Some?
  {
    if j == 0 then owner else Walk(records, name, j).value
  }

  // `answer` is the j-th alias of the path, under its right owner.
  ghost predicate IsPathAlias(answer: RR, records: seq<LocalRecord>, owner: string, name: string, j: nat) {
    && Walk(records, name, j).Some? && Walk(records, name, j + 1).Some?
    && var alias := FirstAlias(records, Walk(records, name, j).value);
       alias.Some? && answer == RR(OwnerAt(records, owner, name, j), TYPE_CNAME, alias.value.ttl, alias.value.value, 0)
  }

  // The answers are the aliases of the path from its start, in order.
  ghost predicate PathAliases(rr: seq<RR>, records: seq<LocalRecord>, owner: string, name: string) {
    forall j | 0 <= j < |rr| :: IsPathAlias(rr[j], records, owner, name, j)
  }

  // The path reaches records of the wanted type after k aliases and not before.
  ghost predicate ReachesAt(records: seq<LocalRecord>, name: string, rtype: RecordType, k: nat) {
    && Walk(records, name, k).Some? && Matching(records, Walk(records, name, k).value, rtype) != []
    && forall j: nat | j < k ::
         Walk(records, name, j).Some? && Matching(records, Walk(records, name, j).value, rtype) == []
  }

  lemma PathAliasesShift(rr: seq<RR>, records: seq<LocalRecord>, owner: string, name: string, alias: LocalRecord)
    requires FirstAlias(records, name) == Some(alias)
    requires PathAliases(rr, records, alias.value, alias.value)
    ensures PathAliases([AliasRR(owner, alias)] + rr, records, owner, name)
  {
    var all := [AliasRR(owner, alias)] + rr;
    assert Walk(records, name, 0) == Some(name);
    forall j | 0 <= j < |all|
      ensures IsPathAlias(all[j], records, owner, name, j)
    {
      WalkShift(records, name, j);
      if j > 0 {
        WalkShift(records, name, j - 1);
        assert IsPathAlias(rr[j - 1], records, alias.value, alias.value, j - 1);
      }
    }
  }

  lemma UnownedHasNothing(records: seq<LocalRecord>, name: string, rtype: RecordType)
    requires !Owned(records, name)
    ensures Matching(records, name, rtype) == []
    ensures FirstAlias(records, name) == None
  {
    NothingMatches(records, name, rtype);
    NothingMatches(records, name, CNAME);
  }

  lemma {:induction false} NothingMatches(records: seq<LocalRecord>, name: string, rtype: RecordType)
    requires forall i | 0 <= i < |records| :: !(records[i].name == name && records[i].rtype == rtype)
    ensures Matching(records, name, rtype) == []
  {
    if records == [] {
    } else {
      NothingMatches(records[..|records| - 1], name, rtype);
    }
  }

  // A name with a path onwards, or with records of its own, is owned.
  lemma ReachingIsOwned(records: seq<LocalRecord>, name: string, rtype: RecordType, k: nat)
    requires ReachesAt(records, name, rtype, k)
    ensures Owned(records, name)
  {
    assert Walk(records, name, 0) == Some(name);
    if !Owned(records, name) {
      UnownedHasNothing(records, name, rtype);
      if k > 0 {
        WalkShift(records, name, k - 1);
      }
    }
  }

  lemma ReachesShift(records: seq<LocalRecord>, name: string, alias: LocalRecord, rtype: RecordType, k: nat)
    requires FirstAlias(records, name) == Some(alias) && Matching(records, name, rtype) == []
    ensures ReachesAt(records, alias.value, rtype, k) <==> ReachesAt(records, name, rtype, k + 1)
  {
    WalkShift(records, name, k);
    assert Walk(records, name, 0) == Some(name);
    forall j: nat
      ensures Walk(records, name, j + 1) == Walk(records, alias.value, j)
    {
      WalkShift(records, name, j);
    }
    if ReachesAt(records, alias.value, rtype, k) {
      forall j: nat | j < k + 1
        ensures Walk(records, name, j).Some? && Matching(records, Walk(records, name, j).value, rtype) == []
      {
        if j > 0 {
          assert Walk(records, name, (j - 1) + 1) == Walk(records, alias.value, j - 1);
        }
      }
    }
    if ReachesAt(records, name, rtype, k + 1) {
      forall j: nat | j < k
        ensures Walk(records, alias.value, j).Some?
        ensures Matching(records, Walk(records, alias.value, j).value, rtype) == []
      {
        assert Walk(records, name, j + 1).Some?;
      }
    }
  }

  // The answers are the k aliases in order and then the address records at their end.
  ghost predicate AliasesThenAddresses(rr: seq<RR>, records: seq<LocalRecord>, owner: string, name: string, qtype: nat,
                                       builds: (nat, string) -> bool, k: nat)
    requires Walk(records, name, k).Some?
  {
    && |rr| >= k && PathAliases(rr[..k], records, owner, name)
    && rr[k..] == AddressRRs(Matching(records, Walk(records, name, k).value, TypeOf(qtype)),
                             OwnerAt(records, owner, name, k), qtype, builds)
  }

  lemma AliasPrefixed(rest: seq<RR>, records: seq<LocalRecord>, owner: string, name: string, qtype: nat,
                      builds: (nat, string) -> bool, alias: LocalRecord, k: nat)
    requires FirstAlias(records, name) == Some(alias) && Walk(records, alias.value, k).Some?
    requires AliasesThenAddresses(rest, records, alias.value, alias.value, qtype, builds, k)
    ensures Walk(records, name, k + 1).Some?
    ensures AliasesThenAddresses([AliasRR(owner, alias)] + rest, records, owner, name, qtype, builds, k + 1)
  {
    WalkShift(records, name, k);
    var rr := [AliasRR(owner, alias)] + rest;
    PathAliasesShift(rest[..k], records, owner, name, alias);
    assert rr[..k + 1] == [AliasRR(owner, alias)] + rest[..k];
    assert rr[k + 1..] == rest[k..];
    assert k == 0 ==> Walk(records, alias.value, 0) == Some(alias.value);
  }

  lemma AddressesHere(records: seq<LocalRecord>, owner: string, name: string, qtype: nat,
                      builds: (nat, string) -> bool, depth: nat)
    requires depth <= MAX_CNAME_DEPTH && Matching(records, name, TypeOf(qtype)) != []
    ensures Walk(records, name, 0) == Some(name)
    ensures AliasesThenAddresses(Chain(records, owner, name, qtype, builds, depth), records, owner, name, qtype,
                                 builds, 0)
  {
    var rr := Chain(records, owner, name, qtype, builds, depth);
    assert rr[..0] == [] && rr[0..] == rr;
  }

  lemma AliasThenRest(records: seq<LocalRecord>, owner: string, name: string, qtype: nat,
                      builds: (nat, string) -> bool, depth: nat, alias: LocalRecord, k: nat)
    requires depth < MAX_CNAME_DEPTH && Owned(records, alias.value)
    requires Matching(records, name, TypeOf(qtype)) == [] && FirstAlias(records, name) == Some(alias)
    requires Walk(records, alias.value, k).Some?
    requires AliasesThenAddresses(Chain(records, alias.value, alias.value, qtype, builds, depth + 1),
                                  records, alias.value, alias.value, qtype, builds, k)
    ensures Walk(records, name, k + 1).Some?
    ensures AliasesThenAddresses(Chain(records, owner, name, qtype, builds, depth), records, owner, name, qtype,
                                 builds, k + 1)
  {
    var rest := Beyond(records, alias.value, qtype, builds, depth);
    assert rest == Chain(records, alias.value, alias.value, qtype, builds, depth + 1);
    ChainStep(records, owner, name, qtype, builds, depth, alias);
    AliasPrefixed(rest, records, owner, name, qtype, builds, alias, k);
  }

  // A path that reaches the wanted type after k aliases, k within the depth left, gives the
  // k aliases in order and then the address records there.
  lemma {:induction false} ChainReaches(records: seq<LocalRecord>, owner: string, name: string, qtype: nat,
                                        builds: (nat, string) -> bool, depth: nat, k: nat)
    requires depth + k <= MAX_CNAME_DEPTH && ReachesAt(records, name, TypeOf(qtype), k)
    ensures AliasesThenAddresses(Chain(records, owner, name, qtype, builds, depth), records, owner, name, qtype,
                                 builds, k)
    decreases k
  {
    if k == 0 {
      AddressesHere(records, owner, name, qtype, builds, depth);
    } else {
      var left := k - 1;
      var alias := FirstStep(records, name, TypeOf(qtype), k);
      ReachingIsOwned(records, alias.value, TypeOf(qtype), left);
      ChainReaches(records, alias.value, alias.value, qtype, builds, depth + 1, left);
      AliasThenRest(records, owner, name, qtype, builds, depth, alias, left);
      assert left + 1 == k;
    }
  }

  // A longer path starts with an alias, and goes on from its target.
  lemma FirstStep(records: seq<LocalRecord>, name: string, rtype: RecordType, k: nat) returns (alias: LocalRecord)
    requires k > 0 && ReachesAt(records, name, rtype, k)
    ensures Matching(records, name, rtype) == [] && FirstAlias(records, name) == Some(alias)
    ensures ReachesAt(records, alias.value, rtype, k - 1)
  {
    assert Walk(records, name, 0) == Some(name);
    WalkShift(records, name, k - 1);
    alias := FirstAlias(records, name).value;
    ReachesShift(records, name, alias, rtype, k - 1);
  }

  // The path reaches nothing of the wanted type within n aliases.
  ghost predicate MissesWithin(records: seq<LocalRecord>, name: string, rtype: RecordType, n: nat) {
    forall k: nat | k <= n :: !ReachesAt(records, name, rtype, k)
  }

  lemma MissesShift(records: seq<LocalRecord>, name: string, alias: LocalRecord, rtype: RecordType, n: nat)
    requires FirstAlias(records, name) == Some(alias) && Matching(records, name, rtype) == []
    requires MissesWithin(records, name, rtype, n + 1)
    ensures MissesWithin(records, alias.value, rtype, n)
  {
    forall k: nat | k <= n
      ensures !ReachesAt(records, alias.value, rtype, k)
    {
      ReachesShift(records, name, alias, rtype, k);
    }
  }

  // The answers are the aliases of the path, at most n of them, and fewer only where the
  // path ends.
  ghost predicate OnlyAliases(rr: seq<RR>, records: seq<LocalRecord>, owner: string, name: string, n: nat) {
    && |rr| <= n && PathAliases(rr, records, owner, name)
    && (|rr| == n || Walk(records, name, |rr| + 1).None?)
  }

  // Otherwise only aliases of the path come back, no more than the depth left.
  lemma {:induction false} ChainMisses(records: seq<LocalRecord>, owner: string, name: string, qtype: nat,
                                       builds: (nat, string) -> bool, depth: nat)
    requires depth <= MAX_CNAME_DEPTH
    requires MissesWithin(records, name, TypeOf(qtype), MAX_CNAME_DEPTH - depth)
    ensures OnlyAliases(Chain(records, owner, name, qtype, builds, depth), records, owner, name,
                        MAX_CNAME_DEPTH - depth)
    decreases MAX_CNAME_DEPTH - depth
  {
    MissesHere(records, name, TypeOf(qtype), MAX_CNAME_DEPTH - depth);
    WalkShift(records, name, 0);
    if depth < MAX_CNAME_DEPTH && FirstAlias(records, name).Some? {
      var alias := FirstAlias(records, name).value;
      ChainStep(records, owner, name, qtype, builds, depth, alias);
      if Owned(records, alias.value) {
        MissesShift(records, name, alias, TypeOf(qtype), MAX_CNAME_DEPTH - depth - 1);
        ChainMisses(records, alias.value, alias.value, qtype, builds, depth + 1);
      } else {
        EndsUnowned(records, alias.value, MAX_CNAME_DEPTH - depth - 1);
      }
      MissedStep(Beyond(records, alias.value, qtype, builds, depth), records, owner, name, alias,
                 MAX_CNAME_DEPTH - depth - 1);
    }
  }

  lemma MissesHere(records: seq<LocalRecord>, name: string, rtype: RecordType, n: nat)
    requires MissesWithin(records, name, rtype, n)
    ensures Matching(records, name, rtype) == []
  {
    assert Walk(records, name, 0) == Some(name);
    assert !ReachesAt(records, name, rtype, 0);
  }

  lemma EndsUnowned(records: seq<LocalRecord>, name: string, n: nat)
    requires !Owned(records, name)
    ensures OnlyAliases([], records, name, name, n)
  {
    UnownedHasNothing(records, name, CNAME);
    assert Walk(records, name, 0) == Some(name);
    WalkShift(records, name, 0);
  }

  lemma MissedStep(rest: seq<RR>, records: seq<LocalRecord>, owner: string, name: string, alias: LocalRecord, n: nat)
    requires FirstAlias(records, name) == Some(alias) && OnlyAliases(rest, records, alias.value, alias.value, n)
    ensures OnlyAliases([AliasRR(owner, alias)] + rest, records, owner, name, n + 1)
  {
    PathAliasesShift(rest, records, owner, name, alias);
    WalkShift(records, name, |rest| + 1);
  }

  // On any alias graph, cycles included: the answer to an address question for a local
  // name is the alias path of at most eight steps, followed by the addresses at its end
  // when the path reaches any within those steps, and by nothing otherwise.
  lemma {:induction false} ChaseExact(records: seq<LocalRecord>, request: Request, builds: (nat, string) -> bool)
    requires request.qtype == TYPE_A || request.qtype == TYPE_AAAA
    requires Owned(records, Text.NormalizeDomain(request.qname))
    ensures var name, rtype := Text.NormalizeDomain(request.qname), TypeOf(request.qtype);
            var rr := LocalReply(records, request, builds).value.rr;
            && (forall k: nat | k <= MAX_CNAME_DEPTH && ReachesAt(records, name, rtype, k) ::
                  AliasesThenAddresses(rr, records, request.qname, name, request.qtype, builds, k))
            && (MissesWithin(records, name, rtype, MAX_CNAME_DEPTH) ==>
                  && OnlyAliases(rr, records, request.qname, name, MAX_CNAME_DEPTH)
                  && forall r | r in rr :: r.rtype == TYPE_CNAME)
  {
    var name, rtype := Text.NormalizeDomain(request.qname), TypeOf(request.qtype);
    forall k: nat | k <= MAX_CNAME_DEPTH && ReachesAt(records, name, rtype, k) {
      ChainReaches(records, request.qname, name, request.qtype, builds, 0, k);
    }
    if MissesWithin(records, name, rtype, MAX_CNAME_DEPTH) {
      ChainMisses(records, request.qname, name, request.qtype, builds, 0);
    }
  }
}
