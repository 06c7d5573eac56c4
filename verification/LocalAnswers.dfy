// What local records answer, record by record and in file order.
module LocalAnswers {
  import opened Options
  import opened Answers
  import opened LocalZones
  import opened AliasChase
  import Text

  // ----- Picking records in file order -----

  ghost predicate Increasing(idx: seq<nat>) {
    forall i, j | 0 <= i < j < |idx| :: idx[i] < idx[j]
  }

  predicate Wanted(x: LocalRecord, name: string, rtype: RecordType, keep: string -> bool) {
    x.name == name && x.rtype == rtype && keep(x.value)
  }

  // The indices of the wanted records, in file order, each once.
  ghost predicate Picks(idx: seq<nat>, records: seq<LocalRecord>, name: string, rtype: RecordType,
                        keep: string -> bool) {
    && Increasing(idx)
    && (forall i | i in idx :: i < |records| && Wanted(records[i], name, rtype, keep))
    && (forall i: nat | i < |records| && Wanted(records[i], name, rtype, keep) :: i in idx)
  }

  // One answer of type `code` for each picked record, under the owner, with its TTL and value.
  ghost predicate AnswersPicked(rr: seq<RR>, idx: seq<nat>, records: seq<LocalRecord>, owner: string, code: nat)
    requires forall i | i in idx :: i < |records|
  {
    && |rr| == |idx|
    && forall j | 0 <= j < |rr| ::
         idx[j] in idx && rr[j] == RR(owner, code, records[idx[j]].ttl, records[idx[j]].value, 0)
  }

  // The answers are exactly the wanted records, in file order.
  ghost predicate InFileOrder(rr: seq<RR>, records: seq<LocalRecord>, name: string, rtype: RecordType,
                              keep: string -> bool, owner: string, code: nat)
  {
    exists idx :: Picks(idx, records, name, rtype, keep) && AnswersPicked(rr, idx, records, owner, code)
  }

  lemma PicksMore(idx: seq<nat>, init: seq<LocalRecord>, last: LocalRecord, name: string, rtype: RecordType,
                  keep: string -> bool)
    requires Picks(idx, init, name, rtype, keep)
    ensures Picks(if Wanted(last, name, rtype, keep) then idx + [|init|] else idx, init + [last], name, rtype, keep)
  {
    var all := init + [last];
    assert all[|init|] == last && forall i: nat | i < |init| :: all[i] == init[i];
    var idx' := if Wanted(last, name, rtype, keep) then idx + [|init|] else idx;
    forall i | i in idx'
      ensures i < |all| && Wanted(all[i], name, rtype, keep)
    {
      assert i in idx || i == |init|;
    }
    forall i, j | 0 <= i < j < |idx'|
      ensures idx'[i] < idx'[j]
    {
      assert idx[i] in idx;
    }
    forall i: nat | i < |all| && Wanted(all[i], name, rtype, keep)
      ensures i in idx'
    {
      if i < |init| {
        assert i in idx;
      }
    }
  }

  lemma AnswersMore(rr: seq<RR>, idx: seq<nat>, init: seq<LocalRecord>, last: LocalRecord, owner: string, code: nat)
    requires (forall i | i in idx :: i < |init|) && AnswersPicked(rr, idx, init, owner, code)
    ensures AnswersPicked(rr, idx, init + [last], owner, code)
    ensures forall i | i in idx + [|init|] :: i < |init + [last]|
    ensures AnswersPicked(rr + [RR(owner, code, last.ttl, last.value, 0)], idx + [|init|], init + [last], owner, code)
  {
    var all := init + [last];
    forall i | i in idx + [|init|]
      ensures i < |all|
    {
      assert i in idx || i == |init|;
    }
    var rr', idx' := rr + [RR(owner, code, last.ttl, last.value, 0)], idx + [|init|];
    forall j | 0 <= j < |rr'|
      ensures idx'[j] in idx' && rr'[j] == RR(owner, code, all[idx'[j]].ttl, all[idx'[j]].value, 0)
    {
      if j < |rr| {
        assert idx[j] in idx && all[idx[j]] == init[idx[j]];
      }
    }
  }

  lemma FileOrderMore(rr: seq<RR>, init: seq<LocalRecord>, last: LocalRecord, name: string, rtype: RecordType,
                      keep: string -> bool, owner: string, code: nat)
    requires InFileOrder(rr, init, name, rtype, keep, owner, code)
    ensures InFileOrder(if Wanted(last, name, rtype, keep) then rr + [RR(owner, code, last.ttl, last.value, 0)] else rr,
                        init + [last], name, rtype, keep, owner, code)
  {
    var idx :| Picks(idx, init, name, rtype, keep) && AnswersPicked(rr, idx, init, owner, code);
    PicksMore(idx, init, last, name, rtype, keep);
    AnswersMore(rr, idx, init, last, owner, code);
  }

  lemma NothingPicked(name: string, rtype: RecordType, keep: string -> bool, owner: string, code: nat)
    ensures InFileOrder([], [], name, rtype, keep, owner, code)
  {
    assert Picks([], [], name, rtype, keep) && AnswersPicked([], [], [], owner, code);
  }

  // ----- The two ways records become answers -----

  lemma MatchingMore(init: seq<LocalRecord>, last: LocalRecord, name: string, rtype: RecordType)
    ensures Matching(init + [last], name, rtype)
         == Matching(init, name, rtype) + if last.name == name && last.rtype == rtype then [last] else []
  {
    assert (init + [last])[..|init|] == init;
  }

  lemma AddressesMore(init: seq<LocalRecord>, last: LocalRecord, owner: string, qtype: nat,
                      builds: (nat, string) -> bool)
    ensures AddressRRs(init + [last], owner, qtype, builds)
         == AddressRRs(init, owner, qtype, builds)
            + if builds(qtype, last.value) then [RR(owner, qtype, last.ttl, last.value, 0)] else []
  {
    assert (init + [last])[..|init|] == init;
  }

  lemma {:induction false} AddressesInOrder(records: seq<LocalRecord>, name: string, rtype: RecordType, owner: string,
                                            qtype: nat, builds: (nat, string) -> bool)
    ensures InFileOrder(AddressRRs(Matching(records, name, rtype), owner, qtype, builds), records, name, rtype,
                        v => builds(qtype, v), owner, qtype)
  {
    if records == [] {
      NothingPicked(name, rtype, v => builds(qtype, v), owner, qtype);
    } else {
      var init, last := records[..|records| - 1], records[|records| - 1];
      assert records == init + [last];
      AddressesInOrder(init, name, rtype, owner, qtype, builds);
      MatchingMore(init, last, name, rtype);
      AddressesMore(Matching(init, name, rtype), last, owner, qtype, builds);
      assert Matching(init, name, rtype) + [] == Matching(init, name, rtype);
      FileOrderMore(AddressRRs(Matching(init, name, rtype), owner, qtype, builds), init, last, name, rtype,
                    v => builds(qtype, v), owner, qtype);
      assert AddressRRs(Matching(init, name, rtype), owner, qtype, builds) + []
          == AddressRRs(Matching(init, name, rtype), owner, qtype, builds);
    }
  }

  lemma PlainMore(init: seq<LocalRecord>, last: LocalRecord, owner: string)
    ensures PlainRRs(init + [last], owner)
         == PlainRRs(init, owner) + match last.rtype
                                    case CNAME => [RR(owner, 5, last.ttl, last.value, 0)]
                                    case PTR => [RR(owner, 12, last.ttl, last.value, 0)]
                                    case _ => []
  {
    assert (init + [last])[..|init|] == init;
  }

  lemma {:induction false} PlainInOrder(records: seq<LocalRecord>, name: string, rtype: RecordType, owner: string)
    requires rtype.CNAME? || rtype.PTR?
    ensures InFileOrder(PlainRRs(Matching(records, name, rtype), owner), records, name, rtype, v => true, owner,
                        if rtype.CNAME? then 5 else 12)
  {
    var code := if rtype.CNAME? then 5 else 12;
    if records == [] {
      NothingPicked(name, rtype, v => true, owner, code);
    } else {
      var init, last := records[..|records| - 1], records[|records| - 1];
      assert records == init + [last];
      PlainInOrder(init, name, rtype, owner);
      MatchingMore(init, last, name, rtype);
      PlainMore(Matching(init, name, rtype), last, owner);
      assert Matching(init, name, rtype) + [] == Matching(init, name, rtype);
      FileOrderMore(PlainRRs(Matching(init, name, rtype), owner), init, last, name, rtype, v => true, owner, code);
    }
  }

  // Record i is an alias of the name and no earlier one is.
  ghost predicate FirstAliasAt(records: seq<LocalRecord>, name: string, i: nat) {
    && i < |records| && records[i].name == name && records[i].rtype.CNAME?
    && forall j | 0 <= j < i :: !(records[j].name == name && records[j].rtype.CNAME?)
  }

  // The alias of a name is its first alias record in the file.
  lemma {:induction false} FirstAliasExact(records: seq<LocalRecord>, name: string, i: nat)
    requires FirstAliasAt(records, name, i)
    ensures FirstAlias(records, name) == Some(records[i])
  {
    var init, last := records[..|records| - 1], records[|records| - 1];
    assert records == init + [last];
    MatchingMore(init, last, name, CNAME);
    if i < |init| {
      FirstAliasExact(init, name, i);
    } else {
      NothingMatches(init, name, CNAME);
    }
  }

  // ----- Questions about a name of its own -----

  // Address questions about a name with records of the asked family are answered with
  // exactly those that build, in file order, aliases or not; alias and pointer questions
  // with exactly the name's alias and pointer records; any other question with nothing.
  lemma OwnRecordsAnswer(records: seq<LocalRecord>, request: Request, builds: (nat, string) -> bool)
    requires Owned(records, Text.NormalizeDomain(request.qname))
    ensures var name := Text.NormalizeDomain(request.qname);
            var reply := LocalReply(records, request, builds).value;
            && reply == Reply(request.id, 0, reply.rr, [], [])
            && (request.qtype == 1 && (exists r | r in records :: r.name == name && r.rtype.A?) ==>
                  InFileOrder(reply.rr, records, name, RecordType.A, v => builds(1, v), request.qname, 1))
            && (request.qtype == 28 && (exists r | r in records :: r.name == name && r.rtype.AAAA?) ==>
                  InFileOrder(reply.rr, records, name, RecordType.AAAA, v => builds(28, v), request.qname, 28))
            && (request.qtype == 5 ==> InFileOrder(reply.rr, records, name, RecordType.CNAME, v => true,
                                                   request.qname, 5))
            && (request.qtype == 12 ==> InFileOrder(reply.rr, records, name, RecordType.PTR, v => true, request.qname,
                                                    12))
            && (request.qtype !in {1, 5, 12, 28} ==> reply.rr == [])
  {
    var name := Text.NormalizeDomain(request.qname);
    if request.qtype == 1 {
      DirectAnswers(records, request.qname, name, 1, RecordType.A, builds);
    } else if request.qtype == 28 {
      DirectAnswers(records, request.qname, name, 28, RecordType.AAAA, builds);
    } else if request.qtype == 5 {
      PlainInOrder(records, name, CNAME, request.qname);
    } else if request.qtype == 12 {
      PlainInOrder(records, name, PTR, request.qname);
    }
  }

  lemma DirectAnswers(records: seq<LocalRecord>, owner: string, name: string, qtype: nat, rtype: RecordType,
                      builds: (nat, string) -> bool)
    requires (qtype == 1 && rtype.A?) || (qtype == 28 && rtype.AAAA?)
    ensures (exists r | r in records :: r.name == name && r.rtype == rtype) ==>
              InFileOrder(Chain(records, owner, name, qtype, builds, 0), records, name, rtype,
                          v => builds(qtype, v), owner, qtype)
  {
    if r :| r in records && r.name == name && r.rtype == rtype {
      MatchingMembers(records, name, rtype, r);
      AddressesInOrder(records, name, rtype, owner, qtype, builds);
    }
  }

  // ----- Questions that follow aliases -----

  // The record type an address question asks for.
  predicate Asks(qtype: nat, rtype: RecordType) {
    (qtype == 1 && rtype.A?) || (qtype == 28 && rtype.AAAA?)
  }

  // Answer j is the alias of the j-th name of the path, with its TTL and target, under the
  // question's own spelling at first and the name itself later.
  ghost predicate PathAnswers(rr: seq<RR>, records: seq<LocalRecord>, qname: string, name: string) {
    forall j | 0 <= j < |rr| ::
      && Walk(records, name, j).Some?
      && var at := Walk(records, name, j).value;
         var alias := FirstAlias(records, at);
         alias.Some? && rr[j] == RR(if j == 0 then qname else at, 5, alias.value.ttl, alias.value.value, 0)
  }

  // On any alias graph: a path that reaches records of the asked family at its least index
  // k within eight steps is answered with its k aliases and then exactly the records of
  // that family there that build, in file order; any other with at most eight aliases of the
  // path and nothing else.
  lemma ChaseAnswers(records: seq<LocalRecord>, request: Request, builds: (nat, string) -> bool, rtype: RecordType)
    requires Asks(request.qtype, rtype) && Owned(records, Text.NormalizeDomain(request.qname))
    ensures var name := Text.NormalizeDomain(request.qname);
            var rr := LocalReply(records, request, builds).value.rr;
            && (forall k: nat | k <= 8 && ReachesAt(records, name, rtype, k) ::
                  && |rr| >= k && PathAnswers(rr[..k], records, request.qname, name)
                  && var target := Walk(records, name, k).value;
                     InFileOrder(rr[k..], records, target, rtype, v => builds(request.qtype, v),
                                 if k == 0 then request.qname else target, request.qtype))
            && ((forall k: nat | k <= 8 :: !ReachesAt(records, name, rtype, k)) ==>
                  && |rr| <= 8 && PathAnswers(rr, records, request.qname, name)
                  && (|rr| < 8 ==> Walk(records, name, |rr| + 1).None?))
  {
    var name := Text.NormalizeDomain(request.qname);
    var rr := LocalReply(records, request, builds).value.rr;
    ChaseExact(records, request, builds);
    forall k: nat | k <= 8 && ReachesAt(records, name, rtype, k)
      ensures |rr| >= k && PathAnswers(rr[..k], records, request.qname, name)
      ensures var target := Walk(records, name, k).value;
              InFileOrder(rr[k..], records, target, rtype, v => builds(request.qtype, v),
                          if k == 0 then request.qname else target, request.qtype)
    {
      assert AliasesThenAddresses(rr, records, request.qname, name, request.qtype, builds, k);
      var target := Walk(records, name, k).value;
      PathSpelled(rr[..k], records, request.qname, name);
      AddressesInOrder(records, target, rtype, OwnerAt(records, request.qname, name, k), request.qtype, builds);
    }
    if forall k: nat | k <= 8 :: !ReachesAt(records, name, rtype, k) {
      assert MissesWithin(records, name, rtype, 8);
      PathSpelled(rr, records, request.qname, name);
    }
  }

  lemma PathSpelled(rr: seq<RR>, records: seq<LocalRecord>, qname: string, name: string)
    requires PathAliases(rr, records, qname, name)
    ensures PathAnswers(rr, records, qname, name)
  {
    assert Walk(records, name, 0) == Some(name);
    forall j | 0 <= j < |rr|
      ensures Walk(records, name, j).Some? && FirstAlias(records, Walk(records, name, j).value).Some?
      ensures var at := Walk(records, name, j).value;
              var alias := FirstAlias(records, at).value;
              rr[j] == RR(if j == 0 then qname else at, 5, alias.ttl, alias.value, 0)
    {
      assert IsPathAlias(rr[j], records, qname, name, j);
    }
  }

  // So every address answer to an A question comes from an A record and has type 1, and to
  // an AAAA question from an AAAA record and has type 28; all the others are aliases.
  lemma FamilyKept(records: seq<LocalRecord>, request: Request, builds: (nat, string) -> bool, rtype: RecordType, r: RR)
    requires Asks(request.qtype, rtype) && Owned(records, Text.NormalizeDomain(request.qname))
    requires r in LocalReply(records, request, builds).value.rr
    ensures || (exists x | x in records :: x.rtype == rtype && r == RR(r.owner, request.qtype, x.ttl, x.value, 0))
            || (exists x | x in records :: x.rtype.CNAME? && r == RR(r.owner, 5, x.ttl, x.value, 0))
  {
    ChainFamily(records, request.qname, Text.NormalizeDomain(request.qname), request.qtype, builds, 0, rtype, r);
  }

  lemma {:induction false} ChainFamily(records: seq<LocalRecord>, owner: string, name: string, qtype: nat,
                                       builds: (nat, string) -> bool, depth: nat, rtype: RecordType, r: RR)
    requires depth <= 8 && Asks(qtype, rtype) && r in Chain(records, owner, name, qtype, builds, depth)
    ensures || (exists x | x in records :: x.rtype == rtype && r == RR(r.owner, qtype, x.ttl, x.value, 0))
            || (exists x | x in records :: x.rtype.CNAME? && r == RR(r.owner, 5, x.ttl, x.value, 0))
    decreases 8 - depth
  {
    var matches := Matching(records, name, rtype);
    if matches != [] {
      AddressMember(matches, owner, qtype, builds, r);
      var x :| x in matches && r == RR(owner, qtype, x.ttl, x.value, 0);
      MatchingMembers(records, name, rtype, x);
    } else if depth < 8 && FirstAlias(records, name).Some? {
      var alias := FirstAlias(records, name).value;
      MatchingMembers(records, name, CNAME, alias);
      ChainStep(records, owner, name, qtype, builds, depth, alias);
      if r != RR(owner, 5, alias.ttl, alias.value, 0) {
        assert r in Beyond(records, alias.value, qtype, builds, depth);
        ChainFamily(records, alias.value, alias.value, qtype, builds, depth + 1, rtype, r);
      }
    }
  }

  lemma {:induction false} AddressMember(records: seq<LocalRecord>, owner: string, qtype: nat,
                                         builds: (nat, string) -> bool, r: RR)
    requires r in AddressRRs(records, owner, qtype, builds)
    ensures exists x | x in records :: builds(qtype, x.value) && r == RR(owner, qtype, x.ttl, x.value, 0)
  {
    var init, last := records[..|records| - 1], records[|records| - 1];
    assert last in records && forall x | x in init :: x in records;
    if r in AddressRRs(init, owner, qtype, builds) {
      AddressMember(init, owner, qtype, builds, r);
    }
  }
}
