// Local zone files: parsing into forward and reverse records, and the record index.
module LocalZones {
  import opened Options
  import opened Text
  import opened IpAddress
  import opened DomainNames

  const DEFAULT_TTL := 300

  datatype RecordType = A | AAAA | CNAME | PTR

  datatype LocalRecord = LocalRecord(name: string, rtype: RecordType, value: string, ttl: int) {
    function Key(): (string, RecordType, string) {
      (name, rtype, value)
    }
  }

  // ----- One line -----

  // Digits, single underscores allowed between them.
  predicate DigitGroups(s: string) {
    && s != "" && IsDigit(s[0]) && IsDigit(s[|s| - 1])
    && (forall i | 0 <= i < |s| :: IsDigit(s[i]) || s[i] == '_')
    && (forall i | 0 < i < |s| :: s[i] == '_' ==> s[i - 1] != '_')
  }

  function WithoutUnderscores(s: string): (r: string)
    requires forall i | 0 <= i < |s| :: IsDigit(s[i]) || s[i] == '_'
    ensures AllDigits(r)
  {
    if s == "" then "" else
      (if s[0] == '_' then "" else [s[0]]) + WithoutUnderscores(s[1..])
  }

  // `int(s)`, None standing for ValueError.
  function ParseInt(s: string): Option<int> {
    Number(Strip(s))
  }

  function Number(t: string): Option<int> {
    if t != "" && (t[0] == '-' || t[0] == '+') then
      match Magnitude(t[1..])
      case Some(n) => Some(if t[0] == '-' then 0 - n else n)
      case None => None
    else
      match Magnitude(t)
      case Some(n) => Some(n)
      case None => None
  }

  function Magnitude(s: string): Option<nat> {
    if DigitGroups(s) then Some(DigitsValue(WithoutUnderscores(s))) else None
  }

  // `_parse_ttl`
  function ParseTtl(raw: string, defaultTtl: int): int {
    match ParseInt(raw)
    case Some(n) => if n < 0 then 0 else n
    case None => defaultTtl
  }

  function ForwardRecord(ip6: Ip6Text, a: Address, name: string, ttl: int): LocalRecord {
    LocalRecord(name, if a.A4? then A else AAAA, FormatAddress(ip6, a), ttl)
  }

  function ReverseRecord(a: Address, name: string, ttl: int): LocalRecord {
    LocalRecord(ReversePointer(a), PTR, name, ttl)
  }

  // `_expand`
  function Expand(ip6: Ip6Text, value: string, name: string, ttl: int): seq<LocalRecord> {
    match ParseAddress(ip6, value)
    case Some(a) => [ForwardRecord(ip6, a, name, ttl), ReverseRecord(a, name, ttl)]
    case None =>
      var target := NormalizeDomain(value);
      if NameSyntax(target) then [LocalRecord(name, CNAME, target, ttl)] else []
  }

  function Fields(line: string): (fields: seq<string>)
    ensures |fields| > 0
  {
    var parts := Split(line, ',');
    seq(|parts|, i requires 0 <= i < |parts| => Strip(parts[i]))
  }

  // The records one line of text stands for.
  function LineRecords(ip6: Ip6Text, rawLine: string, defaultTtl: int): seq<LocalRecord> {
    var line := Strip(rawLine[..IndexOf(rawLine, '#')]);
    if line == "" then []
    else
      var parts := Fields(line);
      if |parts| < 2 || parts[0] == "" || parts[1] == "" then []
      else
        var ttl := if |parts| >= 3 && parts[2] != "" then ParseTtl(parts[2], defaultTtl) else defaultTtl;
        var name := NormalizeDomain(parts[1]);
        if NameSyntax(name) then Expand(ip6, parts[0], name, ttl) else []
  }

  // ----- The whole file -----

  predicate HasKey(records: seq<LocalRecord>, key: (string, RecordType, string)) {
    exists r | r in records :: r.Key() == key
  }

  function AddRecord(records: seq<LocalRecord>, r: LocalRecord): seq<LocalRecord> {
    if HasKey(records, r.Key()) then records else records + [r]
  }

  function AddAll(records: seq<LocalRecord>, more: seq<LocalRecord>): seq<LocalRecord> {
    if more == [] then records
    else AddRecord(AddAll(records, more[..|more| - 1]), more[|more| - 1])
  }

  // The records of each line in turn, every key at its first occurrence.
  function ZoneRecords(lines: seq<seq<LocalRecord>>): seq<LocalRecord> {
    if lines == [] then []
    else AddAll(ZoneRecords(lines[..|lines| - 1]), lines[|lines| - 1])
  }

  function TextRecords(ip6: Ip6Text, text: string, defaultTtl: int): seq<seq<LocalRecord>> {
    var lines := SplitLines(text);
    seq(|lines|, i requires 0 <= i < |lines| => LineRecords(ip6, lines[i], defaultTtl))
  }

  // `parse_zone`
  method ParseZone(ip6: Ip6Text, text: string, defaultTtl: int := DEFAULT_TTL) returns (records: seq<LocalRecord>)
    ensures records == ZoneRecords(TextRecords(ip6, text, defaultTtl))
  {
    records := [];
    var seen: set<(string, RecordType, string)> := {};
    var lines := SplitLines(text);
    ghost var perLine := TextRecords(ip6, text, defaultTtl);
    for i := 0 to |lines|
      invariant records == ZoneRecords(perLine[..i])
      invariant forall key :: key in seen <==> HasKey(records, key)
    {
      assert perLine[..i + 1][..i] == perLine[..i];
      ghost var before := records;
      var rawLine := lines[i];
      var line := Strip(rawLine[..IndexOf(rawLine, '#')]);
      if line == "" {
        continue;
      }
      var parts := Fields(line);
      if |parts| < 2 || parts[0] == "" || parts[1] == "" {
        continue;
      }
      var ttl := if |parts| >= 3 && parts[2] != "" then ParseTtl(parts[2], defaultTtl) else defaultTtl;
      var name := NormalizeDomain(parts[1]);
      if !NameSyntax(name) {
        continue;
      }
      var expanded := Expand(ip6, parts[0], name, ttl);
      records, seen := AddExpanded(records, seen, expanded);
    }
    assert perLine[..|lines|] == perLine;
  }

  method AddExpanded(records0: seq<LocalRecord>, seen0: set<(string, RecordType, string)>, expanded: seq<LocalRecord>)
    returns (records: seq<LocalRecord>, seen: set<(string, RecordType, string)>)
    requires forall key :: key in seen0 <==> HasKey(records0, key)
    ensures records == AddAll(records0, expanded)
    ensures forall key :: key in seen <==> HasKey(records, key)
  {
    records, seen := records0, seen0;
    for j := 0 to |expanded|
      invariant records == AddAll(records0, expanded[..j])
      invariant forall key :: key in seen <==> HasKey(records, key)
    {
      assert expanded[..j + 1][..j] == expanded[..j];
      var key := expanded[j].Key();
      if key in seen {
        continue;
      }
      HasKeyAppend(records, expanded[j]);
      seen := seen + {key};
      records := records + [expanded[j]];
    }
    assert expanded[..|expanded|] == expanded;
  }

  lemma HasKeyAppend(records: seq<LocalRecord>, r: LocalRecord)
    ensures forall key :: HasKey(records + [r], key) <==> HasKey(records, key) || key == r.Key()
  {
    forall key
      ensures HasKey(records + [r], key) <==> HasKey(records, key) || key == r.Key()
    {
      assert r in records + [r];
      assert forall x | x in records :: x in records + [r];
    }
  }

  ghost predicate NoRepeats(records: seq<LocalRecord>) {
    forall i, j | 0 <= i < j < |records| :: records[i].Key() != records[j].Key()
  }

  lemma KeyOfMember(records: seq<LocalRecord>, r: LocalRecord)
    requires r in records
    ensures HasKey(records, r.Key())
  {
  }

  lemma {:induction false} AddAllKeys(records: seq<LocalRecord>, more: seq<LocalRecord>,
                                      key: (string, RecordType, string))
    ensures HasKey(AddAll(records, more), key) <==> HasKey(records, key) || HasKey(more, key)
  {
    if more == [] {
    } else {
      var init, last := more[..|more| - 1], more[|more| - 1];
      AddAllKeys(records, init, key);
      HasKeyAppend(init, last);
      HasKeyAppend(AddAll(records, init), last);
      assert more == init + [last];
    }
  }

  lemma NoRepeatsAppend(records: seq<LocalRecord>, r: LocalRecord)
    requires NoRepeats(records) && !HasKey(records, r.Key())
    ensures NoRepeats(records + [r])
  {
    forall i | 0 <= i < |records|
      ensures records[i].Key() != r.Key()
    {
      KeyOfMember(records, records[i]);
    }
  }

  lemma {:induction false} AddAllNoRepeats(records: seq<LocalRecord>, more: seq<LocalRecord>)
    requires NoRepeats(records)
    ensures NoRepeats(AddAll(records, more))
  {
    if more == [] {
    } else {
      var init, last := more[..|more| - 1], more[|more| - 1];
      AddAllNoRepeats(records, init);
      if !HasKey(AddAll(records, init), last.Key()) {
        NoRepeatsAppend(AddAll(records, init), last);
      }
    }
  }

  // Adding a line adds its records whose key is new.
  lemma {:induction false} AddAllMembers(records: seq<LocalRecord>, more: seq<LocalRecord>, r: LocalRecord)
    requires NoRepeats(more)
    ensures r in AddAll(records, more) <==> r in records || (r in more && !HasKey(records, r.Key()))
  {
    if more == [] {
    } else {
      var init, last := more[..|more| - 1], more[|more| - 1];
      assert more == init + [last];
      AddAllMembers(records, init, r);
      AddAllKeys(records, init, last.Key());
      LastKeyNew(init, last);
    }
  }

  lemma LastKeyNew(init: seq<LocalRecord>, last: LocalRecord)
    requires NoRepeats(init + [last])
    ensures !HasKey(init, last.Key())
  {
    if r :| r in init && r.Key() == last.Key() {
      var i :| 0 <= i < |init| && init[i] == r;
      assert (init + [last])[i] == r && (init + [last])[|init|] == last;
    }
  }

  // No (name, type, value) occurs twice in a zone.
  lemma {:induction false} ZoneNoRepeats(lines: seq<seq<LocalRecord>>)
    ensures NoRepeats(ZoneRecords(lines))
  {
    if lines == [] {
    } else {
      ZoneNoRepeats(lines[..|lines| - 1]);
      AddAllNoRepeats(ZoneRecords(lines[..|lines| - 1]), lines[|lines| - 1]);
    }
  }

  ghost predicate InSomeLine(lines: seq<seq<LocalRecord>>, key: (string, RecordType, string)) {
    exists i | 0 <= i < |lines| :: HasKey(lines[i], key)
  }

  lemma {:induction false} ZoneKeys(lines: seq<seq<LocalRecord>>, key: (string, RecordType, string))
    ensures HasKey(ZoneRecords(lines), key) <==> InSomeLine(lines, key)
  {
    if lines != [] {
      var init, last := lines[..|lines| - 1], lines[|lines| - 1];
      ZoneKeys(init, key);
      AddAllKeys(ZoneRecords(init), last, key);
      SomeLineAppend(init, last, key);
      assert lines == init + [last];
    } else {
      assert !HasKey([], key);
    }
  }

  lemma SomeLineAppend(init: seq<seq<LocalRecord>>, last: seq<LocalRecord>, key: (string, RecordType, string))
    ensures InSomeLine(init + [last], key) <==> InSomeLine(init, key) || HasKey(last, key)
  {
    var lines := init + [last];
    assert lines[|init|] == last;
    if i :| 0 <= i < |init| && HasKey(init[i], key) {
      assert HasKey(lines[i], key);
    }
  }

  // Line i has this record and no earlier line has its key.
  ghost predicate FirstAt(lines: seq<seq<LocalRecord>>, r: LocalRecord, i: int) {
    && 0 <= i < |lines| && r in lines[i]
    && forall j | 0 <= j < i :: !HasKey(lines[j], r.Key())
  }

  // The zone holds exactly the first occurrences, so the first TTL given wins.
  lemma {:induction false} FirstOccurrenceWins(lines: seq<seq<LocalRecord>>, r: LocalRecord)
    requires forall l | l in lines :: NoRepeats(l)
    ensures r in ZoneRecords(lines) <==> exists i :: FirstAt(lines, r, i)
  {
    if lines == [] {
    } else {
      var init, last := lines[..|lines| - 1], lines[|lines| - 1];
      assert last in lines && forall l | l in init :: l in lines;
      FirstOccurrenceWins(init, r);
      ZoneKeys(init, r.Key());
      AddAllMembers(ZoneRecords(init), last, r);
      FirstAtAppend(init, last, r);
      assert lines == init + [last];
    }
  }

  lemma FirstAtAppend(init: seq<seq<LocalRecord>>, last: seq<LocalRecord>, r: LocalRecord)
    ensures (exists i :: FirstAt(init + [last], r, i))
       <==> (exists i :: FirstAt(init, r, i)) || (r in last && !InSomeLine(init, r.Key()))
  {
    var lines := init + [last];
    assert forall i | 0 <= i < |init| :: lines[i] == init[i];
    if i :| FirstAt(init, r, i) {
      assert FirstAt(lines, r, i);
    }
    if r in last && !InSomeLine(init, r.Key()) {
      assert FirstAt(lines, r, |init|);
    }
    if i :| FirstAt(lines, r, i) {
      assert i < |init| ==> FirstAt(init, r, i);
      assert i == |init| ==> forall j | 0 <= j < |init| :: !HasKey(lines[j], r.Key());
    }
  }

  lemma LineNoRepeats(ip6: Ip6Text, rawLine: string, defaultTtl: int)
    ensures NoRepeats(LineRecords(ip6, rawLine, defaultTtl))
  {
  }

  // A line holds the forward and the reverse record of an address, or neither.
  lemma ExpandPairs(ip6: Ip6Text, value: string, name0: string, ttl0: int, a: Address, name: string, ttl: int)
    requires Faithful(ip6)
    ensures var rs := Expand(ip6, value, name0, ttl0);
            && (ForwardRecord(ip6, a, name, ttl) in rs <==> ReverseRecord(a, name, ttl) in rs)
            && (HasKey(rs, ForwardRecord(ip6, a, name, ttl).Key()) <==> HasKey(rs, ReverseRecord(a, name, ttl).Key()))
  {
    match ParseAddress(ip6, value)
    case Some(b) =>
      var f, r := ForwardRecord(ip6, b, name0, ttl0), ReverseRecord(b, name0, ttl0);
      assert f in [f, r] && r in [f, r];
      if ForwardRecord(ip6, a, name, ttl).Key() == f.Key() {
        FormatAddressInjective(ip6, a, b);
      }
      if ReverseRecord(a, name, ttl).Key() == r.Key() {
        ReversePointerInjective(a, b);
      }
      assert HasKey([f, r], ForwardRecord(ip6, a, name, ttl).Key())
        <==> ForwardRecord(ip6, a, name, ttl).Key() == f.Key();
      assert HasKey([f, r], ReverseRecord(a, name, ttl).Key()) <==> ReverseRecord(a, name, ttl).Key() == r.Key();
    case None =>
  }

  lemma LinePairs(ip6: Ip6Text, rawLine: string, defaultTtl: int, a: Address, name: string, ttl: int)
    requires Faithful(ip6)
    ensures var rs := LineRecords(ip6, rawLine, defaultTtl);
            && (ForwardRecord(ip6, a, name, ttl) in rs <==> ReverseRecord(a, name, ttl) in rs)
            && (HasKey(rs, ForwardRecord(ip6, a, name, ttl).Key()) <==> HasKey(rs, ReverseRecord(a, name, ttl).Key()))
  {
    var line := Strip(rawLine[..IndexOf(rawLine, '#')]);
    if line != "" {
      var parts := Fields(line);
      if |parts| >= 2 && parts[0] != "" && parts[1] != "" {
        var t := if |parts| >= 3 && parts[2] != "" then ParseTtl(parts[2], defaultTtl) else defaultTtl;
        ExpandPairs(ip6, parts[0], NormalizeDomain(parts[1]), t, a, name, ttl);
      }
    }
  }

  // For every text: an address record for (name, address) is in the zone exactly when
  // the reverse record back to the name is, with the same TTL.
  lemma {:induction false} ForwardReverseBijection(ip6: Ip6Text, text: string, defaultTtl: int, a: Address,
                                                   name: string, ttl: int)
    requires Faithful(ip6)
    ensures var zone := ZoneRecords(TextRecords(ip6, text, defaultTtl));
            ForwardRecord(ip6, a, name, ttl) in zone <==> ReverseRecord(a, name, ttl) in zone
  {
    var texts := SplitLines(text);
    var lines := TextRecords(ip6, text, defaultTtl);
    forall l | l in lines
      ensures NoRepeats(l)
    {
      var i :| 0 <= i < |lines| && lines[i] == l;
      LineNoRepeats(ip6, texts[i], defaultTtl);
    }
    var f, r := ForwardRecord(ip6, a, name, ttl), ReverseRecord(a, name, ttl);
    FirstOccurrenceWins(lines, f);
    FirstOccurrenceWins(lines, r);
    forall i | 0 <= i < |lines|
      ensures f in lines[i] <==> r in lines[i]
      ensures HasKey(lines[i], f.Key()) <==> HasKey(lines[i], r.Key())
    {
      LinePairs(ip6, texts[i], defaultTtl, a, name, ttl);
    }
    assert forall i :: FirstAt(lines, f, i) <==> FirstAt(lines, r, i);
  }

  // An address or reverse record of an address, or an alias to a valid name.
  ghost predicate Shaped(ip6: Ip6Text, r: LocalRecord) {
    && (r.rtype.A? || r.rtype.AAAA? ==> exists a :: r == ForwardRecord(ip6, a, r.name, r.ttl))
    && (r.rtype.PTR? ==> exists a :: r == ReverseRecord(a, r.value, r.ttl))
    && (r.rtype.CNAME? ==> NameSyntax(r.value))
  }

  // ... and there are no address or reverse records of any other shape.
  lemma {:induction false} ZoneRecordShapes(ip6: Ip6Text, text: string, defaultTtl: int, r: LocalRecord)
    ensures r in ZoneRecords(TextRecords(ip6, text, defaultTtl)) ==> Shaped(ip6, r)
  {
    var texts := SplitLines(text);
    var lines := TextRecords(ip6, text, defaultTtl);
    forall l | l in lines
      ensures NoRepeats(l)
    {
      var i :| 0 <= i < |lines| && lines[i] == l;
      LineNoRepeats(ip6, texts[i], defaultTtl);
    }
    FirstOccurrenceWins(lines, r);
    if i :| FirstAt(lines, r, i) {
      LineShape(ip6, texts[i], defaultTtl, r);
    }
  }

  lemma LineShape(ip6: Ip6Text, rawLine: string, defaultTtl: int, r: LocalRecord)
    requires r in LineRecords(ip6, rawLine, defaultTtl)
    ensures Shaped(ip6, r)
  {
    var parts := Fields(Strip(rawLine[..IndexOf(rawLine, '#')]));
    match ParseAddress(ip6, parts[0])
    case Some(a) =>
      assert r == ForwardRecord(ip6, a, r.name, r.ttl) || r == ReverseRecord(a, r.value, r.ttl);
    case None =>
  }

  // ----- The index -----

  // The records of a name and type, in order.
  function Matching(records: seq<LocalRecord>, name: string, rtype: RecordType): seq<LocalRecord> {
    if records == [] then [] else
      var last := records[|records| - 1];
      Matching(records[..|records| - 1], name, rtype)
      + if last.name == name && last.rtype == rtype then [last] else []
  }

  lemma {:induction false} MatchingMembers(records: seq<LocalRecord>, name: string, rtype: RecordType, x: LocalRecord)
    ensures x in Matching(records, name, rtype) <==> x in records && x.name == name && x.rtype == rtype
  {
    if records == [] {
    } else {
      MatchingMembers(records[..|records| - 1], name, rtype, x);
    }
  }

  predicate Owned(records: seq<LocalRecord>, name: string) {
    exists r | r in records :: r.name == name
  }

  function FirstAlias(records: seq<LocalRecord>, name: string): Option<LocalRecord> {
    var aliases := Matching(records, name, CNAME);
    if aliases == [] then None else Some(aliases[0])
  }

  type Index = map<(string, RecordType), seq<LocalRecord>>

  function IndexGet(index: Index, name: string, rtype: RecordType): seq<LocalRecord> {
    if (name, rtype) in index then index[(name, rtype)] else []
  }

  // The index answers every lookup as a scan of the records would.
  ghost predicate IndexExact(index: Index, records: seq<LocalRecord>) {
    forall name, rtype :: Matching(records, name, rtype) == IndexGet(index, name, rtype)
  }

  // `index.setdefault((r.name, r.rtype), []).append(r)`
  function Indexed(index: Index, r: LocalRecord): Index {
    index[(r.name, r.rtype) := IndexGet(index, r.name, r.rtype) + [r]]
  }

  lemma IndexedExact(index: Index, records: seq<LocalRecord>, r: LocalRecord)
    requires IndexExact(index, records)
    ensures IndexExact(Indexed(index, r), records + [r])
  {
    assert (records + [r])[..|records|] == records;
  }

  lemma OwnedAppend(records: seq<LocalRecord>, r: LocalRecord, name: string)
    ensures Owned(records + [r], name) <==> Owned(records, name) || name == r.name
  {
    assert r in records + [r];
    assert forall x | x in records :: x in records + [r];
  }

  class LocalRecords {
    ghost const records: seq<LocalRecord>
    const index: Index
    const names: set<string>
    const count: nat

    ghost predicate Valid() {
      && IndexExact(index, records)
      && (forall name :: name in names <==> Owned(records, name))
      && count == |records|
    }

    constructor (records: seq<LocalRecord>)
      ensures Valid() && this.records == records
    {
      var index: Index := map[];
      var names: set<string> := {};
      var count := 0;
      for i := 0 to |records|
        invariant count == i
        invariant IndexExact(index, records[..i])
        invariant forall name :: name in names <==> Owned(records[..i], name)
      {
        assert records[..i + 1] == records[..i] + [records[i]];
        IndexedExact(index, records[..i], records[i]);
        forall name {
          OwnedAppend(records[..i], records[i], name);
        }
        index := Indexed(index, records[i]);
        names := names + {records[i].name};
        count := count + 1;
      }
      assert records[..|records|] == records;
      this.records := records;
      this.index := index;
      this.names := names;
      this.count := count;
    }

    predicate Owns(name: string) {
      name in names
    }

    function Get(name: string, rtype: RecordType): seq<LocalRecord> {
      IndexGet(index, name, rtype)
    }

    function Cname(name: string): Option<LocalRecord> {
      var found := Get(name, CNAME);
      if found != [] then Some(found[0]) else None
    }

    lemma Lookups(name: string, rtype: RecordType)
      requires Valid()
      ensures Owns(name) <==> Owned(records, name)
      ensures Get(name, rtype) == Matching(records, name, rtype)
      ensures Cname(name) == FirstAlias(records, name)
    {
      assert Matching(records, name, CNAME) == Get(name, CNAME);
    }
  }
}
