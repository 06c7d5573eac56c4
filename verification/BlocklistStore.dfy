// The blocklist tables: diffing refreshes, and lookups that never load a whole list.
module BlocklistStore {
  import opened Options
  import opened Text
  import opened IpAddress
  import opened Blocklist
  import opened Numbers
  import opened Sequences
  import BlocklistParser

  datatype ListRow = ListRow(name: string, url: string, enabled: bool, domainCount: nat,
                             lastStatus: Option<string>, format: Option<string>, lastDownloaded: Option<int>)

  // (blocklist id, domain) -> first_seen
  type DomainTable = map<(nat, string), int>

  datatype Source = Source(blocklistId: nat, blocklistName: Option<string>, matched: string)

  datatype Annotated = Annotated(domain: string, blocked: Option<bool>)

  datatype RefreshResult = Refreshed(row: ListRow) | NotFound | DownloadFailed

  function Contents(t: DomainTable, id: nat): set<string> {
    set k | k in t.Keys && k.0 == id :: k.1
  }

  // A refresh at `now` that stores exactly `desired` for one list.
  function Replaced(t: DomainTable, id: nat, desired: set<string>, now: int): DomainTable {
    map k | k in t.Keys + (set d | d in desired :: (id, d)) && (k.0 == id ==> k.1 in desired)
      :: if k in t then t[k] else now
  }

  // `DELETE ... WHERE blocklist_id = id AND domain IN names`
  function WithoutNames(t: DomainTable, id: nat, names: seq<string>): DomainTable {
    map k | k in t && !(k.0 == id && k.1 in names) :: t[k]
  }

  // The rows one INSERT adds.
  function NewRows(id: nat, names: seq<string>, now: int): DomainTable {
    map d | d in names :: (id, d) := now
  }

  function EnabledIds(lists: map<nat, ListRow>): set<nat> {
    set id | id in lists && lists[id].enabled
  }

  // What the resolver loads: every domain of every enabled list.
  function EnabledDomains(lists: map<nat, ListRow>, t: DomainTable): set<string> {
    set k | k in t.Keys && k.0 in EnabledIds(lists) :: k.1
  }

  // The (list, domain) rows that block a name.
  function BlockingRows(lists: map<nat, ListRow>, t: DomainTable, name: string): set<(nat, string)> {
    set k | k in t.Keys && k.0 in EnabledIds(lists) && k.1 in DomainSuffixes(name)
  }

  // What a downloaded text stores: its domains but for the overridden entries.
  function StoredDomains(ip6: Ip6Text, text: string, overrides: set<string>): set<string> {
    set d | d in BlocklistParser.ParseLines(ip6, SplitLines(text)) && d !in overrides
  }

  function DownloadedRow(ip6: Ip6Text, row: ListRow, text: string, overrides: set<string>, now: int): ListRow {
    var count := |StoredDomains(ip6, text, overrides)|;
    row.(domainCount := count, lastStatus := Some("ok: " + Decimal(count) + " domains"),
         format := Some(BlocklistParser.DetectedFormat(BlocklistParser.Sample(ip6, SplitLines(text)))),
         lastDownloaded := Some(now))
  }

  // `list(s)`: the elements in some order.
  method ListOf<T(==)>(s: set<T>) returns (q: seq<T>)
    ensures forall x :: x in q <==> x in s
    ensures forall i, j | 0 <= i < j < |q| :: q[i] != q[j]
  {
    q := [];
    var rest := s;
    while rest != {}
      invariant rest <= s
      invariant forall x :: x in q <==> x in s && x !in rest
      invariant forall i, j | 0 <= i < j < |q| :: q[i] != q[j]
      decreases rest
    {
      var x :| x in rest;
      q := q + [x];
      rest := rest - {x};
    }
  }

  class Tables {
    var lists: map<nat, ListRow>
    var domains: DomainTable
    var overrides: set<string>

    constructor ()
      ensures lists == map[] && domains == map[] && overrides == {}
    {
      lists, domains, overrides := map[], map[], {};
    }

    // `replace_domains`; deletes go `chunk` names at a time (the source passes 500).
    method ReplaceDomains(id: nat, desiredList: seq<string>, now: int, chunk: nat)
      requires chunk > 0
      modifies this`domains
      ensures domains == Replaced(old(domains), id, (set d | d in desiredList), now)
    {
      var desired := set d | d in desiredList;
      ghost var before := domains;
      var existing := Contents(domains, id);
      var removed := ListOf(existing - desired);
      var added := ListOf(desired - existing);
      var start := 0;
      while start < |removed|
        invariant 0 <= start
        invariant domains == WithoutNames(before, id, removed[..Min(start, |removed|)])
        decreases |removed| - start
      {
        var stop := Min(start + chunk, |removed|);
        var part := removed[start..stop];
        assert removed[..stop] == removed[..start] + part;
        WithoutMoreNames(before, id, removed[..start], part);
        domains := WithoutNames(domains, id, part);
        start := start + chunk;
      }
      assert removed[..|removed|] == removed;
      DiffIsReplacement(before, id, desired, removed, added, now);
      if added != [] {
        domains := domains + NewRows(id, added, now);
      }
    }

    method LoadBlocklistDomains() returns (r: set<string>)
      ensures r == EnabledDomains(lists, domains)
    {
      var enabled := EnabledIds(lists);
      if enabled == {} {
        return {};
      }
      return set k | k in domains.Keys && k.0 in enabled :: k.1;
    }

    // `find_blocked_domains`: the non-empty candidates listed verbatim.
    method FindBlockedDomains(candidates: seq<string>, chunk: nat) returns (matched: set<string>)
      requires chunk > 0
      ensures matched == (set c | c in candidates && c != "") * EnabledDomains(lists, domains)
    {
      var unique := set c | c in candidates && c != "";
      matched := {};
      if unique == {} {
        return;
      }
      var enabled := EnabledIds(lists);
      if enabled == {} {
        return;
      }
      var ordered := ListOf(unique);
      ghost var loaded := EnabledDomains(lists, domains);
      var start := 0;
      while start < |ordered|
        invariant 0 <= start
        invariant forall d :: d in matched <==> d in ordered[..Min(start, |ordered|)] && d in loaded
        decreases |ordered| - start
      {
        var stop := Min(start + chunk, |ordered|);
        var part := ordered[start..stop];
        assert ordered[..stop] == ordered[..start] + part;
        matched := matched + set k | k in domains.Keys && k.0 in enabled && k.1 in part :: k.1;
        start := start + chunk;
      }
      assert ordered[..|ordered|] == ordered;
    }

    // `annotate_blocked`: marks each row in place.
    method AnnotateBlocked(rows: array<Annotated>, chunk: nat)
      requires chunk > 0
      modifies rows
      ensures forall i | 0 <= i < rows.Length :: rows[i].domain == old(rows[i].domain)
      ensures forall i | 0 <= i < rows.Length ::
                rows[i].blocked == Some(IsBlocked(EnabledDomains(lists, domains), rows[i].domain))
    {
      ghost var page := rows[..];
      var candidates := PageSuffixes(rows[..]);
      var matched := FindBlockedDomains(candidates, chunk);
      for i := 0 to rows.Length
        invariant forall j | 0 <= j < rows.Length :: rows[j].domain == old(rows[j].domain)
        invariant forall j | 0 <= j < i ::
                    rows[j].blocked == Some(IsBlocked(EnabledDomains(lists, domains), rows[j].domain))
      {
        PagePrepared(page, i);
        PageLookupAgrees(candidates, EnabledDomains(lists, domains), rows[i].domain);
        rows[i] := rows[i].(blocked := Some(IsBlocked(matched, rows[i].domain)));
      }
    }

    method BlocklistNames(ids: set<nat>) returns (names: map<nat, string>)
      ensures names == map id | id in ids && id in lists :: lists[id].name
    {
      return map id | id in ids && id in lists :: lists[id].name;
    }

    // `find_domain_sources`
    method FindDomainSources(candidates: seq<string>, chunk: nat) returns (sources: map<string, seq<Source>>)
      requires chunk > 0
      ensures forall c :: c in sources <==> c in candidates && BlockingRows(lists, domains, c) != {}
      ensures forall c | c in sources :: SourcesExact(sources[c], lists, BlockingRows(lists, domains, c))
    {
      var suffixCandidates := SuffixIndex(candidates);
      var matches := MatchingRows(suffixCandidates.Keys, chunk);
      var names := BlocklistNames(set m | m in matches :: m.0);
      var p := Progress(map[], map[]);
      for k := 0 to |matches|
        invariant Tracks(p, lists, suffixCandidates, matches[..k])
      {
        var m := matches[k];
        assert m in matches;
        assert matches[..k + 1] == matches[..k] + [m];
        var blocked := if m.1 in suffixCandidates then suffixCandidates[m.1] else {};
        var p1 := AddSource(p, lists, names, m, blocked);
        TracksOneMore(p, p1, lists, suffixCandidates, matches[..k], m);
        p := p1;
      }
      assert matches[..|matches|] == matches;
      assert forall c :: SeenRows(suffixCandidates, matches, c)
                      == if c in candidates then BlockingRows(lists, domains, c) else {};
      return p.sources;
    }

    method MatchingRows(suffixes: set<string>, chunk: nat) returns (matches: seq<(nat, string)>)
      requires chunk > 0
      ensures forall m :: m in matches <==> m in domains && m.0 in EnabledIds(lists) && m.1 in suffixes
    {
      matches := [];
      var ordered := ListOf(suffixes);
      var enabled := EnabledIds(lists);
      var start := 0;
      while start < |ordered|
        invariant 0 <= start
        invariant forall m :: m in matches
                         <==> m in domains && m.0 in enabled && m.1 in ordered[..Min(start, |ordered|)]
        decreases |ordered| - start
      {
        var stop := Min(start + chunk, |ordered|);
        var part := ordered[start..stop];
        assert ordered[..stop] == ordered[..start] + part;
        var rows := ListOf(set k | k in domains.Keys && k.0 in enabled && k.1 in part);
        matches := matches + rows;
        start := start + chunk;
      }
      assert ordered[..|ordered|] == ordered;
    }

    method RecordSuccess(id: nat, count: nat, format: string, now: int)
      modifies this`lists
      ensures lists == if id !in old(lists) then old(lists) else
                old(lists)[id := old(lists)[id].(domainCount := count, format := Some(format),
                             lastStatus := Some("ok: " + Decimal(count) + " domains"), lastDownloaded := Some(now))]
    {
      if id in lists {
        lists := lists[id := lists[id].(domainCount := count, format := Some(format),
                       lastStatus := Some("ok: " + Decimal(count) + " domains"), lastDownloaded := Some(now))];
      }
    }

    method RecordFailure(id: nat, message: string, now: int)
      modifies this`lists
      ensures lists == if id !in old(lists) then old(lists) else
                old(lists)[id := old(lists)[id].(lastStatus := Some(Truncate("error: " + message, 255)),
                                                 lastDownloaded := Some(now))]
    {
      if id in lists {
        lists := lists[id := lists[id].(lastStatus := Some(Truncate("error: " + message, 255)),
                                        lastDownloaded := Some(now))];
      }
    }

    // `refresh_blocklist`: `download` is the fetched text, None a failed fetch.
    method RefreshBlocklist(ip6: Ip6Text, id: nat, download: Option<string>, message: string, now: int, chunk: nat)
      returns (r: RefreshResult)
      requires chunk > 0
      modifies this`lists, this`domains
      ensures r.NotFound? <==> id !in old(lists)
      ensures r.DownloadFailed? <==> id in old(lists) && download.None?
      // A failed download or an unknown list changes no stored domain.
      ensures !r.Refreshed? ==> domains == old(domains)
      ensures r.NotFound? ==> lists == old(lists)
      ensures r.Refreshed? ==>
                && domains == Replaced(old(domains), id, StoredDomains(ip6, download.value, overrides), now)
                && Contents(domains, id) == StoredDomains(ip6, download.value, overrides)
                && id in lists && r.row == lists[id]
                && r.row == DownloadedRow(ip6, old(lists)[id], download.value, overrides, now)
      ensures r.DownloadFailed? ==>
                id in lists &&
                lists[id] == old(lists)[id].(lastStatus := Some(Truncate("error: " + message, 255)),
                                             lastDownloaded := Some(now))
      // No other list's row changes, and a list's name, address and switch never do.
      ensures lists.Keys == old(lists).Keys
      ensures forall i | i in lists && i != id :: lists[i] == old(lists)[i]
      ensures id in lists ==> lists[id].name == old(lists)[id].name && lists[id].url == old(lists)[id].url
                              && lists[id].enabled == old(lists)[id].enabled
    {
      if id !in lists {
        return NotFound;
      }
      if download.None? {
        RecordFailure(id, message, now);
        return DownloadFailed;
      }
      StoreDownload(ip6, id, download.value, now, chunk);
      ReplacedContents(old(domains), id, StoredDomains(ip6, download.value, overrides), now);
      return Refreshed(lists[id]);
    }

    // What follows a successful download.
    method StoreDownload(ip6: Ip6Text, id: nat, text: string, now: int, chunk: nat)
      requires id in lists && chunk > 0
      modifies this`lists, this`domains
      ensures domains == Replaced(old(domains), id, StoredDomains(ip6, text, overrides), now)
      ensures lists == old(lists)[id := DownloadedRow(ip6, old(lists)[id], text, overrides, now)]
    {
      var parsed := BlocklistParser.ParseBlocklist(ip6, text);
      var stored := ApplyOverrides(parsed, overrides);
      StoredCount(ip6, text, overrides);
      ReplaceDomains(id, stored, now, chunk);
      var format := BlocklistParser.DetectFormat(ip6, text);
      RecordSuccess(id, |stored|, format, now);
    }
  }

  function Truncate(s: string, n: nat): (r: string)
    ensures r <= s && |r| == Min(|s|, n)
  {
    if |s| <= n then s else s[..n]
  }

  lemma StoredCount(ip6: Ip6Text, text: string, overrides: set<string>)
    ensures var stored := ApplyOverrides(BlocklistParser.ParseLines(ip6, SplitLines(text)), overrides);
            (set d | d in stored) == StoredDomains(ip6, text, overrides)
            && |stored| == |StoredDomains(ip6, text, overrides)|
  {
    var parsed := BlocklistParser.ParseLines(ip6, SplitLines(text));
    BlocklistParser.ParsedDomains(ip6, SplitLines(text));
    OverridesKeepDistinct(parsed, overrides);
    DistinctCount(ApplyOverrides(parsed, overrides));
  }

  // The sources listed so far, and the rows already listed for each name.
  datatype Progress = Progress(sources: map<string, seq<Source>>, seen: map<string, set<(nat, string)>>)

  function SeenFor(p: Progress, c: string): set<(nat, string)> {
    if c in p.seen then p.seen[c] else {}
  }

  function SourcesFor(p: Progress, c: string): seq<Source> {
    if c in p.sources then p.sources[c] else []
  }

  ghost predicate Sound(p: Progress, lists: map<nat, ListRow>) {
    && p.sources.Keys == p.seen.Keys
    && (forall c | c in p.seen :: p.seen[c] != {})
    && forall c :: SourcesExact(SourcesFor(p, c), lists, SeenFor(p, c))
  }

  function Recorded(p: Progress, c: string, m: (nat, string), source: Source): Progress {
    if m in SeenFor(p, c) then p
    else Progress(p.sources[c := SourcesFor(p, c) + [source]], p.seen[c := SeenFor(p, c) + {m}])
  }

  lemma RecordedSound(p: Progress, lists: map<nat, ListRow>, c: string, m: (nat, string), source: Source)
    requires Sound(p, lists)
    requires source == Source(m.0, if m.0 in lists then Some(lists[m.0].name) else None, m.1)
    ensures Sound(Recorded(p, c, m, source), lists)
    ensures forall x :: SeenFor(Recorded(p, c, m, source), x) == SeenFor(p, x) + if x == c then {m} else {}
  {
    var r := Recorded(p, c, m, source);
    if m !in SeenFor(p, c) {
      SourcesExtended(SourcesFor(p, c), lists, SeenFor(p, c), m, source);
      assert forall x | x != c :: SourcesFor(r, x) == SourcesFor(p, x) && SeenFor(r, x) == SeenFor(p, x);
    }
  }

  // What p0 had seen, and row m for the given names.
  ghost predicate SeenWith(p: Progress, p0: Progress, names: set<string>, m: (nat, string)) {
    forall c :: SeenFor(p, c) == SeenFor(p0, c) + if c in names then {m} else {}
  }

  lemma SeenWithOneMore(p1: Progress, p: Progress, p0: Progress, names: set<string>, c: string, m: (nat, string))
    requires SeenWith(p, p0, names, m)
    requires forall x :: SeenFor(p1, x) == SeenFor(p, x) + if x == c then {m} else {}
    ensures SeenWith(p1, p0, names + {c}, m)
  {
  }

  // Records row m as a source of each of the given names, once per name.
  method AddSource(p0: Progress, lists: map<nat, ListRow>, names: map<nat, string>, m: (nat, string),
                   blocked: set<string>)
    returns (p: Progress)
    requires Sound(p0, lists)
    requires m.0 in lists && m.0 in names && names[m.0] == lists[m.0].name
    ensures Sound(p, lists)
    ensures SeenWith(p, p0, blocked, m)
  {
    p := p0;
    var rest := blocked;
    ghost var done: set<string> := {};
    while rest != {}
      invariant done + rest == blocked
      invariant Sound(p, lists) && SeenWith(p, p0, done, m)
      decreases rest
    {
      var candidate :| candidate in rest;
      rest := rest - {candidate};
      var source := Source(m.0, if m.0 in names then Some(names[m.0]) else None, m.1);
      RecordedSound(p, lists, candidate, m, source);
      SeenWithOneMore(Recorded(p, candidate, m, source), p, p0, done, candidate, m);
      p := Recorded(p, candidate, m, source);
      done := done + {candidate};
    }
    assert done == blocked;
  }

  ghost predicate Tracks(p: Progress, lists: map<nat, ListRow>, index: map<string, set<string>>,
                         matches: seq<(nat, string)>) {
    Sound(p, lists) && forall c :: SeenFor(p, c) == SeenRows(index, matches, c)
  }

  lemma TracksOneMore(p: Progress, p1: Progress, lists: map<nat, ListRow>, index: map<string, set<string>>,
                      matches: seq<(nat, string)>, m: (nat, string))
    requires Tracks(p, lists, index, matches) && Sound(p1, lists)
    requires SeenWith(p1, p, if m.1 in index then index[m.1] else {}, m)
    ensures Tracks(p1, lists, index, matches + [m])
  {
    SeenOneMore(index, matches, m);
  }

  predicate Indexed(index: map<string, set<string>>, s: string, c: string) {
    s in index && c in index[s]
  }

  // `index.setdefault(suffix, set()).add(candidate)`
  function WithCandidate(index: map<string, set<string>>, suffix: string, candidate: string): map<string, set<string>> {
    index[suffix := (if suffix in index then index[suffix] else {}) + {candidate}]
  }

  lemma IndexOneMore(index: map<string, set<string>>, suffix: string, candidate: string)
    ensures forall s, c :: Indexed(WithCandidate(index, suffix, candidate), s, c)
                      <==> Indexed(index, s, c) || (s == suffix && c == candidate)
  {
  }

  method AddSuffixes(index0: map<string, set<string>>, candidate: string) returns (index: map<string, set<string>>)
    ensures forall s, c :: Indexed(index, s, c)
                      <==> Indexed(index0, s, c) || (c == candidate && s in DomainSuffixes(candidate))
  {
    index := index0;
    var suffixes := DomainSuffixes(candidate);
    for j := 0 to |suffixes|
      invariant forall s, c :: Indexed(index, s, c)
                          <==> Indexed(index0, s, c) || (c == candidate && s in suffixes[..j])
    {
      var suffix := suffixes[j];
      assert suffixes[..j + 1] == suffixes[..j] + [suffix];
      IndexOneMore(index, suffix, candidate);
      index := WithCandidate(index, suffix, candidate);
    }
    assert suffixes[..|suffixes|] == suffixes;
  }

  // Which candidates each suffix would block.
  method SuffixIndex(candidates: seq<string>) returns (index: map<string, set<string>>)
    ensures forall s, c :: Indexed(index, s, c) <==> c in candidates && s in DomainSuffixes(c)
  {
    index := map[];
    for i := 0 to |candidates|
      invariant forall s, c :: Indexed(index, s, c) <==> c in candidates[..i] && s in DomainSuffixes(c)
    {
      assert candidates[..i + 1] == candidates[..i] + [candidates[i]];
      index := AddSuffixes(index, candidates[i]);
    }
    assert candidates[..|candidates|] == candidates;
  }

  // The rows seen so far that a candidate's suffixes match.
  ghost function SeenRows(index: map<string, set<string>>, matches: seq<(nat, string)>, c: string): set<(nat, string)> {
    set m | m in matches && Indexed(index, m.1, c)
  }

  lemma SeenOneMore(index: map<string, set<string>>, matches: seq<(nat, string)>, m: (nat, string))
    ensures forall c :: SeenRows(index, matches + [m], c)
                     == SeenRows(index, matches, c) + if Indexed(index, m.1, c) then {m} else {}
  {
  }

  // One entry for each row, none twice, carrying its list's name.
  ghost predicate SourcesExact(listed: seq<Source>, lists: map<nat, ListRow>, rows: set<(nat, string)>) {
    && (forall s | s in listed :: (s.blocklistId, s.matched) in rows
          && s.blocklistName == if s.blocklistId in lists then Some(lists[s.blocklistId].name) else None)
    && (forall m | m in rows :: exists s | s in listed :: (s.blocklistId, s.matched) == m)
    && (forall i, j | 0 <= i < j < |listed| ::
          (listed[i].blocklistId, listed[i].matched) != (listed[j].blocklistId, listed[j].matched))
  }

  lemma SourcesExtended(listed: seq<Source>, lists: map<nat, ListRow>, rows: set<(nat, string)>,
                        m: (nat, string), source: Source)
    requires SourcesExact(listed, lists, rows) && m !in rows
    requires source == Source(m.0, if m.0 in lists then Some(lists[m.0].name) else None, m.1)
    ensures SourcesExact(listed + [source], lists, rows + {m})
  {
    var r := listed + [source];
    forall x | x in rows + {m}
      ensures exists s | s in r :: (s.blocklistId, s.matched) == x
    {
      if x in rows {
        var s :| s in listed && (s.blocklistId, s.matched) == x;
        assert s in r;
      } else {
        assert source in r;
      }
    }
    forall i | 0 <= i < |listed|
      ensures (listed[i].blocklistId, listed[i].matched) in rows
    {
      assert listed[i] in listed;
    }
  }

  lemma WithoutMoreNames(t: DomainTable, id: nat, names: seq<string>, more: seq<string>)
    ensures WithoutNames(WithoutNames(t, id, names), id, more) == WithoutNames(t, id, names + more)
  {
  }

  // Deleting what is gone and inserting what is new replaces the contents and keeps
  // the time of every domain that stays.
  lemma DiffIsReplacement(t: DomainTable, id: nat, desired: set<string>, removed: seq<string>, added: seq<string>,
                          now: int)
    requires forall d :: d in removed <==> d in Contents(t, id) - desired
    requires forall d :: d in added <==> d in desired - Contents(t, id)
    ensures WithoutNames(t, id, removed) + NewRows(id, added, now) == Replaced(t, id, desired, now)
    ensures added == [] ==> WithoutNames(t, id, removed) == Replaced(t, id, desired, now)
  {
    RowsOfList(t, id);
    var u, r := WithoutNames(t, id, removed) + NewRows(id, added, now), Replaced(t, id, desired, now);
    forall k: (nat, string)
      ensures k in u <==> k in r
    {
      assert k == (k.0, k.1);
      assert k in NewRows(id, added, now) <==> k.0 == id && k.1 in added;
    }
    if added == [] {
      assert NewRows(id, added, now) == map[];
    }
  }

  lemma RowsOfList(t: DomainTable, id: nat)
    ensures forall d :: d in Contents(t, id) <==> (id, d) in t
  {
    forall d | (id, d) in t
      ensures d in Contents(t, id)
    {
      assert (id, d) in t.Keys;
    }
  }

  lemma ReplacedContents(t: DomainTable, id: nat, desired: set<string>, now: int)
    ensures Contents(Replaced(t, id, desired, now), id) == desired
    ensures forall k: (nat, string) | k.0 != id :: k in Replaced(t, id, desired, now) <==> k in t
  {
    RowsOfList(Replaced(t, id, desired, now), id);
  }

  lemma {:induction false} OverridesKeepDistinct(domains: seq<string>, overrides: set<string>)
    requires Distinct(domains)
    ensures Distinct(ApplyOverrides(domains, overrides))
  {
    if domains == [] {
    } else {
      OverridesKeepDistinct(domains[1..], overrides);
      assert domains[0] !in domains[1..];
    }
  }

  lemma {:induction false} DistinctCount(domains: seq<string>)
    requires Distinct(domains)
    ensures |set d | d in domains| == |domains|
  {
    if domains == [] {
    } else {
      var init, last := domains[..|domains| - 1], domains[|domains| - 1];
      DistinctCount(init);
      assert (set d | d in domains) == (set d | d in init) + {last};
      assert last !in (set d | d in init);
    }
  }

  // The lookup covers all suffixes of the name.
  ghost predicate Prepared(candidates: seq<string>, name: string) {
    forall s | s in DomainSuffixes(name) :: s in candidates
  }

  // `[suffix for row in rows for suffix in domain_suffixes(row["domain"])]`
  function PageSuffixes(rows: seq<Annotated>): seq<string> {
    if rows == [] then [] else PageSuffixes(rows[..|rows| - 1]) + DomainSuffixes(rows[|rows| - 1].domain)
  }

  lemma {:induction false} PagePrepared(rows: seq<Annotated>, i: nat)
    requires i < |rows|
    ensures Prepared(PageSuffixes(rows), rows[i].domain)
  {
    if i < |rows| - 1 {
      PagePrepared(rows[..|rows| - 1], i);
    }
  }

  // Looking up only a page's suffixes gives the verdict of the fully loaded set.
  lemma PageLookupAgrees(candidates: seq<string>, loaded: set<string>, name: string)
    requires Prepared(candidates, name)
    ensures IsBlocked((set c | c in candidates && c != "") * loaded, name) <==> IsBlocked(loaded, name)
  {
    SuffixesExact(name, "");
    NormalizeFixpoint(name);
  }

  // A name has a blocking row exactly when the resolver would block it.
  lemma SourcesIffBlocked(lists: map<nat, ListRow>, t: DomainTable, name: string)
    ensures BlockingRows(lists, t, name) != {} <==> IsBlocked(EnabledDomains(lists, t), name)
  {
    if m :| m in BlockingRows(lists, t, name) {
      assert m.1 in EnabledDomains(lists, t);
    }
    if s :| s in DomainSuffixes(name) && s in EnabledDomains(lists, t) {
      var k :| k in t.Keys && k.0 in EnabledIds(lists) && k.1 == s;
      assert k in BlockingRows(lists, t, name);
    }
  }

  // The resolver's set holds exactly the domains some enabled list stores, and none of a
  // list that is switched off or deleted.
  lemma EnabledExact(lists: map<nat, ListRow>, t: DomainTable, d: string)
    ensures d in EnabledDomains(lists, t) <==> exists id | id in lists && lists[id].enabled :: (id, d) in t
  {
    if d in EnabledDomains(lists, t) {
      var k :| k in t.Keys && k.0 in EnabledIds(lists) && k.1 == d;
      assert (k.0, d) in t;
    }
    if id :| id in lists && lists[id].enabled && (id, d) in t {
      assert (id, d) in t.Keys;
    }
  }

  // ----- History of refreshes -----

  // One attempt on one list: the domains it stored, or None when the download failed.
  datatype Attempt = Attempt(id: nat, stored: Option<set<string>>, at: int)

  function Replay(attempts: seq<Attempt>): DomainTable {
    if attempts == [] then map[] else
      var t, a := Replay(attempts[..|attempts| - 1]), attempts[|attempts| - 1];
      match a.stored
      case Some(desired) => Replaced(t, a.id, desired, a.at)
      case None => t
  }

  // Attempt i is a successful refresh of the list.
  predicate Succeeds(attempts: seq<Attempt>, id: nat, i: int) {
    0 <= i < |attempts| && attempts[i].id == id && attempts[i].stored.Some?
  }

  // Refresh i stored the domain, every later refresh of the list kept it, and the one
  // before it, if any, did not have it.
  ghost predicate BeginsPresence(attempts: seq<Attempt>, id: nat, d: string, i: int) {
    && Succeeds(attempts, id, i) && d in attempts[i].stored.value
    && (forall j | i < j && Succeeds(attempts, id, j) :: d in attempts[j].stored.value)
    && (forall p | p < i && Succeeds(attempts, id, p) && (forall q | p < q < i :: !Succeeds(attempts, id, q)) ::
          d !in attempts[p].stored.value)
  }

  // The refresh at which the domain's current presence began.
  ghost function Began(attempts: seq<Attempt>, id: nat, d: string): Option<int> {
    if attempts == [] then None else
      var n := |attempts| - 1;
      var before := Began(attempts[..n], id, d);
      if !Succeeds(attempts, id, n) then before
      else if d !in attempts[n].stored.value then None
      else if before.Some? then before else Some(n)
  }

  lemma {:induction false} ReplayFollowsBegan(attempts: seq<Attempt>, id: nat, d: string)
    ensures (id, d) in Replay(attempts) <==> Began(attempts, id, d).Some?
    ensures var b := Began(attempts, id, d);
            b.Some? ==> 0 <= b.value < |attempts| && Replay(attempts)[(id, d)] == attempts[b.value].at
  {
    if attempts == [] {
    } else {
      ReplayFollowsBegan(attempts[..|attempts| - 1], id, d);
    }
  }

  lemma SucceedsEarlier(init: seq<Attempt>, a: Attempt, id: nat)
    ensures forall i | i < |init| :: Succeeds(init + [a], id, i) <==> Succeeds(init, id, i)
    ensures forall i | i < |init| && Succeeds(init, id, i) :: (init + [a])[i] == init[i]
  {
  }

  lemma {:induction false} NotBegan(attempts: seq<Attempt>, id: nat, d: string, p: int)
    requires Succeeds(attempts, id, p) && forall q | p < q :: !Succeeds(attempts, id, q)
    ensures Began(attempts, id, d).Some? <==> d in attempts[p].stored.value
  {
    var n := |attempts| - 1;
    if p < n {
      SucceedsEarlier(attempts[..n], attempts[n], id);
      assert attempts == attempts[..n] + [attempts[n]];
      NotBegan(attempts[..n], id, d, p);
    }
  }

  lemma {:induction false} BeganBegins(attempts: seq<Attempt>, id: nat, d: string)
    requires Began(attempts, id, d).Some?
    ensures BeginsPresence(attempts, id, d, Began(attempts, id, d).value)
  {
    var n := |attempts| - 1;
    var init := attempts[..n];
    SucceedsEarlier(init, attempts[n], id);
    assert attempts == init + [attempts[n]];
    if Began(init, id, d).Some? {
      BeganBegins(init, id, d);
    } else {
      forall p | p < n && Succeeds(attempts, id, p) && (forall q | p < q < n :: !Succeeds(attempts, id, q))
        ensures d !in attempts[p].stored.value
      {
        NotBegan(init, id, d, p);
      }
    }
  }

  // The last success in a list of attempts that has one.
  lemma LastSuccess(attempts: seq<Attempt>, id: nat, b: int, limit: int) returns (p: int)
    requires Succeeds(attempts, id, b) && b < limit <= |attempts|
    ensures b <= p < limit && Succeeds(attempts, id, p)
    ensures forall q | p < q < limit :: !Succeeds(attempts, id, q)
  {
    p := limit - 1;
    while !Succeeds(attempts, id, p)
      invariant b <= p < limit
      invariant forall q | p < q < limit :: !Succeeds(attempts, id, q)
      decreases p - b
    {
      p := p - 1;
    }
  }

  lemma {:induction false} PresenceBeginsOnce(attempts: seq<Attempt>, id: nat, d: string, i: int, j: int)
    ensures BeginsPresence(attempts, id, d, i) && BeginsPresence(attempts, id, d, j) ==> i == j
  {
    if BeginsPresence(attempts, id, d, i) && i < j {
      NoLaterBegin(attempts, id, d, i, j);
    } else if BeginsPresence(attempts, id, d, j) && j < i {
      NoLaterBegin(attempts, id, d, j, i);
    }
  }

  // The last success before a later refresh still has the domain.
  lemma NoLaterBegin(attempts: seq<Attempt>, id: nat, d: string, i: int, j: int)
    requires BeginsPresence(attempts, id, d, i) && i < j
    ensures !BeginsPresence(attempts, id, d, j)
  {
    if Succeeds(attempts, id, j) {
      var p := LastSuccess(attempts, id, i, j);
      assert Succeeds(attempts, id, p) && d in attempts[p].stored.value;
    }
  }

  // After any sequence of refreshes of any lists, failed ones included, a domain is
  // stored exactly when an unbroken presence reaches the end of the sequence, and its
  // first_seen is the time that presence began.
  lemma {:induction false} FirstSeenHistory(attempts: seq<Attempt>, id: nat, d: string)
    ensures (id, d) in Replay(attempts) <==> exists i :: BeginsPresence(attempts, id, d, i)
    ensures forall i | BeginsPresence(attempts, id, d, i) ::
              (id, d) in Replay(attempts) && Replay(attempts)[(id, d)] == attempts[i].at
  {
    ReplayFollowsBegan(attempts, id, d);
    if Began(attempts, id, d).Some? {
      BeganBegins(attempts, id, d);
    }
    forall i | BeginsPresence(attempts, id, d, i)
      ensures Began(attempts, id, d) == Some(i)
    {
      var p := LastSuccess(attempts, id, i, |attempts|);
      NotBegan(attempts, id, d, p);
      PresenceBeginsOnce(attempts, id, d, i, Began(attempts, id, d).value);
    }
  }

  // The stored set of a list is what its last successful refresh stored.
  lemma {:induction false} StoredIsLastSuccess(attempts: seq<Attempt>, id: nat, p: int)
    requires Succeeds(attempts, id, p) && forall q | p < q :: !Succeeds(attempts, id, q)
    ensures Contents(Replay(attempts), id) == attempts[p].stored.value
  {
    RowsOfList(Replay(attempts), id);
    forall d
      ensures (id, d) in Replay(attempts) <==> d in attempts[p].stored.value
    {
      ReplayFollowsBegan(attempts, id, d);
      NotBegan(attempts, id, d, p);
    }
  }
}
