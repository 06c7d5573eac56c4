// Reading blocklists in hosts, plain-domain and Adblock syntax.
module BlocklistParser {
  import opened Options
  import opened Text
  import opened IpAddress
  import opened OrderedDict
  import opened DomainNames
  import opened Sequences

  // `_is_valid_domain`
  predicate ValidDomain(ip6: Ip6Text, d: string) {
    ParseAddress(ip6, d).None? && DomainSyntax(d)
  }

  // ----- One line -----

  // `#[@?$%]*#` somewhere in the line.
  predicate Cosmetic(line: string) {
    exists i, j | 0 <= i < j < |line| :: line[i] == '#' && line[j] == '#' && Separators(line[i + 1..j])
  }

  predicate Separators(s: string) {
    forall i | 0 <= i < |s| :: s[i] == '@' || s[i] == '?' || s[i] == '$' || s[i] == '%'
  }

  predicate Terminator(c: char) {
    c == '^' || c == '$' || c == '/' || c == '*'
  }

  // The host of an anchor rule runs to the first terminator.
  function HostLength(body: string): (n: nat)
    ensures n <= |body|
    ensures forall i | 0 <= i < n :: !Terminator(body[i])
    ensures n < |body| ==> Terminator(body[n])
  {
    if body == "" || Terminator(body[0]) then 0 else 1 + HostLength(body[1..])
  }

  function Checked(ip6: Ip6Text, name: string): Option<string> {
    var d := NormalizeDomain(name);
    if ValidDomain(ip6, d) then Some(d) else None
  }

  // `_extract_adblock_domain`
  function AnchorDomain(ip6: Ip6Text, line: string): Option<string>
    requires StartsWith(line, "||")
  {
    Checked(ip6, line[2..][..HostLength(line[2..])])
  }

  predicate Section(line: string) {
    StartsWith(line, "[") && EndsWith(line, "]")
  }

  // Blank, comment and section lines, as format detection skips them.
  predicate Ignored(line: string) {
    line == "" || line[0] == '#' || line[0] == '!' || Section(line)
  }

  // `_extract_domain`
  function ExtractDomain(ip6: Ip6Text, rawLine: string): Option<string> {
    var line := Strip(rawLine);
    if line == "" then None
    else if line[0] == '!' || Section(line) then None
    else if StartsWith(line, "||") then AnchorDomain(ip6, line)
    else if StartsWith(line, "@@") || Cosmetic(line) then None
    else
      var entry := Strip(line[..IndexOf(line, '#')]);
      if entry == "" then None
      else
        var parts := Words(entry);
        if |parts| >= 2 then Checked(ip6, parts[1])
        else if |parts| == 1 then Checked(ip6, parts[0])
        else None
  }

  method FindChar(s: string, c: char) returns (idx: int)
    ensures idx == if IndexOf(s, c) < |s| then IndexOf(s, c) else -1
  {
    var i := IndexOf(s, c);
    return if i < |s| then i else -1;
  }

  method ExtractAdblockDomain(ip6: Ip6Text, line: string) returns (domain: Option<string>)
    requires StartsWith(line, "||")
    ensures domain == AnchorDomain(ip6, line)
  {
    var body := line[2..];
    var cut := |body|;
    var terminators := ['^', '$', '/', '*'];
    for k := 0 to |terminators|
      invariant 0 <= cut <= |body|
      invariant cut < |body| ==> Terminator(body[cut])
      invariant forall t, i | 0 <= t < k && 0 <= i < cut :: body[i] != terminators[t]
    {
      var idx := FindChar(body, terminators[k]);
      if idx != -1 {
        cut := if idx < cut then idx else cut;
      }
    }
    assert forall i | 0 <= i < cut :: body[i] != terminators[0] && body[i] != terminators[1]
                                      && body[i] != terminators[2] && body[i] != terminators[3];
    assert cut == HostLength(body);
    return Checked(ip6, body[..cut]);
  }

  // ----- The whole text -----

  function Extracted(ip6: Ip6Text, lines: seq<string>): seq<Option<string>> {
    seq(|lines|, i requires 0 <= i < |lines| => ExtractDomain(ip6, lines[i]))
  }

  // The domains found, each at its first occurrence.
  function Collect(found: seq<Option<string>>): seq<string> {
    if found == [] then [] else
      var domains := Collect(found[..|found| - 1]);
      match found[|found| - 1]
      case Some(d) => if d in domains then domains else domains + [d]
      case None => domains
  }

  function ParseLines(ip6: Ip6Text, lines: seq<string>): seq<string> {
    Collect(Extracted(ip6, lines))
  }

  method ParseBlocklist(ip6: Ip6Text, text: string) returns (domains: seq<string>)
    ensures domains == ParseLines(ip6, SplitLines(text))
  {
    domains := [];
    var seen: set<string> := {};
    var lines := SplitLines(text);
    ghost var found := Extracted(ip6, lines);
    for i := 0 to |lines|
      invariant domains == Collect(found[..i])
      invariant forall d :: d in seen <==> d in domains
    {
      assert found[..i + 1][..i] == found[..i];
      var domain := ExtractDomain(ip6, lines[i]);
      if domain.None? || domain.value in seen {
        continue;
      }
      seen := seen + {domain.value};
      domains := domains + [domain.value];
    }
    assert found[..|lines|] == found;
  }

  lemma {:induction false} CollectedDomains(found: seq<Option<string>>)
    ensures Distinct(Collect(found))
    ensures forall d :: d in Collect(found) <==> Some(d) in found
  {
    if found == [] {
    } else {
      var init, last := found[..|found| - 1], found[|found| - 1];
      CollectedDomains(init);
      assert forall d :: Some(d) in found <==> Some(d) in init || Some(d) == last;
    }
  }

  // Parsing any text gives distinct, valid, normalized domains, each from some line,
  // and misses no line that denotes one.
  lemma ParsedDomains(ip6: Ip6Text, lines: seq<string>)
    ensures Distinct(ParseLines(ip6, lines))
    ensures forall d | d in ParseLines(ip6, lines) :: ValidDomain(ip6, d) && Normalized(d)
    ensures forall d :: d in ParseLines(ip6, lines)
                   <==> exists l | l in lines :: ExtractDomain(ip6, l) == Some(d)
  {
    var found := Extracted(ip6, lines);
    CollectedDomains(found);
    forall d
      ensures Some(d) in found <==> exists l | l in lines :: ExtractDomain(ip6, l) == Some(d)
    {
      if Some(d) in found {
        var i :| 0 <= i < |found| && found[i] == Some(d);
        assert lines[i] in lines;
      }
      if l :| l in lines && ExtractDomain(ip6, l) == Some(d) {
        var i :| 0 <= i < |lines| && lines[i] == l;
        assert found[i] == Some(d);
      }
    }
    forall d | d in ParseLines(ip6, lines)
      ensures ValidDomain(ip6, d) && Normalized(d)
    {
      var l :| l in lines && ExtractDomain(ip6, l) == Some(d);
      ExtractedValid(ip6, l);
    }
  }

  lemma ExtractedValid(ip6: Ip6Text, rawLine: string)
    ensures forall d | ExtractDomain(ip6, rawLine) == Some(d) :: ValidDomain(ip6, d) && Normalized(d)
  {
    forall d | ExtractDomain(ip6, rawLine) == Some(d)
      ensures ValidDomain(ip6, d) && Normalized(d)
    {
      NameIsClean(d);
      CleanIsFixed(d);
    }
  }

  // ----- Rendering and reading back -----

  datatype Syntax = DomainOnly | Hosts | Adblock

  function RenderLine(syntax: Syntax, d: string): string {
    match syntax
    case DomainOnly => d
    case Hosts => "0.0.0.0 " + d
    case Adblock => "||" + d + "^"
  }

  function RenderLines(syntax: Syntax, domains: seq<string>): seq<string> {
    seq(|domains|, i requires 0 <= i < |domains| => RenderLine(syntax, domains[i]))
  }

  lemma StripFixed(s: string)
    requires s != "" && !IsSpace(s[0]) && !IsSpace(s[|s| - 1])
    ensures Strip(s) == s
  {
  }

  lemma NotCosmetic(line: string)
    requires Lacks(line, '#')
    ensures !Cosmetic(line)
    ensures line[..IndexOf(line, '#')] == line
  {
  }

  lemma HostsWords(d: string)
    requires NoSpace(d) && d != ""
    ensures Words("0.0.0.0 " + d) == ["0.0.0.0", d]
  {
    var line := "0.0.0.0 " + d;
    WordLengthExact("0.0.0.0", " " + d);
    assert "0.0.0.0" + (" " + d) == line;
    assert line[..7] == "0.0.0.0" && line[7..] == " " + d;
    SingleWord(d);
    assert (" " + d)[1..] == d;
    assert ["0.0.0.0"] + [d] == ["0.0.0.0", d];
  }

  lemma LineChars(syntax: Syntax, d: string)
    requires Clean(d)
    ensures var line := RenderLine(syntax, d);
            && line != "" && !IsSpace(line[0]) && !IsSpace(line[|line| - 1])
            && line[0] != '!' && line[0] != '[' && line[0] != '@' && line[0] != '#'
            && forall i | 0 <= i < |line| :: line[i] != '#' && !IsBreak(line[i])
  {
    var line := RenderLine(syntax, d);
    var before := match syntax case DomainOnly => "" case Hosts => "0.0.0.0 " case Adblock => "||";
    var behind := if syntax.Adblock? then "^" else "";
    assert line == before + d + behind;
    forall i | 0 <= i < |line|
      ensures line[i] != '#' && !IsBreak(line[i])
    {
      if |before| <= i < |before| + |d| {
        assert line[i] == d[i - |before|] && DomainChar(d[i - |before|]);
      }
    }
    assert DomainChar(d[0]) && DomainChar(d[|d| - 1]);
  }

  lemma LineShape(syntax: Syntax, d: string)
    requires Clean(d)
    ensures var line := RenderLine(syntax, d);
            Strip(line) == line && OneLine(line) && Lacks(line, '#') && !Ignored(line)
  {
    LineChars(syntax, d);
    StripFixed(RenderLine(syntax, d));
  }

  lemma CheckedFixed(ip6: Ip6Text, d: string)
    requires ValidDomain(ip6, d)
    ensures Clean(d) && Checked(ip6, d) == Some(d)
    ensures d == NormalizeDomain(d)
  {
    NameIsClean(d);
    CleanIsFixed(d);
  }

  // Which word of a rendered line is the candidate name.
  lemma RenderedWords(syntax: Syntax, d: string)
    requires Clean(d)
    ensures syntax.DomainOnly? ==> Words(RenderLine(syntax, d)) == [d]
    ensures syntax.Hosts? ==> Words(RenderLine(syntax, d)) == ["0.0.0.0", d]
    ensures !syntax.Adblock? ==>
              var line := RenderLine(syntax, d); !StartsWith(line, "||") && !StartsWith(line, "@@") && '^' !in line
  {
    CleanIsFixed(d);
    if !syntax.Adblock? {
      RenderedPlain(syntax, d);
    }
    if syntax.DomainOnly? {
      SingleWord(d);
    } else if syntax.Hosts? {
      HostsWords(d);
    }
  }

  lemma RenderedPlain(syntax: Syntax, d: string)
    requires Clean(d) && !syntax.Adblock?
    ensures var line := RenderLine(syntax, d); !StartsWith(line, "||") && !StartsWith(line, "@@") && '^' !in line
  {
    var line := RenderLine(syntax, d);
    assert d[0] != '|' && d[0] != '@' && forall i | 0 <= i < |d| :: DomainChar(d[i]) && d[i] != '^';
    if syntax.Hosts? {
      assert line[0] == '0' && forall i | 8 <= i < |line| :: line[i] == d[i - 8];
      assert forall i | 0 <= i < 8 :: line[i] == "0.0.0.0 "[i] && line[i] != '^';
    }
    assert forall i | 0 <= i < |line| :: line[i] != '^';
  }

  lemma RenderedAnchor(ip6: Ip6Text, d: string)
    requires Clean(d)
    ensures StartsWith("||" + d + "^", "||")
    ensures AnchorDomain(ip6, "||" + d + "^") == Checked(ip6, d)
  {
    var line := "||" + d + "^";
    var body := line[2..];
    assert body == d + "^";
    forall i | 0 <= i < |d|
      ensures !Terminator(body[i])
    {
      assert body[i] == d[i] && DomainChar(d[i]);
    }
    assert body[|d|] == '^';
    assert HostLength(body) == |d|;
    assert body[..|d|] == d;
  }

  lemma ExtractRendered(ip6: Ip6Text, syntax: Syntax, d: string)
    requires Clean(d)
    ensures ExtractDomain(ip6, RenderLine(syntax, d)) == Checked(ip6, d)
  {
    LineShape(syntax, d);
    LineChars(syntax, d);
    RenderedWords(syntax, d);
    NotCosmetic(RenderLine(syntax, d));
    if syntax.Adblock? {
      RenderedAnchor(ip6, d);
    }
  }

  lemma {:induction false} CollectDistinct(found: seq<Option<string>>, domains: seq<string>)
    requires |found| == |domains| && Distinct(domains)
    requires forall i | 0 <= i < |found| :: found[i] == Some(domains[i])
    ensures Collect(found) == domains
  {
    if found == [] {
    } else {
      var n := |found| - 1;
      CollectDistinct(found[..n], domains[..n]);
      assert domains == domains[..n] + [domains[n]];
      assert found[n] == Some(domains[n]);
    }
  }

  lemma ParseRendered(ip6: Ip6Text, syntax: Syntax, domains: seq<string>)
    requires Distinct(domains)
    requires forall d | d in domains :: ValidDomain(ip6, d)
    ensures ParseLines(ip6, RenderLines(syntax, domains)) == domains
  {
    var lines := RenderLines(syntax, domains);
    var found := Extracted(ip6, lines);
    forall i | 0 <= i < |domains|
      ensures found[i] == Some(domains[i])
    {
      assert domains[i] in domains;
      CheckedFixed(ip6, domains[i]);
      ExtractRendered(ip6, syntax, domains[i]);
    }
    CollectDistinct(found, domains);
  }

  // Any list of distinct valid domains, written in any of the three syntaxes, reads
  // back as itself, in order.
  lemma {:induction false} ParseRoundTrip(ip6: Ip6Text, syntax: Syntax, domains: seq<string>)
    requires Distinct(domains)
    requires forall d | d in domains :: ValidDomain(ip6, d)
    ensures ParseLines(ip6, SplitLines(Unlines(RenderLines(syntax, domains)))) == domains
  {
    LinesSurvive(ip6, syntax, domains);
    ParseRendered(ip6, syntax, domains);
  }

  lemma LinesSurvive(ip6: Ip6Text, syntax: Syntax, domains: seq<string>)
    requires forall d | d in domains :: ValidDomain(ip6, d)
    ensures SplitLines(Unlines(RenderLines(syntax, domains))) == RenderLines(syntax, domains)
  {
    var lines := RenderLines(syntax, domains);
    forall l | l in lines
      ensures OneLine(l)
    {
      var i :| 0 <= i < |lines| && lines[i] == l;
      assert domains[i] in domains;
      NameIsClean(domains[i]);
      LineShape(syntax, domains[i]);
    }
    SplitLinesUnlines(lines);
  }

  // ----- Format detection -----

  const FORMAT_HOSTS := "hosts"
  const FORMAT_DOMAIN := "domain"
  const FORMAT_ADBLOCK := "adblock"
  const FORMAT_UNKNOWN := "unknown"
  const DETECT_SAMPLE_LIMIT := 50

  function FormatPriority(fmt: string): nat {
    if fmt == FORMAT_HOSTS || fmt == FORMAT_ADBLOCK then 3
    else if fmt == FORMAT_DOMAIN then 2
    else 0
  }

  // `_classify_line`
  function ClassifyLine(ip6: Ip6Text, line: string): string {
    if StartsWith(line, "||") || StartsWith(line, "@@") || '^' in line then FORMAT_ADBLOCK
    else
      var parts := Words(line);
      if |parts| >= 2 then
        if ParseAddress(ip6, parts[0]).None? then FORMAT_UNKNOWN
        else if ValidDomain(ip6, NormalizeDomain(parts[1])) then FORMAT_HOSTS
        else FORMAT_UNKNOWN
      else if |parts| == 1 && ValidDomain(ip6, NormalizeDomain(parts[0])) then FORMAT_DOMAIN
      else FORMAT_UNKNOWN
  }

  // The classes of the entry lines, up to the sample limit.
  function Sample(ip6: Ip6Text, lines: seq<string>): (classes: seq<string>)
    ensures |classes| <= DETECT_SAMPLE_LIMIT
  {
    if lines == [] then [] else
      var classes := Sample(ip6, lines[..|lines| - 1]);
      var line := Strip(lines[|lines| - 1]);
      if Ignored(line) || |classes| == DETECT_SAMPLE_LIMIT then classes
      else classes + [ClassifyLine(ip6, line)]
  }

  lemma {:induction false} SampleFull(ip6: Ip6Text, lines: seq<string>, n: nat)
    requires n <= |lines| && |Sample(ip6, lines[..n])| == DETECT_SAMPLE_LIMIT
    ensures Sample(ip6, lines) == Sample(ip6, lines[..n])
  {
    if n < |lines| {
      assert lines[..|lines| - 1][..n] == lines[..n];
      SampleFull(ip6, lines[..|lines| - 1], n);
    } else {
      assert lines[..n] == lines;
    }
  }

  function Votes(classes: seq<string>): Dict<nat> {
    if classes == [] then [] else
      Counted(Votes(classes[..|classes| - 1]), classes[|classes| - 1])
  }

  // `votes[fmt] = votes.get(fmt, 0) + 1`
  function Counted(votes: Dict<nat>, fmt: string): Dict<nat> {
    Assign(votes, fmt, (match Find(votes, fmt) case Some(n) => n case None => 0) + 1)
  }

  predicate VoteGreater(a: Item<nat>, b: Item<nat>) {
    a.value > b.value || (a.value == b.value && FormatPriority(a.key) > FormatPriority(b.key))
  }

  // `max(votes, key=...)`: the first item no other one exceeds.
  function MaxVote(votes: Dict<nat>): (best: Item<nat>)
    requires votes != []
    ensures best in votes
    ensures forall x | x in votes :: !VoteGreater(x, best)
  {
    var n := |votes| - 1;
    if n == 0 then votes[0] else
      var best := MaxVote(votes[..n]);
      assert forall x | x in votes :: x in votes[..n] || x == votes[n];
      if VoteGreater(votes[n], best) then votes[n] else best
  }

  function DetectedFormat(classes: seq<string>): string {
    if Votes(classes) == [] then FORMAT_UNKNOWN else MaxVote(Votes(classes)).key
  }

  lemma SampleOneMore(ip6: Ip6Text, lines: seq<string>, i: nat)
    requires i < |lines| && |Sample(ip6, lines[..i])| < DETECT_SAMPLE_LIMIT
    ensures var before, after, line := Sample(ip6, lines[..i]), Sample(ip6, lines[..i + 1]), Strip(lines[i]);
            if Ignored(line) then after == before
            else |after| == |before| + 1 && Votes(after) == Counted(Votes(before), ClassifyLine(ip6, line))
  {
    assert lines[..i + 1][..i] == lines[..i];
    var before, kind := Sample(ip6, lines[..i]), ClassifyLine(ip6, Strip(lines[i]));
    assert (before + [kind])[..|before|] == before;
  }

  // On a tie hosts and Adblock syntax come before plain domains, and those before nothing.
  lemma PriorityOrder()
    ensures FormatPriority("hosts") == FormatPriority("adblock") > FormatPriority("domain") > FormatPriority("unknown")
  {
  }

  // The lines that count towards the sample.
  function EntryCount(lines: seq<string>): nat {
    if lines == [] then 0 else
      EntryCount(lines[..|lines| - 1]) + if Ignored(Strip(lines[|lines| - 1])) then 0 else 1
  }

  // The first fifty of them are sampled.
  lemma {:induction false} SampleSize(ip6: Ip6Text, lines: seq<string>)
    ensures |Sample(ip6, lines)| == if EntryCount(lines) < 50 then EntryCount(lines) else 50
  {
    if lines == [] {
    } else {
      SampleSize(ip6, lines[..|lines| - 1]);
    }
  }

  method DetectFormat(ip6: Ip6Text, text: string) returns (fmt: string)
    ensures fmt == DetectedFormat(Sample(ip6, SplitLines(text)))
  {
    var votes: Dict<nat> := [];
    var sampled := 0;
    var lines := SplitLines(text);
    var i := 0;
    while i < |lines|
      invariant 0 <= i <= |lines|
      invariant sampled == |Sample(ip6, lines[..i])| < DETECT_SAMPLE_LIMIT
      invariant votes == Votes(Sample(ip6, lines[..i]))
    {
      SampleOneMore(ip6, lines, i);
      var line := Strip(lines[i]);
      i := i + 1;
      if Ignored(line) {
        continue;
      }
      var kind := ClassifyLine(ip6, line);
      votes := Counted(votes, kind);
      sampled := sampled + 1;
      if sampled >= DETECT_SAMPLE_LIMIT {
        break;
      }
    }
    if i < |lines| || sampled == DETECT_SAMPLE_LIMIT {
      SampleFull(ip6, lines, i);
    }
    assert lines[..|lines|] == lines;
    if votes == [] {
      return FORMAT_UNKNOWN;
    }
    return MaxVote(votes).key;
  }

  function Count(classes: seq<string>, fmt: string): nat {
    if classes == [] then 0 else
      Count(classes[..|classes| - 1], fmt) + if classes[|classes| - 1] == fmt then 1 else 0
  }

  lemma AssignFind(d: Dict<nat>, key: string, value: nat, k: string)
    requires Unique(d)
    ensures Unique(Assign(d, key, value))
    ensures Find(Assign(d, key, value), k) == if k == key then Some(value) else Find(d, k)
  {
    if Find(d, key).Some? {
      ReplaceUnique(d, key, value, k);
    } else {
      AppendUnique(d, Item(key, value));
      FindAfterAppend(d, Item(key, value), k);
    }
  }

  // What the votes should show for a format.
  function Tally(classes: seq<string>, f: string): Option<nat> {
    if Count(classes, f) == 0 then None else Some(Count(classes, f))
  }

  function OneMore(votes: Option<nat>): Option<nat> {
    match votes
    case Some(n) => Some(n + 1)
    case None => Some(1)
  }

  lemma CountedFind(votes: Dict<nat>, fmt: string, f: string)
    requires Unique(votes)
    ensures Unique(Counted(votes, fmt))
    ensures Find(Counted(votes, fmt), f) == if f == fmt then OneMore(Find(votes, f)) else Find(votes, f)
  {
    var n := (match Find(votes, fmt) case Some(n) => n case None => 0) + 1;
    AssignFind(votes, fmt, n, f);
    assert Counted(votes, fmt) == Assign(votes, fmt, n);
  }

  lemma TallyStep(classes: seq<string>, f: string)
    requires classes != []
    ensures var init, last := classes[..|classes| - 1], classes[|classes| - 1];
            Tally(classes, f) == if f == last then OneMore(Tally(init, f)) else Tally(init, f)
  {
  }

  lemma {:induction false} VotesCount(classes: seq<string>, f: string)
    ensures Unique(Votes(classes))
    ensures Find(Votes(classes), f) == Tally(classes, f)
  {
    if classes == [] {
    } else {
      var init, last := classes[..|classes| - 1], classes[|classes| - 1];
      VotesCount(init, f);
      TallyStep(classes, f);
      CountedFind(Votes(init), last, f);
      assert Votes(classes) == Counted(Votes(init), last);
    }
  }

  // The detected format has the most votes in the sample, a recognised syntax being
  // preferred on a tie, and is unknown when there is nothing to vote.
  lemma {:induction false} DetectedPlurality(classes: seq<string>, f: string)
    requires classes != []
    ensures var best := DetectedFormat(classes);
            && Count(classes, best) > 0
            && Count(classes, f) <= Count(classes, best)
            && (Count(classes, f) == Count(classes, best) ==> FormatPriority(f) <= FormatPriority(best))
  {
    var votes := Votes(classes);
    var last := classes[|classes| - 1];
    VotesCount(classes, f);
    VotesCount(classes, last);
    assert Count(classes, last) > 0;
    assert Find(votes, last).Some?;
    var best := MaxVote(votes);
    VotesCount(classes, best.key);
    FindUnique(votes, best);
    if Count(classes, f) > 0 {
      FindMember(votes, f);
    }
  }

  predicate Uniform(classes: seq<string>, f: string) {
    forall i | 0 <= i < |classes| :: classes[i] == f
  }

  lemma UniformMore(classes: seq<string>, f: string)
    requires Uniform(classes, f)
    ensures Uniform(classes + [f], f)
  {
  }

  lemma {:induction false} CountUniform(classes: seq<string>, f: string, g: string)
    requires Uniform(classes, f)
    ensures g != f ==> Count(classes, g) == 0
  {
    if classes == [] {
    } else {
      CountUniform(classes[..|classes| - 1], f, g);
    }
  }

  function SyntaxName(syntax: Syntax): string {
    match syntax
    case DomainOnly => FORMAT_DOMAIN
    case Hosts => FORMAT_HOSTS
    case Adblock => FORMAT_ADBLOCK
  }

  lemma ZeroAddress(ip6: Ip6Text)
    ensures ParseAddress(ip6, "0.0.0.0").Some?
  {
    ZeroText();
    ParseV4Text("0.0.0.0", V4(0, 0, 0, 0));
  }

  lemma ZeroText()
    ensures TextV4(V4(0, 0, 0, 0)) == "0.0.0.0"
  {
    var zero := Decimal(0);
    assert zero == "0";
    JoinMore("0", ["0"], '.');
    JoinMore("0", ["0", "0"], '.');
    JoinMore("0", ["0", "0", "0"], '.');
    assert "0" + "." + "0.0" == "0.0.0" && "0" + "." + "0.0.0" == "0.0.0.0";
  }

  lemma ClassifyRendered(ip6: Ip6Text, syntax: Syntax, d: string)
    requires ValidDomain(ip6, d)
    ensures var line := Strip(RenderLine(syntax, d));
            !Ignored(line) && ClassifyLine(ip6, line) == SyntaxName(syntax)
  {
    CheckedFixed(ip6, d);
    LineShape(syntax, d);
    RenderedWords(syntax, d);
    ZeroAddress(ip6);
  }

  lemma {:induction false} SampleRendered(ip6: Ip6Text, syntax: Syntax, domains: seq<string>)
    requires forall d | d in domains :: ValidDomain(ip6, d)
    ensures var classes := Sample(ip6, RenderLines(syntax, domains));
            (domains != [] ==> classes != []) && Uniform(classes, SyntaxName(syntax))
  {
    if domains == [] {
    } else {
      var n := |domains| - 1;
      var lines := RenderLines(syntax, domains);
      assert domains[n] in domains;
      assert lines[..n] == RenderLines(syntax, domains[..n]);
      SampleRendered(ip6, syntax, domains[..n]);
      ClassifyRendered(ip6, syntax, domains[n]);
      UniformMore(Sample(ip6, lines[..n]), SyntaxName(syntax));
    }
  }

  // A non-empty rendered list is recognised as the syntax it was written in.
  lemma {:induction false} DetectRendered(ip6: Ip6Text, syntax: Syntax, domains: seq<string>)
    requires domains != [] && forall d | d in domains :: ValidDomain(ip6, d)
    ensures DetectedFormat(Sample(ip6, SplitLines(Unlines(RenderLines(syntax, domains))))) == SyntaxName(syntax)
  {
    LinesSurvive(ip6, syntax, domains);
    SampleRendered(ip6, syntax, domains);
    var classes := Sample(ip6, RenderLines(syntax, domains));
    DetectedPlurality(classes, SyntaxName(syntax));
    CountUniform(classes, SyntaxName(syntax), DetectedFormat(classes));
  }
}
