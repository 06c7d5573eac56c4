// Blocklist lines as they are written: sinks, comments, modifiers, spaces and line ends.
module BlocklistSyntax {
  import opened Options
  import opened Text
  import opened IpAddress
  import opened DomainNames
  import opened Sequences
  import opened BlocklistParser

  // ----- Lines that denote a domain -----

  // The character a plain or hosts line may not begin with.
  predicate Special(c: char) {
    c == '!' || c == '[' || c == '|' || c == '@' || c == '#'
  }

  // A word that may stand first on a line.
  predicate FirstWord(w: string) {
    w != "" && NoSpace(w) && Lacks(w, '#') && !Special(w[0])
  }

  // What may follow the name: nothing, or more from a space or a comment sign on, as long as
  // it makes no cosmetic rule of the line.
  predicate Tail(t: string) {
    (t == "" || IsSpace(t[0]) || t[0] == '#') && !Cosmetic(t)
  }

  // A comment sign only in the tail makes no cosmetic rule unless the tail is one.
  lemma CosmeticTail(head: string, t: string)
    requires Lacks(head, '#') && !Cosmetic(t)
    ensures !Cosmetic(head + t)
  {
    var line := head + t;
    forall i, j | 0 <= i < j < |line| && line[i] == '#' && line[j] == '#'
      ensures !Separators(line[i + 1..j])
    {
      assert i >= |head| && j >= |head|;
      assert t[i - |head|] == '#' && t[j - |head|] == '#';
      assert line[i + 1..j] == t[i - |head| + 1..j - |head|];
    }
  }

  lemma PrefixNotCosmetic(t: string, n: nat)
    requires n <= |t| && !Cosmetic(t)
    ensures !Cosmetic(t[..n])
  {
    var p := t[..n];
    forall i, j | 0 <= i < j < |p| && p[i] == '#' && p[j] == '#'
      ensures !Separators(p[i + 1..j])
    {
      assert p[i + 1..j] == t[i + 1..j];
    }
  }

  // The part of a tail before its comment.
  function BeforeComment(t: string): string {
    t[..IndexOf(t, '#')]
  }

  lemma {:induction false} CutAfter(head: string, t: string)
    requires Lacks(head, '#')
    ensures (head + t)[..IndexOf(head + t, '#')] == head + BeforeComment(t)
  {
    IndexAfter(head, t);
  }

  lemma {:induction false} IndexAfter(head: string, t: string)
    requires Lacks(head, '#')
    ensures IndexOf(head + t, '#') == |head| + IndexOf(t, '#')
  {
    if head == "" {
      assert head + t == t;
    } else {
      assert (head + t)[1..] == head[1..] + t && (head + t)[0] == head[0];
      IndexAfter(head[1..], t);
    }
  }

  // Stripping a tail leaves a tail.
  lemma StrippedTail(t: string)
    requires Tail(t)
    ensures Tail(StripRight(t)) && Tail(StripRight(BeforeComment(StripRight(t))))
    ensures var u := StripRight(BeforeComment(StripRight(t))); u == "" || IsSpace(u[0])
  {
    var s := StripRight(t);
    assert s == t[..|s|];
    PrefixNotCosmetic(t, |s|);
    var b := BeforeComment(s);
    PrefixNotCosmetic(s, |b|);
    var u := StripRight(b);
    assert u == b[..|u|];
    PrefixNotCosmetic(b, |u|);
  }

  // What the words of an entry say.
  function FromWords(ip6: Ip6Text, words: seq<string>): Option<string> {
    if |words| >= 2 then Checked(ip6, words[1]) else if |words| == 1 then Checked(ip6, words[0]) else None
  }

  lemma OrdinaryLine(ip6: Ip6Text, raw: string, line: string)
    requires Strip(raw) == line && line != "" && !Special(line[0]) && !Cosmetic(line)
    requires Strip(line[..IndexOf(line, '#')]) != ""
    ensures ExtractDomain(ip6, raw) == FromWords(ip6, Words(Strip(line[..IndexOf(line, '#')])))
  {
    OrdinaryStart(line);
  }

  lemma OrdinaryStart(line: string)
    requires line != "" && !Special(line[0])
    ensures !Section(line) && !StartsWith(line, "||") && !StartsWith(line, "@@")
  {
  }

  // What is left of a tail once its spaces and comment are cut off.
  function Cut(t: string): string {
    StripRight(BeforeComment(StripRight(t)))
  }

  // A line beginning with `head`: the words of `head` and what its tail leaves decide.
  lemma {:induction false} EntryWords(ip6: Ip6Text, pad: string, head: string, t: string)
    requires Spaces(pad) && Trim(head) && Lacks(head, '#') && !Special(head[0]) && Tail(t)
    ensures Cut(t) == "" || IsSpace(Cut(t)[0])
    ensures ExtractDomain(ip6, pad + head + t) == FromWords(ip6, Words(head + Cut(t)))
  {
    var s := StripRight(t);
    StripPadded(pad, head, t);
    StrippedTail(t);
    CosmeticTail(head, s);
    EntryCut(head, s);
    HeadFirst(head, s);
    HeadFirst(head, Cut(t));
    OrdinaryLine(ip6, pad + head + t, head + s);
  }

  lemma EntryCut(head: string, s: string)
    requires Trim(head) && Lacks(head, '#')
    ensures Strip((head + s)[..IndexOf(head + s, '#')]) == head + StripRight(BeforeComment(s))
  {
    CutAfter(head, s);
    StripPadded("", head, BeforeComment(s));
    assert "" + head + BeforeComment(s) == head + BeforeComment(s);
  }

  lemma HeadFirst(head: string, s: string)
    requires head != ""
    ensures head + s != "" && (head + s)[0] == head[0]
  {
  }

  lemma {:induction false} SinkThenName(sink: string, gap: string, d: string, u: string)
    requires sink != "" && NoSpace(sink) && gap != "" && Spaces(gap) && d != "" && NoSpace(d)
    requires u == "" || IsSpace(u[0])
    ensures Words(sink + gap + d + u) == [sink] + ([d] + Words(u))
  {
    assert sink + gap + d + u == sink + (gap + (d + u)) && (gap + (d + u))[0] == gap[0];
    WordFirst(sink, gap + (d + u));
    WordsSkip(gap, d + u);
    WordFirst(d, u);
  }

  // A hosts line: any first word, the name, and whatever else after a space or comment sign.
  lemma {:induction false} HostsLine(ip6: Ip6Text, pad: string, sink: string, gap: string, d: string, t: string)
    requires Spaces(pad) && FirstWord(sink) && gap != "" && Spaces(gap) && Tail(t)
    requires d != "" && NoSpace(d) && Lacks(d, '#')
    ensures ExtractDomain(ip6, pad + (sink + gap + d) + t) == Checked(ip6, d)
  {
    HostsHead(sink, gap, d);
    EntryWords(ip6, pad, sink + gap + d, t);
    SinkThenName(sink, gap, d, Cut(t));
  }

  lemma HostsHead(sink: string, gap: string, d: string)
    requires FirstWord(sink) && Spaces(gap) && d != "" && NoSpace(d) && Lacks(d, '#')
    ensures var head := sink + gap + d;
            Trim(head) && Lacks(head, '#') && head[0] == sink[0]
  {
    assert forall i | 0 <= i < |gap| :: IsSpace(gap[i]);
  }

  // A plain line: the name alone, comments aside.
  lemma {:induction false} PlainLine(ip6: Ip6Text, pad: string, d: string, t: string)
    requires Spaces(pad) && FirstWord(d) && Tail(t) && Spaces(BeforeComment(t))
    ensures ExtractDomain(ip6, pad + d + t) == Checked(ip6, d)
  {
    EntryWords(ip6, pad, d, t);
    var s := StripRight(t);
    assert s == t[..|s|];
    PrefixCut(t, |s|);
    StripRightSpaces(BeforeComment(s));
    WordFirst(d, "");
    assert d + "" == d;
  }

  lemma PrefixCut(t: string, n: nat)
    requires n <= |t| && Spaces(BeforeComment(t))
    ensures Spaces(BeforeComment(t[..n]))
  {
    var p := t[..n];
    IndexOfPrefix(t, n);
    assert forall i | 0 <= i < IndexOf(p, '#') :: p[i] == t[i] && IsSpace(BeforeComment(t)[i]);
  }

  lemma IndexOfPrefix(t: string, n: nat)
    requires n <= |t|
    ensures IndexOf(t[..n], '#') <= IndexOf(t, '#')
  {
    if IndexOf(t, '#') < n {
      assert t[..n][IndexOf(t, '#')] == '#';
    }
  }

  // An anchor rule: the name up to the first terminator, whatever modifiers follow.
  lemma {:induction false} AnchorLine(ip6: Ip6Text, pad: string, d: string, t: string)
    requires Spaces(pad) && d != "" && NoSpace(d) && (forall i | 0 <= i < |d| :: !Terminator(d[i]))
    requires t == "" || Terminator(t[0])
    ensures ExtractDomain(ip6, pad + ("||" + d) + t) == Checked(ip6, d)
  {
    var head := "||" + d;
    assert head[0] == '|' && head[1] == '|' && head[|head| - 1] == d[|d| - 1];
    StripPadded(pad, head, t);
    KeptTail(t);
    HostEnds(d, StripRight(t));
    AnchorStripped(ip6, pad + head + t, d, StripRight(t));
  }

  lemma AnchorStripped(ip6: Ip6Text, raw: string, d: string, t: string)
    requires Strip(raw) == "||" + d + t && (d + t)[..HostLength(d + t)] == d
    ensures ExtractDomain(ip6, raw) == Checked(ip6, d)
  {
    var line := "||" + d + t;
    assert line[0] == '|' && line[..2] == "||" && line[2..] == d + t;
    assert !Section(line);
  }

  lemma {:induction false} KeptTail(t: string)
    requires t == "" || Terminator(t[0])
    ensures StripRight(t) == "" || Terminator(StripRight(t)[0])
  {
    if t == "" {
    } else {
      StripRightKeeps(t[..1], t[1..]);
      assert t == t[..1] + t[1..];
    }
  }

  lemma HostEnds(d: string, t: string)
    requires (forall i | 0 <= i < |d| :: !Terminator(d[i])) && (t == "" || Terminator(t[0]))
    ensures (d + t)[..HostLength(d + t)] == d
  {
    var body := d + t;
    assert forall i | 0 <= i < |d| :: body[i] == d[i];
    assert t != "" ==> body[|d|] == t[0];
    assert HostLength(body) == |d|;
  }

  // ----- Lines that denote nothing -----

  // Comments, sections, exceptions and cosmetic rules, and lines of spaces only.
  predicate Noise(s: string) {
    || s == ""
    || (Trim(s) && (s[0] == '!' || s[0] == '#' || (s[0] == '[' && s[|s| - 1] == ']')))
    || (Trim(s) && s[0] == '@' && |s| > 1 && s[1] == '@')
    || (Trim(s) && s[0] != '|' && Cosmetic(s))
  }

  lemma {:induction false} NoiseLine(ip6: Ip6Text, pad: string, s: string, after: string)
    requires Spaces(pad) && Spaces(after) && Noise(s)
    ensures ExtractDomain(ip6, pad + s + after).None?
  {
    if s == "" {
      assert Spaces(pad + after) && pad + s + after == pad + after;
      StripSpaces(pad + after);
    } else {
      StripExact(pad, s, after);
      if s[0] == '#' {
        CommentOnly(ip6, pad + s + after, s);
      } else {
        RejectedLine(ip6, pad + s + after, s);
      }
    }
  }

  lemma CommentOnly(ip6: Ip6Text, raw: string, s: string)
    requires s != "" && s[0] == '#' && Strip(raw) == s
    ensures ExtractDomain(ip6, raw).None?
  {
    assert IndexOf(s, '#') == 0 && s[..0] == "";
    StripSpaces("");
  }

  lemma RejectedLine(ip6: Ip6Text, raw: string, s: string)
    requires Noise(s) && s != "" && s[0] != '#' && Strip(raw) == s
    ensures ExtractDomain(ip6, raw).None?
  {
    Brackets(s);
    if |s| > 1 {
      assert s[0] == '@' && s[1] == '@' ==> s[..2] == "@@";
    }
  }

  lemma Brackets(s: string)
    requires s != ""
    ensures s[0] == '[' && s[|s| - 1] == ']' ==> Section(s)
    ensures s[0] != '|' ==> !StartsWith(s, "||")
  {
    assert s[..1] == [s[0]] && s[|s| - 1..] == [s[|s| - 1]];
  }

  // ----- How lines are classified -----

  // Neither an anchor nor an exception, and no terminator of one inside.
  predicate NotAdblock(line: string) {
    line != "" && line[0] != '|' && line[0] != '@' && '^' !in line
  }

  // Two words or more vote for hosts syntax if the first is an address and the second a
  // domain, and for none otherwise.
  lemma {:induction false} TwoWordsClass(ip6: Ip6Text, sink: string, gap: string, d: string, t: string)
    requires sink != "" && NoSpace(sink) && gap != "" && Spaces(gap) && d != "" && NoSpace(d)
    requires (t == "" || IsSpace(t[0])) && NotAdblock(sink + gap + d + t)
    ensures ClassifyLine(ip6, sink + gap + d + t)
         == if ParseAddress(ip6, sink).Some? && ValidDomain(ip6, NormalizeDomain(d)) then "hosts" else "unknown"
  {
    SinkThenName(sink, gap, d, t);
  }

  // One word votes for domain syntax if it is a domain.
  lemma {:induction false} OneWordClass(ip6: Ip6Text, d: string)
    requires NoSpace(d) && NotAdblock(d)
    ensures ClassifyLine(ip6, d) == if ValidDomain(ip6, NormalizeDomain(d)) then "domain" else "unknown"
  {
    SingleWord(d);
  }

  // Anchors, exceptions and anything with an anchor's end vote for Adblock syntax.
  lemma AdblockClass(ip6: Ip6Text, t: string, u: string)
    ensures ClassifyLine(ip6, "||" + t) == "adblock" && ClassifyLine(ip6, "@@" + t) == "adblock"
    ensures ClassifyLine(ip6, t + "^" + u) == "adblock"
  {
    assert ("||" + t)[..2] == "||" && ("@@" + t)[..2] == "@@";
    assert (t + "^" + u)[|t|] == '^';
  }

  // ----- A whole list in mixed syntax -----

  datatype Entry =
    | PlainEntry(pad: string, domain: string, tail: string)
    | HostsEntry(pad: string, sink: string, gap: string, domain: string, tail: string)
    | AnchorEntry(pad: string, domain: string, tail: string)
    | NoEntry(pad: string, text: string, after: string)

  predicate ValidEntry(ip6: Ip6Text, e: Entry) {
    && Spaces(e.pad) && OneLine(EntryLine(e))
    && match e
       case PlainEntry(_, d, t) => ValidDomain(ip6, d) && Tail(t) && Spaces(BeforeComment(t))
       case HostsEntry(_, sink, gap, d, t) =>
         ValidDomain(ip6, d) && FirstWord(sink) && gap != "" && Spaces(gap) && Tail(t)
       case AnchorEntry(_, d, t) => ValidDomain(ip6, d) && (t == "" || Terminator(t[0]))
       case NoEntry(_, s, after) => Spaces(after) && Noise(s)
  }

  function EntryLine(e: Entry): string {
    match e
    case PlainEntry(pad, d, t) => pad + d + t
    case HostsEntry(pad, sink, gap, d, t) => pad + (sink + gap + d) + t
    case AnchorEntry(pad, d, t) => pad + ("||" + d) + t
    case NoEntry(pad, s, after) => pad + s + after
  }

  function EntryDomain(e: Entry): Option<string> {
    if e.NoEntry? then None else Some(e.domain)
  }

  lemma {:induction false} EntryMeans(ip6: Ip6Text, e: Entry)
    requires ValidEntry(ip6, e)
    ensures ExtractDomain(ip6, EntryLine(e)) == EntryDomain(e)
  {
    if !e.NoEntry? {
      CheckedFixed(ip6, e.domain);
      CleanIsFixed(e.domain);
      CleanWord(e.domain);
    }
    match e
    case PlainEntry(pad, d, t) => PlainLine(ip6, pad, d, t);
    case HostsEntry(pad, sink, gap, d, t) => HostsLine(ip6, pad, sink, gap, d, t);
    case AnchorEntry(pad, d, t) => AnchorLine(ip6, pad, d, t);
    case NoEntry(pad, s, after) => NoiseLine(ip6, pad, s, after);
  }

  lemma CleanWord(d: string)
    requires Clean(d)
    ensures FirstWord(d) && forall i | 0 <= i < |d| :: !Terminator(d[i])
  {
    assert forall i | 0 <= i < |d| :: DomainChar(d[i]);
  }

  function EntryLines(entries: seq<Entry>): seq<string> {
    seq(|entries|, i requires 0 <= i < |entries| => EntryLine(entries[i]))
  }

  function WithDomain(domains: seq<string>, found: Option<string>): seq<string> {
    match found
    case Some(d) => if d in domains then domains else domains + [d]
    case None => domains
  }

  // The domains of the entries, in order, each once.
  function Domains(entries: seq<Entry>): seq<string> {
    if entries == [] then []
    else WithDomain(Domains(entries[..|entries| - 1]), EntryDomain(entries[|entries| - 1]))
  }

  lemma ParsedMore(ip6: Ip6Text, lines: seq<string>, line: string)
    ensures ParseLines(ip6, lines + [line]) == WithDomain(ParseLines(ip6, lines), ExtractDomain(ip6, line))
  {
    var found := Extracted(ip6, lines + [line]);
    assert found[..|lines|] == Extracted(ip6, lines) && found[|lines|] == ExtractDomain(ip6, line);
  }

  lemma LinesMore(entries: seq<Entry>)
    requires entries != []
    ensures EntryLines(entries) == EntryLines(entries[..|entries| - 1]) + [EntryLine(entries[|entries| - 1])]
  {
  }

  lemma {:induction false} ParsedEntries(ip6: Ip6Text, entries: seq<Entry>)
    requires forall e | e in entries :: ValidEntry(ip6, e)
    ensures ParseLines(ip6, EntryLines(entries)) == Domains(entries)
  {
    if entries == [] {
      assert Extracted(ip6, EntryLines([])) == [];
    } else {
      var init, last := entries[..|entries| - 1], entries[|entries| - 1];
      assert last in entries && forall e | e in init :: e in entries;
      ParsedEntries(ip6, init);
      EntryMeans(ip6, last);
      LinesMore(entries);
      ParsedMore(ip6, EntryLines(init), EntryLine(last));
    }
  }

  // A list written in any mix of the syntaxes, with any sinks, comments, modifiers, spaces
  // and noise between, its lines ended either way, reads back as its domains, each at its
  // first occurrence.
  lemma {:induction false} MixedListReadsBack(ip6: Ip6Text, entries: seq<Entry>, ends: seq<string>)
    requires |ends| == |entries| && (forall end | end in ends :: IsEnd(end))
    requires forall e | e in entries :: ValidEntry(ip6, e)
    ensures ParseLines(ip6, SplitLines(Ended(EntryLines(entries), ends))) == Domains(entries)
  {
    var lines := EntryLines(entries);
    forall l | l in lines
      ensures OneLine(l)
    {
      var i :| 0 <= i < |lines| && lines[i] == l;
      assert entries[i] in entries;
    }
    LinesComeBack(lines, ends);
    ParsedEntries(ip6, entries);
  }
}
