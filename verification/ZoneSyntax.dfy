// What a line of a zone file stands for, and reading back a file of such lines.
module ZoneSyntax {
  import opened Options
  import opened Text
  import opened IpAddress
  import opened DomainNames
  import opened LocalZones
  import opened Sequences

  // What is asked of the library's IPv6 text: a colon somewhere, and hexadecimal digits,
  // colons and dots only.
  ghost predicate ColonText(ip6: Ip6Text) {
    forall a: V6 :: ':' in ip6.format(a) && forall i | 0 <= i < |ip6.format(a)| :: AddressChar(ip6.format(a)[i])
  }

  predicate AddressChar(c: char) {
    '0' <= c <= '9' || 'a' <= c <= 'f' || c == ':' || c == '.'
  }

  // Text a field may hold: no space at its ends, no comma, comment sign or line break inside.
  predicate FieldText(s: string) {
    Trim(s) && Lacks(s, ',') && Lacks(s, '#') && OneLine(s)
  }

  lemma DecimalField(n: nat)
    ensures FieldText(Decimal(n)) && Lacks(Decimal(n), ':')
  {
    assert forall i | 0 <= i < |Decimal(n)| :: IsDigit(Decimal(n)[i]);
  }

  predicate QuadChar(c: char) {
    IsDigit(c) || c == '.'
  }

  lemma QuadChars(v: V4)
    ensures TextV4(v) != "" && forall i | 0 <= i < |TextV4(v)| :: QuadChar(TextV4(v)[i])
  {
    DottedQuad(v);
    assert forall i | 0 <= i < |Decimal(v.a)| :: IsDigit(Decimal(v.a)[i]);
    assert forall i | 0 <= i < |Decimal(v.b)| :: IsDigit(Decimal(v.b)[i]);
    assert forall i | 0 <= i < |Decimal(v.c)| :: IsDigit(Decimal(v.c)[i]);
    assert forall i | 0 <= i < |Decimal(v.d)| :: IsDigit(Decimal(v.d)[i]);
  }

  lemma NotQuad(s: string)
    requires ':' in s
    ensures ParseV4(s).None?
  {
    if ParseV4(s).Some? {
      ParseV4Text(s, ParseV4(s).value);
      QuadChars(ParseV4(s).value);
    }
  }

  // An address is read back from its text, which is fit for a field.
  lemma AddressField(ip6: Ip6Text, a: Address)
    requires Faithful(ip6) && ColonText(ip6)
    ensures ParseAddress(ip6, FormatAddress(ip6, a)) == Some(a)
    ensures FieldText(FormatAddress(ip6, a))
  {
    match a
    case A4(v) =>
      ParseV4Text(TextV4(v), v);
      QuadChars(v);
    case A6(v) =>
      var s := ip6.format(v);
      NotQuad(s);
      assert forall i | 0 <= i < |s| :: AddressChar(s[i]);
  }

  // ----- Fields -----

  // A field between spaces.
  datatype Padded = Padded(before: string, text: string, after: string) {
    predicate Valid() {
      Blank(before) && Blank(after) && FieldText(text)
    }

    function Rendered(): string {
      before + text + after
    }
  }

  // Spaces that break no line.
  predicate Blank(s: string) {
    Spaces(s) && OneLine(s)
  }

  lemma RenderedField(p: Padded)
    requires p.Valid()
    ensures Strip(p.Rendered()) == p.text
    ensures Lacks(p.Rendered(), ',') && Lacks(p.Rendered(), '#') && OneLine(p.Rendered())
  {
    StripExact(p.before, p.text, p.after);
    assert forall i | 0 <= i < |p.before| :: IsSpace(p.before[i]);
    assert forall i | 0 <= i < |p.after| :: IsSpace(p.after[i]);
  }

  predicate Comment(s: string) {
    s == "" || (s[0] == '#' && OneLine(s))
  }

  // Two or three fields and perhaps a comment.
  function Line2(a: Padded, b: Padded, comment: string): string {
    a.Rendered() + "," + b.Rendered() + comment
  }

  function Line3(a: Padded, b: Padded, c: Padded, comment: string): string {
    a.Rendered() + "," + b.Rendered() + "," + c.Rendered() + comment
  }

  // Text without a comment sign, and all on one line.
  predicate Quiet(s: string) {
    Lacks(s, '#') && OneLine(s)
  }

  lemma QuietJoin(s: string, t: string)
    requires Quiet(s) && Quiet(t)
    ensures Quiet(s + "," + t)
  {
  }

  lemma Body2(a: Padded, b: Padded)
    requires a.Valid() && b.Valid()
    ensures Quiet(a.Rendered() + "," + b.Rendered())
  {
    RenderedField(a);
    RenderedField(b);
    QuietJoin(a.Rendered(), b.Rendered());
  }

  lemma Body3(a: Padded, b: Padded, c: Padded)
    requires a.Valid() && b.Valid() && c.Valid()
    ensures Quiet(a.Rendered() + "," + b.Rendered() + "," + c.Rendered())
  {
    Body2(a, b);
    RenderedField(c);
    QuietJoin(a.Rendered() + "," + b.Rendered(), c.Rendered());
  }

  lemma CommentCut(body: string, comment: string)
    requires Lacks(body, '#') && Comment(comment)
    ensures (body + comment)[..IndexOf(body + comment, '#')] == body
  {
    if comment == "" {
      IndexOfLacking(body, '#', "");
      assert body + comment == body;
    } else {
      IndexOfLacking(body, '#', comment[1..]);
      assert body + comment == body + ['#'] + comment[1..];
    }
  }

  // Cutting the outer spaces off a line of fields leaves the fields as they were.
  lemma Fields2(a: Padded, b: Padded)
    requires a.Valid() && b.Valid()
    ensures Strip(a.Rendered() + "," + b.Rendered()) == a.text + a.after + "," + (b.before + b.text)
    ensures Fields(a.text + a.after + "," + (b.before + b.text)) == [a.text, b.text]
  {
    OuterSpaces(a, "", b);
    assert a.Rendered() + "," + "" + b.Rendered() == a.Rendered() + "," + b.Rendered();
    assert a.text + a.after + "," + "" + (b.before + b.text) == a.text + a.after + "," + (b.before + b.text);
    InnerFields2(Padded("", a.text, a.after), Padded(b.before, b.text, ""));
    LeftBare(a);
    RightBare(b);
  }

  lemma InnerFields2(a: Padded, b: Padded)
    requires a.Valid() && b.Valid()
    ensures Fields(a.Rendered() + "," + b.Rendered()) == [a.text, b.text]
  {
    RenderedField(a);
    RenderedField(b);
    SplitTwo(a.Rendered(), b.Rendered());
  }

  lemma SplitTwo(s: string, t: string)
    requires Lacks(s, ',') && Lacks(t, ',')
    ensures Split(s + "," + t, ',') == [s, t]
  {
    SplitJoin([s, t], ',');
    assert [s, t] == [s] + [t];
    JoinMore(s, [t], ',');
  }

  lemma SplitThree(s: string, t: string, u: string)
    requires Lacks(s, ',') && Lacks(t, ',') && Lacks(u, ',')
    ensures Split(s + "," + t + "," + u, ',') == [s, t, u]
  {
    SplitJoin([s, t, u], ',');
    JoinThree(s, t, u);
  }

  lemma JoinThree(s: string, t: string, u: string)
    ensures Join([s, t, u], ',') == s + "," + t + "," + u
  {
    assert [s, t, u] == [s] + [t, u] && [t, u] == [t] + [u];
    JoinMore(s, [t, u], ',');
    JoinMore(t, [u], ',');
    Regroup(s + ",", t + ",", u);
  }

  lemma Fields3(a: Padded, b: Padded, c: Padded)
    requires a.Valid() && b.Valid() && c.Valid()
    ensures Strip(a.Rendered() + "," + b.Rendered() + "," + c.Rendered())
         == a.text + a.after + "," + b.Rendered() + "," + (c.before + c.text)
    ensures Fields(a.text + a.after + "," + b.Rendered() + "," + (c.before + c.text)) == [a.text, b.text, c.text]
  {
    OuterSpaces(a, b.Rendered() + ",", c);
    assert a.Rendered() + "," + (b.Rendered() + ",") + c.Rendered()
        == a.Rendered() + "," + b.Rendered() + "," + c.Rendered();
    assert a.text + a.after + "," + (b.Rendered() + ",") + (c.before + c.text)
        == a.text + a.after + "," + b.Rendered() + "," + (c.before + c.text);
    InnerFields(Padded("", a.text, a.after), b, Padded(c.before, c.text, ""));
    LeftBare(a);
    RightBare(c);
  }

  lemma LeftBare(a: Padded)
    ensures Padded("", a.text, a.after).Rendered() == a.text + a.after
  {
  }

  lemma RightBare(c: Padded)
    ensures Padded(c.before, c.text, "").Rendered() == c.before + c.text
  {
  }

  lemma OuterSpaces(a: Padded, middle: string, c: Padded)
    requires a.Valid() && c.Valid()
    ensures Strip(a.Rendered() + "," + middle + c.Rendered()) == a.text + a.after + "," + middle + (c.before + c.text)
  {
    var core := a.text + a.after + "," + middle + (c.before + c.text);
    assert a.Rendered() + "," + middle + c.Rendered() == a.before + core + c.after;
    assert core[0] == a.text[0] && core[|core| - 1] == c.text[|c.text| - 1];
    StripExact(a.before, core, c.after);
  }

  lemma InnerFields(a: Padded, b: Padded, c: Padded)
    requires a.Valid() && b.Valid() && c.Valid()
    ensures Fields(a.Rendered() + "," + b.Rendered() + "," + c.Rendered()) == [a.text, b.text, c.text]
  {
    RenderedField(a);
    RenderedField(b);
    RenderedField(c);
    SplitThree(a.Rendered(), b.Rendered(), c.Rendered());
  }

  // ----- What a line stands for -----

  // The records of a value and a name: an address stands for its forward record and the
  // pointer back, a host name for an alias.
  function Meant(ip6: Ip6Text, value: string, name: string, ttl: int): seq<LocalRecord> {
    match ParseAddress(ip6, value)
    case Some(a) =>
      [LocalRecord(name, if a.A4? then A else AAAA, FormatAddress(ip6, a), ttl),
       LocalRecord(ReversePointer(a), PTR, name, ttl)]
    case None => [LocalRecord(name, CNAME, NormalizeDomain(value), ttl)]
  }

  // What a line's fields stand for, once they are known.
  lemma FieldsMean(ip6: Ip6Text, raw: string, line: string, parts: seq<string>, defaultTtl: int)
    requires Strip(raw[..IndexOf(raw, '#')]) == line && line != "" && Fields(line) == parts
    requires |parts| >= 2 && parts[0] != "" && parts[1] != "" && NameSyntax(NormalizeDomain(parts[1]))
    ensures LineRecords(ip6, raw, defaultTtl)
         == Expand(ip6, parts[0], NormalizeDomain(parts[1]),
                   if |parts| >= 3 && parts[2] != "" then ParseTtl(parts[2], defaultTtl) else defaultTtl)
  {
  }

  lemma {:induction false} Line2Records(ip6: Ip6Text, a: Padded, b: Padded, comment: string, defaultTtl: int)
    requires a.Valid() && b.Valid() && Comment(comment)
    requires NameSyntax(NormalizeDomain(b.text))
    ensures LineRecords(ip6, Line2(a, b, comment), defaultTtl)
         == Expand(ip6, a.text, NormalizeDomain(b.text), defaultTtl)
  {
    Body2(a, b);
    CommentCut(a.Rendered() + "," + b.Rendered(), comment);
    Fields2(a, b);
    FieldsMean(ip6, Line2(a, b, comment), a.text + a.after + "," + (b.before + b.text), [a.text, b.text], defaultTtl);
  }

  lemma {:induction false} Line3Records(ip6: Ip6Text, a: Padded, b: Padded, c: Padded, comment: string, defaultTtl: int)
    requires a.Valid() && b.Valid() && c.Valid() && Comment(comment)
    requires NameSyntax(NormalizeDomain(b.text))
    ensures LineRecords(ip6, Line3(a, b, c, comment), defaultTtl)
         == Expand(ip6, a.text, NormalizeDomain(b.text), ParseTtl(c.text, defaultTtl))
  {
    Body3(a, b, c);
    CommentCut(a.Rendered() + "," + b.Rendered() + "," + c.Rendered(), comment);
    Fields3(a, b, c);
    FieldsMean(ip6, Line3(a, b, c, comment), a.text + a.after + "," + b.Rendered() + "," + (c.before + c.text),
               [a.text, b.text, c.text], defaultTtl);
  }

  // ----- The TTL field -----

  lemma {:induction false} NoUnderscores(s: string)
    requires AllDigits(s)
    ensures WithoutUnderscores(s) == s
  {
    if s == "" {
    } else {
      NoUnderscores(s[1..]);
      assert [s[0]] + s[1..] == s;
    }
  }

  // A numeral is its value.
  lemma TtlNumeral(n: nat, defaultTtl: int)
    ensures ParseTtl(Decimal(n), defaultTtl) == n
  {
    var s := Decimal(n);
    DecimalField(n);
    DecimalValue(n);
    Untrimmed(s);
    Grouped(s);
  }

  lemma Grouped(s: string)
    requires s != "" && AllDigits(s)
    ensures DigitGroups(s) && WithoutUnderscores(s) == s && s[0] != '-' && s[0] != '+'
  {
    NoUnderscores(s);
  }

  lemma Untrimmed(s: string)
    requires Trim(s)
    ensures Strip(s) == s
  {
    StripExact("", s, "");
    assert "" + s + "" == s;
  }

  lemma DigitsMagnitude(s: string)
    requires s != "" && AllDigits(s)
    ensures Magnitude(s) == Some(DigitsValue(s))
  {
    Grouped(s);
  }

  lemma SignApart(sign: char, s: string)
    ensures [sign] + s != "" && ([sign] + s)[0] == sign && ([sign] + s)[1..] == s
  {
  }

  lemma SignedNumber(sign: char, s: string)
    requires (sign == '-' || sign == '+') && Magnitude(s).Some?
    ensures Number([sign] + s) == Some(if sign == '-' then 0 - Magnitude(s).value else Magnitude(s).value)
  {
    SignApart(sign, s);
    NumberBySign([sign] + s, s);
  }

  lemma NumberBySign(t: string, s: string)
    requires t != "" && (t[0] == '-' || t[0] == '+') && t[1..] == s && Magnitude(s).Some?
    ensures Number(t) == Some(if t[0] == '-' then 0 - Magnitude(s).value else Magnitude(s).value)
  {
  }

  lemma SignedText(sign: char, s: string)
    requires (sign == '-' || sign == '+') && s != "" && AllDigits(s)
    ensures Strip([sign] + s) == [sign] + s
  {
    Untrimmed([sign] + s);
  }

  // A negative numeral is no time at all, and a plus sign says nothing.
  lemma TtlSigned(n: nat, defaultTtl: int)
    ensures ParseTtl("-" + Decimal(n), defaultTtl) == 0
    ensures ParseTtl("+" + Decimal(n), defaultTtl) == n
  {
    DecimalField(n);
    DecimalValue(n);
    SignedText('-', Decimal(n));
    SignedText('+', Decimal(n));
    DigitsMagnitude(Decimal(n));
    SignedNumber('-', Decimal(n));
    SignedNumber('+', Decimal(n));
  }

  // Nor does an underscore between digits.
  lemma TtlUnderscore(s: string, t: string, defaultTtl: int)
    requires s != "" && AllDigits(s) && t != "" && AllDigits(t)
    ensures ParseTtl(s + "_" + t, defaultTtl) == ParseTtl(s + t, defaultTtl)
  {
    Grouped(s + t);
    DigitsRead(s + t, s + t, defaultTtl);
    Ungrouped(s, t);
    DigitsRead(s + "_" + t, s + t, defaultTtl);
  }

  lemma DigitsRead(raw: string, digits: string, defaultTtl: int)
    requires DigitGroups(raw) && WithoutUnderscores(raw) == digits
    ensures ParseTtl(raw, defaultTtl) == DigitsValue(digits)
  {
    Untrimmed(raw);
  }

  lemma {:induction false} Ungrouped(s: string, t: string)
    requires AllDigits(s) && AllDigits(t)
    ensures WithoutUnderscores(s + "_" + t) == s + t
    ensures s != "" && t != "" ==> DigitGroups(s + "_" + t)
  {
    var w := s + "_" + t;
    if s == "" {
      assert w[1..] == t && w[0] == '_';
      NoUnderscores(t);
      assert s + t == t;
    } else {
      assert w[1..] == s[1..] + "_" + t && w[0] == s[0];
      Ungrouped(s[1..], t);
      assert [s[0]] + (s[1..] + t) == s + t;
    }
  }

  // Anything with a letter in it leaves the default.
  lemma TtlNotANumber(raw: string, i: nat, defaultTtl: int)
    requires Trim(raw) && i < |raw| && 'a' <= raw[i] <= 'z'
    ensures ParseTtl(raw, defaultTtl) == defaultTtl
  {
    Untrimmed(raw);
    assert i > 0 ==> raw[1..][i - 1] == raw[i];
  }

  // ----- A file of such lines -----

  // One line: a value, a name, and a TTL, the default's if there is none.
  datatype Entry = Entry(value: Padded, name: Padded, ttl: Option<(nat, string, string)>, comment: string)

  // The value is an address or a host name, the name a host name, in any case and with any
  // number of trailing dots.
  predicate ValidEntry(ip6: Ip6Text, e: Entry) {
    && e.value.Valid() && e.name.Valid() && Comment(e.comment)
    && NameSyntax(NormalizeDomain(e.name.text))
    && (ParseAddress(ip6, e.value.text).Some? || NameSyntax(NormalizeDomain(e.value.text)))
    && match e.ttl
       case Some(t) => Blank(t.1) && Blank(t.2)
       case None => true
  }

  function TtlText(t: (nat, string, string)): Padded {
    Padded(t.1, Decimal(t.0), t.2)
  }

  function EntryLine(e: Entry): string {
    match e.ttl
    case Some(t) => Line3(e.value, e.name, TtlText(t), e.comment)
    case None => Line2(e.value, e.name, e.comment)
  }

  function EntryRecords(ip6: Ip6Text, e: Entry, defaultTtl: int): seq<LocalRecord> {
    Meant(ip6, e.value.text, NormalizeDomain(e.name.text), match e.ttl case Some(t) => t.0 case None => defaultTtl)
  }

  // A line stands for exactly the records of its value, name and TTL, in that order of
  // columns, whatever spaces and comment are around them.
  lemma {:induction false} LineMeans(ip6: Ip6Text, e: Entry, defaultTtl: int)
    requires ValidEntry(ip6, e)
    ensures LineRecords(ip6, EntryLine(e), defaultTtl) == EntryRecords(ip6, e, defaultTtl)
  {
    match e.ttl
    case Some(t) =>
      DecimalField(t.0);
      TtlNumeral(t.0, defaultTtl);
      Line3Records(ip6, e.value, e.name, TtlText(t), e.comment, defaultTtl);
    case None =>
      Line2Records(ip6, e.value, e.name, e.comment, defaultTtl);
  }

  lemma EntryOneLine(ip6: Ip6Text, e: Entry)
    requires ValidEntry(ip6, e)
    ensures OneLine(EntryLine(e))
  {
    match e.ttl
    case None =>
      Body2(e.value, e.name);
      WithComment(e.value.Rendered() + "," + e.name.Rendered(), e.comment);
    case Some(t) =>
      DecimalField(t.0);
      Body3(e.value, e.name, TtlText(t));
      WithComment(e.value.Rendered() + "," + e.name.Rendered() + "," + TtlText(t).Rendered(), e.comment);
  }

  lemma WithComment(body: string, comment: string)
    requires Quiet(body) && Comment(comment)
    ensures OneLine(body + comment)
  {
  }

  function EntryLines(entries: seq<Entry>): seq<string> {
    seq(|entries|, i requires 0 <= i < |entries| => EntryLine(entries[i]))
  }

  function Records(ip6: Ip6Text, entries: seq<Entry>, defaultTtl: int): seq<seq<LocalRecord>> {
    seq(|entries|, i requires 0 <= i < |entries| => EntryRecords(ip6, entries[i], defaultTtl))
  }

  // Parsing a file of entries, its lines ended either way, yields the entries' records, each
  // key at its first occurrence.
  lemma {:induction false} ZoneMeans(ip6: Ip6Text, entries: seq<Entry>, ends: seq<string>, defaultTtl: int)
    requires |ends| == |entries| && (forall end | end in ends :: IsEnd(end))
    requires forall e | e in entries :: ValidEntry(ip6, e)
    ensures TextRecords(ip6, Ended(EntryLines(entries), ends), defaultTtl) == Records(ip6, entries, defaultTtl)
  {
    var lines := EntryLines(entries);
    forall l | l in lines
      ensures OneLine(l)
    {
      var i :| 0 <= i < |lines| && lines[i] == l;
      assert entries[i] in entries;
      EntryOneLine(ip6, entries[i]);
    }
    LinesComeBack(lines, ends);
    forall i | 0 <= i < |entries|
      ensures LineRecords(ip6, lines[i], defaultTtl) == EntryRecords(ip6, entries[i], defaultTtl)
    {
      assert entries[i] in entries;
      LineMeans(ip6, entries[i], defaultTtl);
    }
  }

  // ----- Files without repeats -----

  function Flat(lines: seq<seq<LocalRecord>>): seq<LocalRecord> {
    if lines == [] then [] else Flat(lines[..|lines| - 1]) + lines[|lines| - 1]
  }

  // No record of the lines has the key of another.
  lemma {:induction false} AllAdded(records: seq<LocalRecord>, more: seq<LocalRecord>)
    requires NoRepeats(records + more)
    ensures AddAll(records, more) == records + more
  {
    if more == [] {
      assert records + more == records;
    } else {
      var init, last := more[..|more| - 1], more[|more| - 1];
      assert records + more == records + init + [last];
      PrefixNoRepeats(records + init, [last]);
      AllAdded(records, init);
      LastKeyNew(records + init, last);
    }
  }

  lemma PrefixNoRepeats(records: seq<LocalRecord>, more: seq<LocalRecord>)
    requires NoRepeats(records + more)
    ensures NoRepeats(records)
  {
    forall i, j | 0 <= i < j < |records|
      ensures records[i].Key() != records[j].Key()
    {
      assert (records + more)[i] == records[i] && (records + more)[j] == records[j];
    }
  }

  // When no key occurs twice in the file the zone is all its records in order.
  lemma {:induction false} NothingDropped(lines: seq<seq<LocalRecord>>)
    requires NoRepeats(Flat(lines))
    ensures ZoneRecords(lines) == Flat(lines)
  {
    if lines == [] {
    } else {
      var init, last := lines[..|lines| - 1], lines[|lines| - 1];
      PrefixNoRepeats(Flat(init), last);
      NothingDropped(init);
      AllAdded(Flat(init), last);
    }
  }

  // ----- Addresses by themselves -----

  // "address,name,ttl" stands for exactly the address record of the name and the pointer
  // from its reverse name, both with that TTL.
  lemma AddressLine(ip6: Ip6Text, a: Address, name: string, ttl: nat, comment: string, defaultTtl: int)
    requires Faithful(ip6) && ColonText(ip6) && NameSyntax(name) && Comment(comment)
    ensures LineRecords(ip6, FormatAddress(ip6, a) + "," + name + "," + Decimal(ttl) + comment, defaultTtl)
         == [LocalRecord(name, if a.A4? then A else AAAA, FormatAddress(ip6, a), ttl),
             LocalRecord(ReversePointer(a), PTR, name, ttl)]
    ensures LineRecords(ip6, FormatAddress(ip6, a) + "," + name + comment, defaultTtl)
         == [LocalRecord(name, if a.A4? then A else AAAA, FormatAddress(ip6, a), defaultTtl),
             LocalRecord(ReversePointer(a), PTR, name, defaultTtl)]
  {
    var value, host, number := Bare(FormatAddress(ip6, a)), Bare(name), (ttl, "", "");
    AddressField(ip6, a);
    NameField(name);
    BareRendered(FormatAddress(ip6, a));
    BareRendered(name);
    DecimalField(ttl);
    BareRendered(Decimal(ttl));
    LineMeans(ip6, Entry(value, host, Some(number), comment), defaultTtl);
    LineMeans(ip6, Entry(value, host, None, comment), defaultTtl);
  }

  // "target,alias" stands for exactly the alias.
  lemma AliasLine(ip6: Ip6Text, target: string, name: string, comment: string, defaultTtl: int)
    requires NameSyntax(target) && ParseAddress(ip6, target).None? && NameSyntax(name) && Comment(comment)
    ensures LineRecords(ip6, target + "," + name + comment, defaultTtl)
         == [LocalRecord(name, CNAME, target, defaultTtl)]
  {
    NameField(target);
    NameField(name);
    BareRendered(target);
    BareRendered(name);
    LineMeans(ip6, Entry(Bare(target), Bare(name), None, comment), defaultTtl);
  }

  function Bare(s: string): Padded {
    Padded("", s, "")
  }

  lemma BareRendered(s: string)
    ensures Bare(s).Rendered() == s
  {
  }

  lemma NameField(name: string)
    requires NameSyntax(name)
    ensures FieldText(name) && NormalizeDomain(name) == name
  {
    NameIsClean(name);
    CleanIsFixed(name);
    assert forall i | 0 <= i < |name| :: DomainChar(name[i]);
  }
}
