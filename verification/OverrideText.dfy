// An override rule's text of addresses, and the answer it gives.
module OverrideText {
  import opened Options
  import opened Text
  import opened IpAddress
  import opened Answers
  import opened Resolver
  import opened ZoneSyntax
  import Policy

  // An address between spaces.
  datatype Part = Part(before: string, address: Address, after: string)

  predicate ValidPart(p: Part) {
    Blank(p.before) && Blank(p.after)
  }

  function PartText(ip6: Ip6Text, p: Part): string {
    p.before + FormatAddress(ip6, p.address) + p.after
  }

  function PartTexts(ip6: Ip6Text, parts: seq<Part>): seq<string> {
    seq(|parts|, i requires 0 <= i < |parts| => PartText(ip6, parts[i]))
  }

  function Formatted(ip6: Ip6Text, parts: seq<Part>): seq<string> {
    seq(|parts|, i requires 0 <= i < |parts| => FormatAddress(ip6, parts[i].address))
  }

  // The addresses of the asked family, in order, as answers under the question's spelling.
  function FamilyAnswers(ip6: Ip6Text, request: Request, ttl: int, parts: seq<Part>): seq<RR> {
    if parts == [] then [] else
      var a := parts[|parts| - 1].address;
      FamilyAnswers(ip6, request, ttl, parts[..|parts| - 1])
      + if request.qtype == 1 && a.A4? then [RR(request.qname, 1, ttl, FormatAddress(ip6, a), 0)]
        else if request.qtype == 28 && a.A6? then [RR(request.qname, 28, ttl, FormatAddress(ip6, a), 0)]
        else []
  }

  lemma PartReads(ip6: Ip6Text, p: Part)
    requires Faithful(ip6) && ColonText(ip6) && ValidPart(p)
    ensures Strip(PartText(ip6, p)) == FormatAddress(ip6, p.address) != ""
    ensures Lacks(PartText(ip6, p), ',')
  {
    AddressField(ip6, p.address);
    StripExact(p.before, FormatAddress(ip6, p.address), p.after);
    assert forall i | 0 <= i < |p.before| :: IsSpace(p.before[i]);
    assert forall i | 0 <= i < |p.after| :: IsSpace(p.after[i]);
  }

  lemma {:induction false} NonEmptyParts(parts: seq<string>, texts: seq<string>)
    requires |parts| == |texts|
    requires forall i | 0 <= i < |parts| :: Strip(parts[i]) == texts[i] != ""
    ensures NonEmpty(parts) == texts
  {
    if parts == [] {
    } else {
      NonEmptyParts(parts[1..], texts[1..]);
      assert texts == [texts[0]] + texts[1..];
    }
  }

  // The values of the text are the addresses, in order.
  lemma {:induction false} ValuesRead(ip6: Ip6Text, parts: seq<Part>)
    requires Faithful(ip6) && ColonText(ip6) && forall p | p in parts :: ValidPart(p)
    ensures OverrideValues(Join(PartTexts(ip6, parts), ',')) == Formatted(ip6, parts)
  {
    var texts := PartTexts(ip6, parts);
    forall i | 0 <= i < |parts|
      ensures Strip(texts[i]) == Formatted(ip6, parts)[i] != "" && Lacks(texts[i], ',')
    {
      assert parts[i] in parts;
      PartReads(ip6, parts[i]);
    }
    if parts == [] {
      assert Split("", ',') == [""];
      StripSpaces("");
    } else {
      SplitJoin(texts, ',');
      NonEmptyParts(texts, Formatted(ip6, parts));
    }
  }

  lemma {:induction false} AnswersRead(lib: Library, request: Request, ttl: int, parts: seq<Part>)
    requires Faithful(lib.ip6) && ColonText(lib.ip6)
    ensures OverrideRRs(lib, request, Formatted(lib.ip6, parts), ttl) == FamilyAnswers(lib.ip6, request, ttl, parts)
  {
    if parts == [] {
    } else {
      var init, last := parts[..|parts| - 1], parts[|parts| - 1];
      AnswersRead(lib, request, ttl, init);
      AddressField(lib.ip6, last.address);
      var values := Formatted(lib.ip6, parts);
      assert values[..|values| - 1] == Formatted(lib.ip6, init);
    }
  }

  // A rule whose text lists addresses, spaces around them or not, answers a question with
  // exactly those of the asked family, in the order written, with the rule's TTL.
  lemma {:induction false} OverrideOfAddresses(lib: Library, request: Request, rule: Policy.Rule, parts: seq<Part>)
    requires Faithful(lib.ip6) && ColonText(lib.ip6) && forall p | p in parts :: ValidPart(p)
    requires rule.overrideResponse == Some(Join(PartTexts(lib.ip6, parts), ','))
    ensures OverrideReply(lib, request, rule)
         == Reply(request.id, 0, FamilyAnswers(lib.ip6, request, rule.overrideTtl, parts), [], [])
  {
    ValuesRead(lib.ip6, parts);
    AnswersRead(lib, request, rule.overrideTtl, parts);
  }
}
