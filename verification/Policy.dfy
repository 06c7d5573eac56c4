// Policy selection: which rule screens a (client, name) pair.
module Policy {
  import opened Options
  import opened Text

  const WILDCARD := "*"
  const ACTION_OVERRIDE := "override"
  const ACTION_DENY := "deny"

  datatype Rule = Rule(client: string, domain: string, action: string,
                       overrideResponse: Option<string>, overrideTtl: int)

  // ----- The scored selection -----

  // `_domain_specificity`
  function Specificity(ruleDomain: string, qname: string): Option<nat> {
    var pattern := NormalizeDomain(ruleDomain);
    if pattern == WILDCARD then Some(0)
    else if StartsWith(pattern, "*.") then
      var suffix := pattern[2..];
      if qname == suffix || EndsWith(qname, "." + suffix) then Some(1000 + |suffix|) else None
    else if pattern == qname then Some(1_000_000)
    else None
  }

  predicate ClientMatches(ruleClient: string, clientIp: string) {
    ruleClient == WILDCARD || ruleClient == clientIp
  }

  // The tuple `(specificity, client_specificity)` of a matching rule.
  function Key(rule: Rule, clientIp: string, name: string): Option<(nat, nat)> {
    if !ClientMatches(rule.client, clientIp) then None else
      match Specificity(rule.domain, name)
      case Some(score) => Some((score, if rule.client != WILDCARD then 1 else 0))
      case None => None
  }

  predicate KeyGreater(a: (nat, nat), b: (nat, nat)) {
    a.0 > b.0 || (a.0 == b.0 && a.1 > b.1)
  }

  // The first index of the greatest key.
  function Best(keys: seq<Option<(nat, nat)>>): (best: Option<nat>)
    ensures best.None? <==> forall j | 0 <= j < |keys| :: keys[j].None?
    ensures best.Some? ==> best.value < |keys| && keys[best.value].Some?
    ensures best.Some? ==> forall j | 0 <= j < |keys| && keys[j].Some? ::
              !KeyGreater(keys[j].value, keys[best.value].value)
    ensures best.Some? ==> forall j | 0 <= j < best.value && keys[j].Some? ::
              KeyGreater(keys[best.value].value, keys[j].value)
  {
    if keys == [] then None else
      var n := |keys| - 1;
      var best := Best(keys[..n]);
      if keys[n].Some? && (best.None? || KeyGreater(keys[n].value, keys[best.value].value))
      then Some(n)
      else best
  }

  function RuleKeys(rules: seq<Rule>, clientIp: string, name: string): seq<Option<(nat, nat)>> {
    seq(|rules|, i requires 0 <= i < |rules| => Key(rules[i], clientIp, name))
  }

  // The first rule with the greatest key.
  function Select(rules: seq<Rule>, clientIp: string, name: string): Option<Rule> {
    match Best(RuleKeys(rules, clientIp, name))
    case Some(i) => Some(rules[i])
    case None => None
  }

  method SelectPolicy(rules: seq<Rule>, clientIp: string, qname: string) returns (best: Option<Rule>)
    ensures best == Select(rules, clientIp, NormalizeDomain(qname))
  {
    var name := NormalizeDomain(qname);
    ghost var keys := RuleKeys(rules, clientIp, name);
    best := None;
    var bestKey: Option<(nat, nat)> := None;
    for i := 0 to |rules|
      invariant bestKey.None? <==> Best(keys[..i]).None?
      invariant best.None? <==> Best(keys[..i]).None?
      invariant best.Some? ==> best.value == rules[Best(keys[..i]).value]
      invariant best.Some? ==> bestKey == keys[Best(keys[..i]).value]
    {
      assert keys[..i + 1][..i] == keys[..i];
      var rule := rules[i];
      if !ClientMatches(rule.client, clientIp) {
        continue;
      }
      var specificity := Specificity(rule.domain, name);
      if specificity.None? {
        continue;
      }
      var key := (specificity.value, if rule.client != WILDCARD then 1 else 0);
      assert keys[i] == Some(key);
      if bestKey.None? || KeyGreater(key, bestKey.value) {
        bestKey := Some(key);
        best := Some(rule);
      }
    }
    assert keys[..|rules|] == keys;
  }

  // ----- The order the documentation states -----

  datatype Pattern = Exact(name: string) | Suffix(base: string) | Any

  function PatternOf(rule: Rule): Pattern {
    var p := NormalizeDomain(rule.domain);
    if p == "*" then Any
    else if StartsWith(p, "*.") then Suffix(p[2..])
    else Exact(p)
  }

  predicate Covers(p: Pattern, name: string) {
    match p
    case Any => true
    case Suffix(base) => name == base || EndsWith(name, "." + base)
    case Exact(n) => n == name
  }

  predicate Matches(rule: Rule, clientIp: string, name: string) {
    (rule.client == "*" || rule.client == clientIp) && Covers(PatternOf(rule), name)
  }

  // Exact over suffix over "*"; of two suffixes, the one below the other.
  predicate MoreSpecific(p: Pattern, q: Pattern) {
    match (p, q)
    case (Exact(_), Suffix(_)) => true
    case (Exact(_), Any) => true
    case (Suffix(_), Any) => true
    case (Suffix(b), Suffix(c)) => EndsWith(b, "." + c)
    case _ => false
  }

  // A more specific pattern, or the same pattern for this client rather than for any.
  predicate Beats(r: Rule, s: Rule) {
    || MoreSpecific(PatternOf(r), PatternOf(s))
    || (PatternOf(r) == PatternOf(s) && r.client != "*" && s.client == "*")
  }

  // Above this length a suffix pattern would outscore an exact one.
  const SCORE_LIMIT := 999_000

  lemma SuffixesOfOneName(name: string, b: string, c: string)
    requires Covers(Suffix(b), name) && Covers(Suffix(c), name)
    ensures |b| == |c| ==> b == c
    ensures |b| > |c| <==> EndsWith(b, "." + c)
  {
    if |b| == |c| && name != b && name != c {
      SameLengthSuffixes(name, "." + b, "." + c);
      assert ("." + b)[1..] == b && ("." + c)[1..] == c;
    } else if |b| == |c| {
      assert |"." + b| > |b|;
    } else if |b| > |c| {
      assert EndsWith(name, "." + c);
      assert name != b ==> name[|name| - |b|..] == b by {
        if name != b {
          assert ("." + b)[1..] == b;
        }
      }
      assert name[|name| - |b|..][|b| - |c| - 1..] == name[|name| - |c| - 1..];
    }
  }

  lemma MatchesIffKey(rule: Rule, clientIp: string, name: string)
    ensures Matches(rule, clientIp, name) <==> Key(rule, clientIp, name).Some?
  {
  }

  lemma PatternScore(rule: Rule, clientIp: string, name: string)
    requires Matches(rule, clientIp, name)
    ensures Key(rule, clientIp, name) ==
            Some((match PatternOf(rule)
                  case Any => 0
                  case Suffix(base) => 1000 + |base|
                  case Exact(_) => 1_000_000,
                  if rule.client == "*" then 0 else 1))
  {
  }

  // On names below the limit the scores order matching rules as documented.
  lemma ScoreOrder(r: Rule, s: Rule, clientIp: string, name: string)
    requires Matches(r, clientIp, name) && Matches(s, clientIp, name)
    requires |name| < SCORE_LIMIT
    ensures KeyGreater(Key(r, clientIp, name).value, Key(s, clientIp, name).value) <==> Beats(r, s)
  {
    PatternScore(r, clientIp, name);
    PatternScore(s, clientIp, name);
    match (PatternOf(r), PatternOf(s))
    case (Suffix(b), Suffix(c)) => SuffixesOfOneName(name, b, c);
    case _ =>
  }

  // The limit is exact: an exact rule outscores a suffix rule iff the suffix is shorter.
  lemma ExactOutscoresSuffixIff(r: Rule, s: Rule, clientIp: string, name: string)
    requires Matches(r, clientIp, name) && Matches(s, clientIp, name)
    requires PatternOf(r).Exact? && PatternOf(s).Suffix?
    ensures Key(r, clientIp, name).value.0 > Key(s, clientIp, name).value.0
       <==> |PatternOf(s).base| < SCORE_LIMIT
  {
    PatternScore(r, clientIp, name);
    PatternScore(s, clientIp, name);
  }

  // Rules that match with the same key have the same client and the same pattern.
  lemma SameKeySameRule(r: Rule, s: Rule, clientIp: string, name: string)
    requires Matches(r, clientIp, name) && Matches(s, clientIp, name)
    requires !Beats(r, s) && !Beats(s, r)
    ensures PatternOf(r) == PatternOf(s) && r.client == s.client
    ensures NormalizeDomain(r.domain) == NormalizeDomain(s.domain)
  {
    match (PatternOf(r), PatternOf(s)) {
      case (Suffix(b), Suffix(c)) =>
        SuffixesOfOneName(name, b, c);
        SuffixesOfOneName(name, c, b);
      case _ =>
    }
    var p, q := NormalizeDomain(r.domain), NormalizeDomain(s.domain);
    if PatternOf(r).Suffix? {
      assert p == "*." + p[2..] && q == "*." + q[2..];
    }
  }

  // `w` matches, is beaten by no matching rule, and beats every one before it.
  ghost predicate Winner(rules: seq<Rule>, clientIp: string, name: string, w: nat) {
    && w < |rules| && Matches(rules[w], clientIp, name)
    && (forall j | 0 <= j < |rules| && Matches(rules[j], clientIp, name) :: !Beats(rules[j], rules[w]))
    && (forall j | 0 <= j < w && Matches(rules[j], clientIp, name) :: Beats(rules[w], rules[j]))
  }

  // The selected rule is the documented one: no result exactly when no rule matches,
  // and otherwise, on names below the limit, the first rule no other one beats.
  lemma {:induction false} SelectDocumentedOrder(rules: seq<Rule>, clientIp: string, name: string)
    ensures Select(rules, clientIp, name).None?
       <==> forall j | 0 <= j < |rules| :: !Matches(rules[j], clientIp, name)
    ensures Select(rules, clientIp, name).Some? && |name| < SCORE_LIMIT ==>
              exists w: nat :: Winner(rules, clientIp, name, w)
                               && Select(rules, clientIp, name) == Some(rules[w])
  {
    var keys := RuleKeys(rules, clientIp, name);
    forall j | 0 <= j < |rules|
      ensures Matches(rules[j], clientIp, name) <==> keys[j].Some?
    {
      MatchesIffKey(rules[j], clientIp, name);
    }
    if Best(keys).Some? && |name| < SCORE_LIMIT {
      var w := Best(keys).value;
      forall j | 0 <= j < |rules| && Matches(rules[j], clientIp, name)
        ensures !Beats(rules[j], rules[w]) && (j < w ==> Beats(rules[w], rules[j]))
      {
        ScoreOrder(rules[j], rules[w], clientIp, name);
        ScoreOrder(rules[w], rules[j], clientIp, name);
        assert keys[j] == Key(rules[j], clientIp, name) && keys[w] == Key(rules[w], clientIp, name);
      }
      assert Winner(rules, clientIp, name, w);
    }
  }

  // No two rules share both the client and the normalized pattern.
  ghost predicate DistinctPairs(rules: seq<Rule>) {
    forall i, j | 0 <= i < j < |rules| ::
      !(rules[i].client == rules[j].client && NormalizeDomain(rules[i].domain) == NormalizeDomain(rules[j].domain))
  }

  // A matching rule that no matching rule beats.
  ghost predicate Unbeaten(rules: seq<Rule>, clientIp: string, name: string, r: Rule) {
    && r in rules && Matches(r, clientIp, name)
    && forall s | s in rules && Matches(s, clientIp, name) :: !Beats(s, r)
  }

  ghost predicate SelectedInAnyOrder(rules: seq<Rule>, clientIp: string, name: string) {
    forall shuffled | multiset(shuffled) == multiset(rules) ::
      Select(shuffled, clientIp, name) == Select(rules, clientIp, name)
  }

  // No two different rules are both unbeaten.
  ghost predicate OneUnbeaten(rules: seq<Rule>, clientIp: string, name: string) {
    forall r, s | Unbeaten(rules, clientIp, name, r) && Unbeaten(rules, clientIp, name, s) :: r == s
  }

  function MovedToFront(rules: seq<Rule>, i: nat): seq<Rule>
    requires i < |rules|
  {
    [rules[i]] + rules[..i] + rules[i + 1..]
  }

  lemma MovedToFrontKeeps(rules: seq<Rule>, i: nat)
    requires i < |rules|
    ensures multiset(MovedToFront(rules, i)) == multiset(rules)
  {
    assert rules == rules[..i] + [rules[i]] + rules[i + 1..];
  }

  // Whichever unbeaten rule comes first is selected.
  lemma FirstUnbeatenSelected(rules: seq<Rule>, clientIp: string, name: string, i: nat)
    requires |name| < SCORE_LIMIT && i < |rules| && Unbeaten(rules, clientIp, name, rules[i])
    ensures Select(MovedToFront(rules, i), clientIp, name) == Some(rules[i])
  {
    var front := MovedToFront(rules, i);
    MovedToFrontKeeps(rules, i);
    SameElements(rules, front);
    SelectDocumentedOrder(front, clientIp, name);
    assert front[0] == rules[i];
    var w: nat :| Winner(front, clientIp, name, w) && Select(front, clientIp, name) == Some(front[w]);
    assert front[w] in front;
  }

  lemma WinnerUnbeaten(rules: seq<Rule>, clientIp: string, name: string, w: nat)
    requires Winner(rules, clientIp, name, w)
    ensures Unbeaten(rules, clientIp, name, rules[w])
  {
    forall s | s in rules && Matches(s, clientIp, name)
      ensures !Beats(s, rules[w])
    {
      var j :| 0 <= j < |rules| && rules[j] == s;
    }
  }

  lemma SameUnbeaten(rules: seq<Rule>, shuffled: seq<Rule>, clientIp: string, name: string, r: Rule)
    requires multiset(rules) == multiset(shuffled)
    ensures Unbeaten(rules, clientIp, name, r) <==> Unbeaten(shuffled, clientIp, name, r)
  {
    SameElements(rules, shuffled);
  }

  lemma SelectedIsUnbeaten(rules: seq<Rule>, clientIp: string, name: string)
    requires |name| < SCORE_LIMIT && Select(rules, clientIp, name).Some?
    ensures Unbeaten(rules, clientIp, name, Select(rules, clientIp, name).value)
  {
    SelectDocumentedOrder(rules, clientIp, name);
    var w: nat :| Winner(rules, clientIp, name, w) && Select(rules, clientIp, name) == Some(rules[w]);
    WinnerUnbeaten(rules, clientIp, name, w);
  }

  // The exact condition: the order of the rules does not matter for a name if and only if
  // no two different rules are both unbeaten on it.
  lemma OrderIrrelevantIff(rules: seq<Rule>, clientIp: string, name: string)
    requires |name| < SCORE_LIMIT
    ensures SelectedInAnyOrder(rules, clientIp, name) <==> OneUnbeaten(rules, clientIp, name)
  {
    if OneUnbeaten(rules, clientIp, name) {
      forall shuffled | multiset(shuffled) == multiset(rules)
        ensures Select(shuffled, clientIp, name) == Select(rules, clientIp, name)
      {
        SameSelection(rules, shuffled, clientIp, name);
      }
    }
    if SelectedInAnyOrder(rules, clientIp, name) {
      forall r | Unbeaten(rules, clientIp, name, r)
        ensures Select(rules, clientIp, name) == Some(r)
      {
        var i :| 0 <= i < |rules| && rules[i] == r;
        FirstUnbeatenSelected(rules, clientIp, name, i);
        MovedToFrontKeeps(rules, i);
      }
    }
  }

  lemma SameSelection(rules: seq<Rule>, shuffled: seq<Rule>, clientIp: string, name: string)
    requires |name| < SCORE_LIMIT && OneUnbeaten(rules, clientIp, name)
    requires multiset(rules) == multiset(shuffled)
    ensures Select(rules, clientIp, name) == Select(shuffled, clientIp, name)
  {
    SelectDocumentedOrder(rules, clientIp, name);
    SelectDocumentedOrder(shuffled, clientIp, name);
    SomeMatch(rules, shuffled, clientIp, name);
    if Select(rules, clientIp, name).Some? {
      SelectedIsUnbeaten(rules, clientIp, name);
      SelectedIsUnbeaten(shuffled, clientIp, name);
      SameUnbeaten(rules, shuffled, clientIp, name, Select(shuffled, clientIp, name).value);
    }
  }

  // Two unbeaten rules have the same client and the same pattern, but for case and
  // trailing dots: the raw strings the uniqueness constraint compares are all they differ in.
  lemma UnbeatenAreVariants(rules: seq<Rule>, clientIp: string, name: string, r: Rule, s: Rule)
    requires Unbeaten(rules, clientIp, name, r) && Unbeaten(rules, clientIp, name, s)
    ensures r.client == s.client && NormalizeDomain(r.domain) == NormalizeDomain(s.domain)
  {
    SameKeySameRule(r, s, clientIp, name);
  }

  // So the order does not matter when (client, normalized pattern) pairs are distinct.
  lemma {:induction false} SelectIgnoresOrder(rules: seq<Rule>, shuffled: seq<Rule>, clientIp: string, name: string)
    requires |name| < SCORE_LIMIT
    requires DistinctPairs(rules) && multiset(rules) == multiset(shuffled)
    ensures Select(rules, clientIp, name) == Select(shuffled, clientIp, name)
  {
    forall r, s | Unbeaten(rules, clientIp, name, r) && Unbeaten(rules, clientIp, name, s)
      ensures r == s
    {
      UnbeatenAreVariants(rules, clientIp, name, r, s);
      var i :| 0 <= i < |rules| && rules[i] == r;
      var j :| 0 <= j < |rules| && rules[j] == s;
      assert i == j;
    }
    OrderIrrelevantIff(rules, clientIp, name);
  }

  lemma SomeMatch(rules: seq<Rule>, shuffled: seq<Rule>, clientIp: string, name: string)
    requires multiset(rules) == multiset(shuffled)
    ensures (forall j | 0 <= j < |rules| :: !Matches(rules[j], clientIp, name))
       <==> (forall j | 0 <= j < |shuffled| :: !Matches(shuffled[j], clientIp, name))
  {
    SameElements(rules, shuffled);
    assert (forall j | 0 <= j < |rules| :: !Matches(rules[j], clientIp, name))
      <==> forall r | r in rules :: !Matches(r, clientIp, name);
    assert (forall j | 0 <= j < |shuffled| :: !Matches(shuffled[j], clientIp, name))
      <==> forall r | r in shuffled :: !Matches(r, clientIp, name);
  }

  lemma SameElements(rules: seq<Rule>, shuffled: seq<Rule>)
    requires multiset(rules) == multiset(shuffled)
    ensures forall r: Rule :: r in rules <==> r in shuffled
  {
    forall r: Rule
      ensures r in rules <==> r in shuffled
    {
      assert r in rules <==> r in multiset(rules);
      assert r in shuffled <==> r in multiset(shuffled);
    }
  }

  // Raw patterns that differ only in case or trailing dots tie: the first one wins, so
  // here the order does matter.
  lemma CaseVariantsTie(r: Rule, s: Rule, clientIp: string, name: string)
    requires Matches(r, clientIp, name) && Matches(s, clientIp, name)
    requires r.client == s.client && NormalizeDomain(r.domain) == NormalizeDomain(s.domain)
    ensures Select([r, s], clientIp, name) == Some(r)
    ensures Select([s, r], clientIp, name) == Some(s)
  {
    PairSelection(r, s, clientIp, name);
    PairSelection(s, r, clientIp, name);
  }

  lemma PairSelection(r: Rule, s: Rule, clientIp: string, name: string)
    requires Matches(r, clientIp, name) && Matches(s, clientIp, name)
    requires r.client == s.client && NormalizeDomain(r.domain) == NormalizeDomain(s.domain)
    ensures Select([r, s], clientIp, name) == Some(r)
  {
    PatternScore(r, clientIp, name);
    PatternScore(s, clientIp, name);
    var keys := RuleKeys([r, s], clientIp, name);
    assert keys == [Key(r, clientIp, name), Key(s, clientIp, name)];
    assert keys[0] == keys[1];
  }
}
