// Blocklist matching: a name is blocked when it or a parent domain is listed.
module Blocklist {
  import opened Text
  import Policy

  // `domain_suffixes`
  function DomainSuffixes(qname: string): seq<string> {
    var name := NormalizeDomain(qname);
    if name == "" then [] else
      var labels := Split(name, '.');
      seq(|labels|, i requires 0 <= i < |labels| => Join(labels[i..], '.'))
  }

  // `is_blocked`
  predicate IsBlocked(blocked: set<string>, qname: string) {
    exists suffix | suffix in DomainSuffixes(qname) :: suffix in blocked
  }

  // The name itself or a domain below it.
  predicate CoveredBy(name: string, d: string) {
    name == d || EndsWith(name, "." + d)
  }

  lemma {:induction false} LabelSuffixes(s: string, i: nat, t: string)
    requires i < |Split(s, '.')|
    requires t == Join(Split(s, '.')[i..], '.')
    ensures CoveredBy(s, t)
  {
    var labels := Split(s, '.');
    if i == 0 {
      JoinSplit(s, '.');
      assert labels[0..] == labels;
    } else {
      var k := IndexOf(s, '.');
      var rest := s[k + 1..];
      assert labels[i..] == Split(rest, '.')[i - 1..];
      LabelSuffixes(rest, i - 1, t);
      if rest != t {
        assert s[|s| - |t| - 1..] == rest[|rest| - |t| - 1..];
      } else {
        assert s[|s| - |t| - 1..] == "." + t;
      }
    }
  }

  lemma {:induction false} SuffixAtLabel(s: string, t: string) returns (i: nat)
    requires CoveredBy(s, t)
    ensures i < |Split(s, '.')| && t == Join(Split(s, '.')[i..], '.')
  {
    var labels := Split(s, '.');
    if s == t {
      i := 0;
      JoinSplit(s, '.');
      assert labels[0..] == labels;
    } else {
      var k := IndexOf(s, '.');
      assert s[|s| - |t| - 1] == ("." + t)[0] == '.';
      var rest := s[k + 1..];
      assert CoveredBy(rest, t) by {
        if k < |s| - |t| - 1 {
          assert rest[|rest| - |t| - 1..] == s[|s| - |t| - 1..];
        } else {
          assert ("." + t)[1..] == t;
          assert rest == s[|s| - |t| - 1..][1..];
        }
      }
      var j := SuffixAtLabel(rest, t);
      i := j + 1;
      assert labels[i..] == Split(rest, '.')[j..];
    }
  }

  // The looked-up strings of a name are exactly the domains that cover it.
  lemma {:induction false} SuffixesExact(qname: string, t: string)
    ensures t in DomainSuffixes(qname)
       <==> NormalizeDomain(qname) != "" && CoveredBy(NormalizeDomain(qname), t)
  {
    var name := NormalizeDomain(qname);
    var suffixes := DomainSuffixes(qname);
    if t in suffixes {
      var i :| 0 <= i < |suffixes| && suffixes[i] == t;
      LabelSuffixes(name, i, t);
    }
    if name != "" && CoveredBy(name, t) {
      var i := SuffixAtLabel(name, t);
      assert suffixes[i] == t;
    }
  }

  // Label-suffix lookup in the set is suffix matching against each listed domain.
  lemma {:induction false} BlockedIffCovered(blocked: set<string>, qname: string)
    ensures IsBlocked(blocked, qname)
       <==> NormalizeDomain(qname) != "" && exists d | d in blocked :: CoveredBy(NormalizeDomain(qname), d)
  {
    forall t | t in blocked || t in DomainSuffixes(qname) {
      SuffixesExact(qname, t);
    }
  }

  // Listing d blocks the names the policy pattern "*.d" matches, and no others.
  lemma {:induction false} BlockedIffWildcardPolicy(d: string, qname: string)
    requires d != "" && Normalized(d)
    ensures IsBlocked({d}, qname) <==> Policy.Specificity("*." + d, NormalizeDomain(qname)).Some?
  {
    BlockedIffCovered({d}, qname);
    NormalizeFixpoint("*." + d);
    var pattern := "*." + d;
    assert pattern[|pattern| - 1] == d[|d| - 1];
    assert forall i | 2 <= i < |pattern| :: pattern[i] == d[i - 2];
    assert Normalized(pattern);
    assert pattern[2..] == d;
    if IsBlocked({d}, qname) {
      var e :| e in {d} && CoveredBy(NormalizeDomain(qname), e);
    }
  }

  // `apply_overrides`: verbatim entries only, order kept.
  function ApplyOverrides(domains: seq<string>, overrides: set<string>): (r: seq<string>)
    ensures forall d :: d in r <==> d in domains && d !in overrides
  {
    if domains == [] then []
    else
      var rest := ApplyOverrides(domains[1..], overrides);
      if domains[0] in overrides then rest else [domains[0]] + rest
  }

  // Overriding a name exempts it exactly when every listed parent of it is overridden too:
  // while one parent stays listed, the name is blocked.
  lemma OverrideExemptsIff(domains: seq<string>, overrides: set<string>, name: string)
    requires Normalized(name) && name != "" && name in overrides
    ensures !IsBlocked((set d | d in ApplyOverrides(domains, overrides)), name)
       <==> forall parent | parent in domains && EndsWith(name, "." + parent) :: parent in overrides
  {
    var stored := set d | d in ApplyOverrides(domains, overrides);
    NormalizeFixpoint(name);
    BlockedIffCovered(stored, name);
    if parent :| parent in domains && EndsWith(name, "." + parent) && parent !in overrides {
      assert parent in stored && CoveredBy(name, parent);
    }
    if IsBlocked(stored, name) {
      var d :| d in stored && CoveredBy(name, d);
      assert d != name;
    }
  }

  // Overriding a.example.com does not exempt it while example.com is listed.
  lemma OverrideFailsToExempt()
    ensures var stored := ApplyOverrides(["example.com", "a.example.com"], {"a.example.com"});
            "a.example.com" !in stored && IsBlocked((set d | d in stored), "a.example.com")
  {
    var listed := ["example.com", "a.example.com"];
    var name := "a.example.com";
    assert name[|name| - |".example.com"|..] == "." + listed[0];
    OverrideExemptsIff(listed, {name}, name);
  }
}
