// The name syntax that blocklists and local zones share.
module DomainNames {
  import opened Text

  predicate LabelChar(c: char) {
    'a' <= c <= 'z' || '0' <= c <= '9' || c == '-' || c == '_'
  }

  // 1 to 63 letters, digits, hyphens or underscores, no hyphen at either end.
  predicate ValidLabel(l: string) {
    && 1 <= |l| <= 63
    && (forall i | 0 <= i < |l| :: LabelChar(l[i]))
    && l[0] != '-' && l[|l| - 1] != '-'
  }

  // One or more labels, as local names allow.
  predicate NameSyntax(name: string) {
    && 1 <= |name| <= 253
    && (forall l | l in Split(name, '.') :: ValidLabel(l))
  }

  // Two or more labels, as blocklist entries need.
  predicate DomainSyntax(d: string) {
    NameSyntax(d) && |Split(d, '.')| >= 2
  }

  // The characters of a label are the small letters, the digits, the hyphen and the
  // underscore.
  lemma LabelAlphabet(k: nat, c: char)
    ensures k < 26 ==> LabelChar(('a' as int + k) as char)
    ensures k < 10 ==> LabelChar(('0' as int + k) as char)
    ensures LabelChar('-') && LabelChar('_')
    ensures LabelChar(c) ==> c == '-' || c == '_' || 0 <= c as int - 'a' as int < 26 || 0 <= c as int - '0' as int < 10
  {
  }

  // Labels of those characters joined by dots are a name, with two or more a domain.
  lemma LabelsMakeName(labels: seq<string>)
    requires labels != [] && |Join(labels, '.')| <= 253
    requires forall l | l in labels ::
               1 <= |l| <= 63 && l[0] != '-' && l[|l| - 1] != '-' && forall i | 0 <= i < |l| :: LabelChar(l[i])
    ensures NameSyntax(Join(labels, '.'))
    ensures DomainSyntax(Join(labels, '.')) <==> |labels| >= 2
  {
    forall l | l in labels
      ensures Lacks(l, '.')
    {
      assert forall i | 0 <= i < |l| :: LabelChar(l[i]) && l[i] != '.';
    }
    SplitJoin(labels, '.');
    assert labels[0] in labels;
  }

  // And nothing else is: each label of a name is such a label.
  lemma NameHasLabels(name: string)
    requires NameSyntax(name)
    ensures |name| <= 253 && Join(Split(name, '.'), '.') == name
    ensures forall l | l in Split(name, '.') ::
              1 <= |l| <= 63 && l[0] != '-' && l[|l| - 1] != '-' && forall i | 0 <= i < |l| :: LabelChar(l[i])
  {
    JoinSplit(name, '.');
  }

  lemma {:induction false} LabelOf(s: string, c: char, i: nat) returns (part: string)
    requires i < |s| && s[i] != c
    ensures part in Split(s, c) && s[i] in part
  {
    var k := IndexOf(s, c);
    if k == |s| {
      part := s;
    } else if i < k {
      part := s[..k];
      assert part[i] == s[i];
    } else {
      part := LabelOf(s[k + 1..], c, i - k - 1);
    }
  }

  predicate DomainChar(c: char) {
    LabelChar(c) || c == '.'
  }

  // What line handling needs to know of a valid name.
  predicate Clean(d: string) {
    && d != "" && d[|d| - 1] != '.'
    && forall i | 0 <= i < |d| :: DomainChar(d[i])
  }

  lemma NameIsClean(d: string)
    requires NameSyntax(d)
    ensures Clean(d)
  {
    forall i | 0 <= i < |d|
      ensures DomainChar(d[i])
    {
      if d[i] != '.' {
        var p := LabelOf(d, '.', i);
        assert ValidLabel(p);
      }
    }
    assert !ValidLabel("");
    if d[|d| - 1] == '.' {
      TrailingEmptyLabel(d);
    }
  }

  lemma CleanIsFixed(d: string)
    requires Clean(d)
    ensures Normalized(d) && NormalizeDomain(d) == d
    ensures NoSpace(d) && OneLine(d)
  {
    NormalizeFixpoint(d);
  }

  lemma {:induction false} TrailingEmptyLabel(s: string)
    requires s != "" && s[|s| - 1] == '.'
    ensures "" in Split(s, '.')
  {
    var k := IndexOf(s, '.');
    var rest := s[k + 1..];
    if rest == "" {
      assert Split("", '.') == [""];
      assert Split(s, '.')[1] == "";
    } else {
      TrailingEmptyLabel(rest);
      var j :| 0 <= j < |Split(rest, '.')| && Split(rest, '.')[j] == "";
      assert Split(s, '.')[j + 1] == "";
    }
  }
}
