// The text key of a cached answer and its inverse.
module CacheKeys {
  import opened Text

  // `_cache_key`
  function CacheKey(qname: string, qtype: nat, qclass: nat): string {
    NormalizeDomain(qname) + "|" + Decimal(qtype) + "|" + Decimal(qclass)
  }

  // The greatest index holding '|', or -1.
  function LastBar(s: string): (i: int)
    ensures -1 <= i < |s|
    ensures i >= 0 ==> s[i] == '|'
    ensures forall j | i < j < |s| :: s[j] != '|'
  {
    if s == "" then -1
    else if s[|s| - 1] == '|' then |s| - 1
    else LastBar(s[..|s| - 1])
  }

  // `_split_key`: the two trailing fields, split off the right.
  function SplitKey(key: string): (string, string, string) {
    var i := LastBar(key);
    if i < 0 then (key, "", "")
    else
      var j := LastBar(key[..i]);
      if j < 0 then (key, "", "")
      else (key[..j], key[j + 1..i], key[i + 1..])
  }

  lemma {:induction false} LastBarAt(s: string, t: string)
    requires Lacks(t, '|')
    ensures LastBar(s + "|" + t) == |s|
  {
    var w := s + "|" + t;
    if t == "" {
      assert w == s + "|";
    } else {
      assert w[|w| - 1] == t[|t| - 1];
      assert w[..|w| - 1] == s + "|" + t[..|t| - 1];
      LastBarAt(s, t[..|t| - 1]);
    }
  }

  // Splitting undoes joining, even when the name itself contains a bar.
  lemma SplitUndoesKey(name: string, qtype: nat, qclass: nat)
    ensures SplitKey(CacheKey(name, qtype, qclass)) == (NormalizeDomain(name), Decimal(qtype), Decimal(qclass))
  {
    var n, a, b := NormalizeDomain(name), Decimal(qtype), Decimal(qclass);
    var head := n + "|" + a;
    var key := head + "|" + b;
    assert forall i | 0 <= i < |a| :: IsDigit(a[i]);
    assert forall i | 0 <= i < |b| :: IsDigit(b[i]);
    LastBarAt(head, b);
    LastBarAt(n, a);
    assert key[..|head|] == head && key[|head| + 1..] == b;
    assert key[..|n|] == n && key[|n| + 1..|head|] == a;
  }

  // Two questions share a key exactly when they are the same question.
  lemma KeyIdentifiesQuestion(name: string, qtype: nat, qclass: nat, name': string, qtype': nat, qclass': nat)
    ensures CacheKey(name, qtype, qclass) == CacheKey(name', qtype', qclass')
       <==> NormalizeDomain(name) == NormalizeDomain(name') && qtype == qtype' && qclass == qclass'
  {
    SplitUndoesKey(name, qtype, qclass);
    SplitUndoesKey(name', qtype', qclass');
    DecimalValue(qtype);
    DecimalValue(qtype');
    DecimalValue(qclass);
    DecimalValue(qclass');
  }
}
