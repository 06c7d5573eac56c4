// The parts of Python's `ipaddress` module the resolver calls. IPv4 text is concrete;
// the text form of an IPv6 address belongs to the library and comes in as `Ip6Text`.
module IpAddress {
  import opened Options
  import opened Text

  type Octet = n: nat | n < 256

  datatype V4 = V4(a: Octet, b: Octet, c: Octet, d: Octet)

  // ----- IPv4 text -----

  // One octet: one to three digits, no leading zero, at most 255.
  function ParseOctet(s: string): Option<Octet> {
    if s == "" || |s| > 3 || !AllDigits(s) || (|s| > 1 && s[0] == '0') then None
    else if DigitsValue(s) > 255 then None
    else Some(DigitsValue(s))
  }

  // `IPv4Address(s)`, None standing for ValueError.
  function ParseV4(s: string): Option<V4> {
    var parts := Split(s, '.');
    if |parts| != 4 then None else
      match (ParseOctet(parts[0]), ParseOctet(parts[1]), ParseOctet(parts[2]), ParseOctet(parts[3]))
      case (Some(a), Some(b), Some(c), Some(d)) => Some(V4(a, b, c, d))
      case _ => None
  }

  function TextV4(v: V4): string {
    Join([Decimal(v.a), Decimal(v.b), Decimal(v.c), Decimal(v.d)], '.')
  }

  lemma OctetText(o: Octet, s: string)
    ensures ParseOctet(s) == Some(o) <==> s == Decimal(o)
  {
    DecimalValue(o);
    assert o >= 100 ==> o / 10 / 10 < 10 && |Decimal(o / 10)| == 2;
    if ParseOctet(s) == Some(o) {
      ValueDecimal(s);
    }
  }

  // The IPv4 parser accepts exactly the formatted form of each address.
  lemma ParseV4Text(s: string, v: V4)
    ensures ParseV4(s) == Some(v) <==> s == TextV4(v)
  {
    var labels := [Decimal(v.a), Decimal(v.b), Decimal(v.c), Decimal(v.d)];
    SplitJoin(labels, '.');
    OctetText(v.a, Decimal(v.a));
    OctetText(v.b, Decimal(v.b));
    OctetText(v.c, Decimal(v.c));
    OctetText(v.d, Decimal(v.d));
    if ParseV4(s) == Some(v) {
      var parts := Split(s, '.');
      OctetText(v.a, parts[0]);
      OctetText(v.b, parts[1]);
      OctetText(v.c, parts[2]);
      OctetText(v.d, parts[3]);
      assert parts == labels;
      JoinSplit(s, '.');
    }
  }

  // The dotted quad, most significant octet first.
  lemma DottedQuad(v: V4)
    ensures TextV4(v) == Decimal(v.a) + "." + (Decimal(v.b) + "." + (Decimal(v.c) + "." + Decimal(v.d)))
  {
    JoinFour(Decimal(v.a), Decimal(v.b), Decimal(v.c), Decimal(v.d));
  }

  lemma JoinFour(a: string, b: string, c: string, d: string)
    ensures Join([a, b, c, d], '.') == a + "." + (b + "." + (c + "." + d))
  {
    assert [a, b, c, d] == [a] + [b, c, d] && [b, c, d] == [b] + [c, d] && [c, d] == [c] + [d];
    JoinMore(a, [b, c, d], '.');
    JoinMore(b, [c, d], '.');
    JoinMore(c, [d], '.');
  }

  // ----- Reverse names -----

  const IN_ADDR_ARPA := ".in-addr.arpa"

  // `IPv4Address.reverse_pointer`
  function ReverseV4(v: V4): string {
    Join([Decimal(v.d), Decimal(v.c), Decimal(v.b), Decimal(v.a)], '.') + IN_ADDR_ARPA
  }

  // Section 3.5 of RFC 1035: the octets in reverse.
  lemma ReversedQuad(v: V4)
    ensures ReverseV4(v)
         == Decimal(v.d) + "." + (Decimal(v.c) + "." + (Decimal(v.b) + "." + Decimal(v.a))) + ".in-addr.arpa"
  {
    JoinFour(Decimal(v.d), Decimal(v.c), Decimal(v.b), Decimal(v.a));
  }

  function Value(v: V4): nat {
    ((v.a * 256 + v.b) * 256 + v.c) * 256 + v.d
  }

  // `addr in IPv4Network(base/len)` with hostSize == 2^(32 - len).
  predicate InNetwork(v: V4, base: V4, hostSize: nat)
    requires hostSize > 0
  {
    Value(v) / hostSize == Value(base) / hostSize
  }

  predicate InRfc1918(v: V4) {
    || InNetwork(v, V4(10, 0, 0, 0), 0x100_0000)
    || InNetwork(v, V4(172, 16, 0, 0), 0x10_0000)
    || InNetwork(v, V4(192, 168, 0, 0), 0x1_0000)
  }

  // Section 3 of RFC 1918, octet by octet.
  predicate PrivateOctets(v: V4) {
    || v.a == 10
    || (v.a == 172 && 16 <= v.b < 32)
    || (v.a == 192 && v.b == 168)
  }

  lemma Rfc1918Octets(v: V4)
    ensures InRfc1918(v) <==> PrivateOctets(v)
  {
  }

  // The address a reverse name spells out in full, if any.
  function ReversedAddress(qname: string): Option<V4> {
    var name := StripDots(qname);
    if !EndsWith(name, IN_ADDR_ARPA) then None
    else FromLabels(Split(name[..|name| - |IN_ADDR_ARPA|], '.'))
  }

  function FromLabels(labels: seq<string>): Option<V4> {
    if |labels| != 4 then None else ParseV4(Join([labels[3], labels[2], labels[1], labels[0]], '.'))
  }

  // `_is_rfc1918_ptr`
  predicate IsPrivateReverseName(qname: string) {
    match ReversedAddress(qname)
    case Some(v) => InRfc1918(v)
    case None => false
  }

  lemma ReversedLabels(labels: seq<string>, v: V4)
    requires forall p | p in labels :: Lacks(p, '.')
    ensures FromLabels(labels) == Some(v) <==> labels == [Decimal(v.d), Decimal(v.c), Decimal(v.b), Decimal(v.a)]
  {
    if |labels| == 4 {
      SplitJoin([labels[3], labels[2], labels[1], labels[0]], '.');
      OctetText(v.a, labels[3]);
      OctetText(v.b, labels[2]);
      OctetText(v.c, labels[1]);
      OctetText(v.d, labels[0]);
    }
  }

  lemma ReverseV4Labels(v: V4)
    ensures EndsWith(ReverseV4(v), IN_ADDR_ARPA)
    ensures Split(ReverseV4(v)[..|ReverseV4(v)| - |IN_ADDR_ARPA|], '.')
         == [Decimal(v.d), Decimal(v.c), Decimal(v.b), Decimal(v.a)]
  {
    var labels := [Decimal(v.d), Decimal(v.c), Decimal(v.b), Decimal(v.a)];
    SplitJoin(labels, '.');
    var head := Join(labels, '.');
    assert ReverseV4(v)[..|head|] == head;
    assert ReverseV4(v)[|head|..] == IN_ADDR_ARPA;
  }

  lemma ReverseV4Injective(v: V4, w: V4)
    requires ReverseV4(v) == ReverseV4(w)
    ensures v == w
  {
    ReverseV4Labels(v);
    ReverseV4Labels(w);
    DecimalValue(v.a); DecimalValue(v.b); DecimalValue(v.c); DecimalValue(v.d);
    DecimalValue(w.a); DecimalValue(w.b); DecimalValue(w.c); DecimalValue(w.d);
  }

  // A name spells out an address exactly when it is that address's reverse pointer.
  lemma ReversedAddressExact(qname: string, v: V4)
    ensures ReversedAddress(qname) == Some(v) <==> StripDots(qname) == ReverseV4(v)
  {
    var name := StripDots(qname);
    ReverseV4Labels(v);
    if EndsWith(name, IN_ADDR_ARPA) {
      var head := name[..|name| - |IN_ADDR_ARPA|];
      assert name == head + IN_ADDR_ARPA;
      ReversedLabels(Split(head, '.'), v);
      JoinSplit(head, '.');
    }
  }

  // Recognition of private reverse names inverts `reverse_pointer`, on every name:
  // it accepts q iff q, trailing dots stripped, is the reverse name of a private
  // address, and that address is unique.
  lemma PrivateReverseNameExact(qname: string)
    ensures IsPrivateReverseName(qname)
       <==> exists v: V4 :: PrivateOctets(v) && StripDots(qname) == ReverseV4(v)
    ensures forall v: V4, w: V4 | StripDots(qname) == ReverseV4(v) == ReverseV4(w) :: v == w
  {
    if IsPrivateReverseName(qname) {
      var v := ReversedAddress(qname).value;
      ReversedAddressExact(qname, v);
      Rfc1918Octets(v);
    }
    if v: V4 :| PrivateOctets(v) && StripDots(qname) == ReverseV4(v) {
      ReversedAddressExact(qname, v);
      Rfc1918Octets(v);
    }
    forall v: V4, w: V4 | StripDots(qname) == ReverseV4(v) == ReverseV4(w)
      ensures v == w
    {
      ReversedAddressExact(qname, v);
      ReversedAddressExact(qname, w);
    }
  }

  // ----- Addresses of either family -----

  type Nibble = n: nat | n < 16

  // An IPv6 address as its 32 nibbles, most significant first.
  type V6 = s: seq<Nibble> | |s| == 32 witness seq(32, _ => 0)

  datatype Address = A4(v4: V4) | A6(v6: V6)

  // The library's IPv6 text functions.
  datatype Ip6Text = Ip6Text(parse: string -> Option<V6>, format: V6 -> string)

  // What the model asks of them: parsing the formatted form gives the address back.
  ghost predicate Faithful(ip6: Ip6Text) {
    forall a: V6 :: ip6.parse(ip6.format(a)) == Some(a)
  }

  // `ip_address(s)`, None standing for ValueError.
  function ParseAddress(ip6: Ip6Text, s: string): Option<Address> {
    match ParseV4(s)
    case Some(v) => Some(A4(v))
    case None =>
      match ip6.parse(s)
      case Some(v) => Some(A6(v))
      case None => None
  }

  // `str(addr)`
  function FormatAddress(ip6: Ip6Text, a: Address): string {
    match a
    case A4(v) => TextV4(v)
    case A6(v) => ip6.format(v)
  }

  lemma FormatAddressInjective(ip6: Ip6Text, a: Address, b: Address)
    requires Faithful(ip6)
    requires a.A4? == b.A4? && FormatAddress(ip6, a) == FormatAddress(ip6, b)
    ensures a == b
  {
    match (a, b)
    case (A4(v), A4(w)) =>
      ParseV4Text(TextV4(v), v);
      ParseV4Text(TextV4(w), w);
    case (A6(v), A6(w)) =>
      assert ip6.parse(ip6.format(v)) == Some(v);
      assert ip6.parse(ip6.format(w)) == Some(w);
  }

  function HexChar(n: Nibble): (c: char)
    ensures c != '.'
  {
    if n < 10 then ('0' as int + n) as char else ('a' as int + n - 10) as char
  }

  const HEX_DIGITS := "0123456789abcdef"

  lemma HexDigit(n: Nibble)
    ensures HexChar(n) == HEX_DIGITS[n]
  {
  }

  lemma HexCharInjective(m: Nibble, n: Nibble)
    requires HexChar(m) == HexChar(n)
    ensures m == n
  {
  }

  function NibbleLabels(v: V6): (labels: seq<string>)
    ensures |labels| == 32
  {
    seq(32, i requires 0 <= i < 32 => [HexChar(v[31 - i])])
  }

  const IP6_ARPA := ".ip6.arpa"

  // `addr.reverse_pointer`
  function ReversePointer(a: Address): string {
    match a
    case A4(v) => ReverseV4(v)
    case A6(v) => Join(NibbleLabels(v), '.') + IP6_ARPA
  }

  lemma NibbleLabelsInjective(v: V6, w: V6)
    requires NibbleLabels(v) == NibbleLabels(w)
    ensures v == w
  {
    forall i | 0 <= i < 32
      ensures v[i] == w[i]
    {
      assert NibbleLabels(v)[31 - i] == [HexChar(v[i])];
      assert NibbleLabels(w)[31 - i] == [HexChar(w[i])];
      HexCharInjective(v[i], w[i]);
    }
  }

  // No two addresses of either family share a reverse name.
  lemma ReversePointerInjective(a: Address, b: Address)
    requires ReversePointer(a) == ReversePointer(b)
    ensures a == b
  {
    match (a, b)
    case (A4(v), A4(w)) =>
      ReverseV4Injective(v, w);
    case (A6(v), A6(w)) =>
      var s, t := Join(NibbleLabels(v), '.'), Join(NibbleLabels(w), '.');
      assert |s| == |t|;
      assert (s + IP6_ARPA)[..|s|] == s && (t + IP6_ARPA)[..|t|] == t;
      SplitJoin(NibbleLabels(v), '.');
      SplitJoin(NibbleLabels(w), '.');
      NibbleLabelsInjective(v, w);
    case (A4(v), A6(w)) =>
      SuffixesDiffer(v, w);
    case (A6(v), A4(w)) =>
      SuffixesDiffer(w, v);
  }

  lemma EndsApart(s: string, t: string)
    ensures s + IN_ADDR_ARPA != t + IP6_ARPA
  {
    var a, b := s + IN_ADDR_ARPA, t + IP6_ARPA;
    assert a[|a| - 6] == IN_ADDR_ARPA[7] == 'r';
    assert b[|b| - 6] == IP6_ARPA[3] == '6';
  }

  lemma SuffixesDiffer(v: V4, w: V6)
    ensures ReversePointer(A4(v)) != ReversePointer(A6(w))
  {
    var s := Join([Decimal(v.d), Decimal(v.c), Decimal(v.b), Decimal(v.a)], '.');
    EndsApart(s, Join(NibbleLabels(w), '.'));
  }
}
