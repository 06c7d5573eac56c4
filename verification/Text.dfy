// ASCII models of the Python string operations the resolver relies on.
module Text {
  import Sequences

  // ----- Case folding and trailing dots -----

  function LowerChar(c: char): char {
    if 'A' <= c <= 'Z' then (c as int + 32) as char else c
  }

  function Lower(s: string): string {
    seq(|s|, i requires 0 <= i < |s| => LowerChar(s[i]))
  }

  // `s.rstrip(".")`
  function StripDots(s: string): (r: string)
    ensures r <= s
    ensures r == "" || r[|r| - 1] != '.'
  {
    if s != "" && s[|s| - 1] == '.' then StripDots(s[..|s| - 1]) else s
  }

  function NormalizeDomain(name: string): string {
    Lower(StripDots(name))
  }

  // The names that normalisation leaves alone.
  predicate Normalized(s: string) {
    && (forall i | 0 <= i < |s| :: !('A' <= s[i] <= 'Z'))
    && (s == "" || s[|s| - 1] != '.')
  }

  lemma LowerFixed(s: string)
    requires forall i | 0 <= i < |s| :: !('A' <= s[i] <= 'Z')
    ensures Lower(s) == s
  {
    assert |Lower(s)| == |s|;
    assert forall i | 0 <= i < |s| :: Lower(s)[i] == s[i];
  }

  lemma NormalizeFixpoint(s: string)
    ensures Normalized(NormalizeDomain(s))
    ensures Normalized(s) <==> NormalizeDomain(s) == s
  {
    var t := StripDots(s);
    assert Normalized(Lower(t)) by {
      if t != "" {
        assert Lower(t)[|t| - 1] == LowerChar(t[|t| - 1]);
      }
    }
    if Normalized(s) {
      LowerFixed(s);
    }
  }

  // The capital and the small form of one letter of the alphabet.
  predicate CasePair(capital: char, small: char) {
    && 'A' <= capital <= 'Z' && 'a' <= small <= 'z'
    && capital as int - 'A' as int == small as int - 'a' as int
  }

  predicate SameLetter(a: char, b: char) {
    a == b || CasePair(a, b) || CasePair(b, a)
  }

  lemma SameLetterIff(a: char, b: char)
    ensures LowerChar(a) == LowerChar(b) <==> SameLetter(a, b)
  {
  }

  // Two strings fold to one exactly if they differ in the case of letters only.
  lemma LowerSameIff(s: string, t: string)
    ensures Lower(s) == Lower(t) <==> |s| == |t| && forall i | 0 <= i < |s| :: SameLetter(s[i], t[i])
  {
    forall i | 0 <= i < |s| && i < |t| {
      SameLetterIff(s[i], t[i]);
    }
    assert |Lower(s)| == |s| && |Lower(t)| == |t|;
    if Lower(s) == Lower(t) {
      forall i | 0 <= i < |s|
        ensures SameLetter(s[i], t[i])
      {
        assert Lower(s)[i] == LowerChar(s[i]) && Lower(t)[i] == LowerChar(t[i]);
      }
    }
  }

  // Stripping takes trailing dots and nothing else.
  lemma {:induction false} StripDotsExact(s: string, dots: nat)
    requires s == "" || s[|s| - 1] != '.'
    ensures StripDots(s + seq(dots, _ => '.')) == s
  {
    var t := s + seq(dots, _ => '.');
    if dots == 0 {
      assert t == s;
    } else {
      assert t[..|t| - 1] == s + seq(dots - 1, _ => '.');
      StripDotsExact(s, dots - 1);
    }
  }

  // ----- Suffixes and separators -----

  predicate StartsWith(s: string, t: string) {
    t <= s
  }

  predicate EndsWith(s: string, t: string) {
    |t| <= |s| && s[|s| - |t|..] == t
  }

  // Two suffixes of one string with the same length are the same suffix.
  lemma SameLengthSuffixes(s: string, t: string, u: string)
    requires EndsWith(s, t) && EndsWith(s, u) && |t| == |u|
    ensures t == u
  {
  }

  predicate Lacks(s: string, c: char) {
    forall i | 0 <= i < |s| :: s[i] != c
  }

  // The least index holding `c`, or |s| when there is none.
  function IndexOf(s: string, c: char): (i: nat)
    ensures i <= |s|
    ensures i < |s| ==> s[i] == c
    ensures forall j | 0 <= j < i :: s[j] != c
  {
    if s == "" || s[0] == c then 0 else 1 + IndexOf(s[1..], c)
  }

  lemma IndexOfLacking(s: string, c: char, t: string)
    requires Lacks(s, c)
    ensures IndexOf(s, c) == |s|
    ensures IndexOf(s + [c] + t, c) == |s|
  {
    var w := s + [c] + t;
    assert w[|s|] == c;
    assert forall j | 0 <= j < |s| :: w[j] == s[j];
  }

  // `s.split(c)`: never empty.
  function Split(s: string, c: char): (parts: seq<string>)
    ensures |parts| > 0
    ensures forall p | p in parts :: Lacks(p, c)
  {
    var i := IndexOf(s, c);
    if i == |s| then [s] else [s[..i]] + Split(s[i + 1..], c)
  }

  // `c.join(parts)`
  function Join(parts: seq<string>, c: char): string {
    if |parts| == 0 then ""
    else if |parts| == 1 then parts[0]
    else parts[0] + [c] + Join(parts[1..], c)
  }

  lemma JoinMore(a: string, rest: seq<string>, c: char)
    requires rest != []
    ensures Join([a] + rest, c) == a + [c] + Join(rest, c)
  {
    assert ([a] + rest)[1..] == rest;
  }

  lemma {:induction false} JoinSplit(s: string, c: char)
    ensures Join(Split(s, c), c) == s
  {
    var i := IndexOf(s, c);
    if i == |s| {
      assert Split(s, c) == [s];
    } else {
      Sequences.OneApart(s, i);
      JoinSplit(s[i + 1..], c);
      JoinMore(s[..i], Split(s[i + 1..], c), c);
      assert Split(s, c) == [s[..i]] + Split(s[i + 1..], c);
    }
  }

  lemma {:induction false} SplitJoin(parts: seq<string>, c: char)
    requires |parts| > 0
    requires forall p | p in parts :: Lacks(p, c)
    ensures Split(Join(parts, c), c) == parts
  {
    assert parts[0] in parts;
    if |parts| == 1 {
      IndexOfLacking(parts[0], c, "");
    } else {
      var rest := Join(parts[1..], c);
      var s := parts[0] + [c] + rest;
      assert Join(parts, c) == s;
      IndexOfLacking(parts[0], c, rest);
      SplitJoin(parts[1..], c);
      assert s[|parts[0]| + 1..] == rest;
      assert s[..|parts[0]|] == parts[0];
      assert [parts[0]] + parts[1..] == parts;
    }
  }

  // ----- Whitespace -----

  predicate IsSpace(c: char) {
    c == ' ' || '\t' <= c <= '\r' || '\U{1c}' <= c <= '\U{1f}'
  }

  // ASCII white space as Python's `strip` and `split` know it.
  lemma WhiteSpace(c: char)
    ensures IsSpace(c) <==> c in " \t\n\U{0b}\U{0c}\r\U{1c}\U{1d}\U{1e}\U{1f}"
  {
    var all := " \t\n\U{0b}\U{0c}\r\U{1c}\U{1d}\U{1e}\U{1f}";
    assert all[0] == ' ' && all[1] == '\t' && all[2] == '\n' && all[3] == '\U{0b}' && all[4] == '\U{0c}';
    assert all[5] == '\r' && all[6] == '\U{1c}' && all[7] == '\U{1d}' && all[8] == '\U{1e}' && all[9] == '\U{1f}';
  }

  function StripLeft(s: string): (r: string)
    ensures r == "" || !IsSpace(r[0])
  {
    if s != "" && IsSpace(s[0]) then StripLeft(s[1..]) else s
  }

  function StripRight(s: string): (r: string)
    ensures r <= s
    ensures r == "" || !IsSpace(r[|r| - 1])
  {
    if s != "" && IsSpace(s[|s| - 1]) then StripRight(s[..|s| - 1]) else s
  }

  // `s.strip()`
  function Strip(s: string): string {
    StripRight(StripLeft(s))
  }

  predicate NoSpace(s: string) {
    forall i | 0 <= i < |s| :: !IsSpace(s[i])
  }

  function WordLength(s: string): (i: nat)
    ensures i <= |s|
    ensures i < |s| ==> IsSpace(s[i])
    ensures forall j | 0 <= j < i :: !IsSpace(s[j])
    ensures s != "" && !IsSpace(s[0]) ==> i > 0
  {
    if s == "" || IsSpace(s[0]) then 0 else 1 + WordLength(s[1..])
  }

  // `s.split()`: the maximal runs of non-space characters.
  function Words(s: string): seq<string>
    decreases |s|
  {
    if s == "" then []
    else if IsSpace(s[0]) then Words(s[1..])
    else
      var i := WordLength(s);
      [s[..i]] + Words(s[i..])
  }

  lemma WordLengthExact(s: string, t: string)
    requires NoSpace(s)
    requires t == "" || IsSpace(t[0])
    ensures WordLength(s + t) == |s|
  {
    var w := s + t;
    assert forall j | 0 <= j < |s| :: w[j] == s[j];
    assert t != "" ==> w[|s|] == t[0];
  }

  lemma SingleWord(s: string)
    requires NoSpace(s) && s != ""
    ensures Words(s) == [s]
  {
    WordLengthExact(s, "");
    assert s + "" == s;
    assert s[|s|..] == "";
  }

  predicate Spaces(s: string) {
    forall i | 0 <= i < |s| :: IsSpace(s[i])
  }

  // Neither end is a space.
  predicate Trim(s: string) {
    s != "" && !IsSpace(s[0]) && !IsSpace(s[|s| - 1])
  }

  lemma {:induction false} StripLeftPadded(pad: string, s: string)
    requires Spaces(pad) && (s == "" || !IsSpace(s[0]))
    ensures StripLeft(pad + s) == s
  {
    if pad == "" {
      assert pad + s == s;
    } else {
      assert (pad + s)[1..] == pad[1..] + s && (pad + s)[0] == pad[0];
      StripLeftPadded(pad[1..], s);
    }
  }

  // Stripping the right keeps everything up to a character that is no space.
  lemma {:induction false} StripRightKeeps(s: string, t: string)
    requires s != "" && !IsSpace(s[|s| - 1])
    ensures StripRight(s + t) == s + StripRight(t)
  {
    if t == "" {
      assert s + t == s && s + "" == s;
    } else {
      var w := s + t;
      assert w[|w| - 1] == t[|t| - 1] && w[..|w| - 1] == s + t[..|t| - 1];
      if IsSpace(t[|t| - 1]) {
        StripRightKeeps(s, t[..|t| - 1]);
      }
    }
  }

  lemma {:induction false} StripRightSpaces(t: string)
    requires Spaces(t)
    ensures StripRight(t) == ""
  {
    if t == "" {
    } else {
      StripRightSpaces(t[..|t| - 1]);
    }
  }

  lemma StripPadded(pad: string, s: string, t: string)
    requires Spaces(pad) && s != "" && !IsSpace(s[0]) && !IsSpace(s[|s| - 1])
    ensures Strip(pad + s + t) == s + StripRight(t)
  {
    assert pad + s + t == pad + (s + t) && (s + t)[0] == s[0];
    StripLeftPadded(pad, s + t);
    StripRightKeeps(s, t);
  }

  // `strip` takes the spaces at both ends and nothing else.
  lemma StripExact(pad: string, s: string, tail: string)
    requires Spaces(pad) && Spaces(tail) && Trim(s)
    ensures Strip(pad + s + tail) == s
  {
    StripPadded(pad, s, tail);
    StripRightSpaces(tail);
    assert s + "" == s;
  }

  lemma StripSpaces(pad: string)
    requires Spaces(pad)
    ensures Strip(pad) == ""
  {
    StripLeftPadded(pad, "");
    assert pad + "" == pad;
  }

  // A word followed by a space or nothing is the first word.
  lemma WordFirst(w: string, t: string)
    requires w != "" && NoSpace(w) && (t == "" || IsSpace(t[0]))
    ensures Words(w + t) == [w] + Words(t)
  {
    WordLengthExact(w, t);
    assert (w + t)[..|w|] == w && (w + t)[|w|..] == t && (w + t)[0] == w[0];
  }

  lemma {:induction false} WordsSkip(pad: string, t: string)
    requires Spaces(pad)
    ensures Words(pad + t) == Words(t)
  {
    if pad == "" {
      assert pad + t == t;
    } else {
      assert (pad + t)[1..] == pad[1..] + t && (pad + t)[0] == pad[0];
      WordsSkip(pad[1..], t);
    }
  }

  // ----- Lines -----

  predicate IsBreak(c: char) {
    '\n' <= c <= '\r' || '\U{1c}' <= c <= '\U{1e}'
  }

  // The ASCII line breaks of Python's `splitlines`.
  lemma LineBreak(c: char)
    ensures IsBreak(c) <==> c in "\n\U{0b}\U{0c}\r\U{1c}\U{1d}\U{1e}"
  {
    var all := "\n\U{0b}\U{0c}\r\U{1c}\U{1d}\U{1e}";
    assert all[0] == '\n' && all[1] == '\U{0b}' && all[2] == '\U{0c}' && all[3] == '\r';
    assert all[4] == '\U{1c}' && all[5] == '\U{1d}' && all[6] == '\U{1e}';
  }

  predicate OneLine(s: string) {
    forall i | 0 <= i < |s| :: !IsBreak(s[i])
  }

  function LineLength(s: string): (i: nat)
    ensures i <= |s|
    ensures i < |s| ==> IsBreak(s[i])
    ensures forall j | 0 <= j < i :: !IsBreak(s[j])
  {
    if s == "" || IsBreak(s[0]) then 0 else 1 + LineLength(s[1..])
  }

  // `s.splitlines()`: "\r\n" is one break and a final break opens no new line.
  function SplitLines(s: string): seq<string>
    decreases |s|
  {
    if s == "" then [] else
      var i := LineLength(s);
      if i == |s| then [s]
      else
        var width := if s[i] == '\r' && i + 1 < |s| && s[i + 1] == '\n' then 2 else 1;
        [s[..i]] + SplitLines(s[i + width..])
  }

  // A text file holding the given lines.
  function Unlines(lines: seq<string>): string {
    if lines == [] then "" else lines[0] + "\n" + Unlines(lines[1..])
  }

  lemma {:induction false} SplitLinesUnlines(lines: seq<string>)
    requires forall l | l in lines :: OneLine(l)
    ensures SplitLines(Unlines(lines)) == lines
  {
    if lines == [] {
    } else {
      SplitLinesUnlines(lines[1..]);
      var l, rest := lines[0], Unlines(lines[1..]);
      var s := Unlines(lines);
      assert s == l + "\n" + rest;
      assert OneLine(l);
      assert s[|l|] == '\n';
      assert forall j | 0 <= j < |l| :: s[j] == l[j];
      assert LineLength(s) == |l|;
      assert s[..|l|] == l && s[|l| + 1..] == rest;
    }
  }

  predicate IsEnd(end: string) {
    end == "\n" || end == "\r\n"
  }

  // Lines, each with its own way of ending.
  function Ended(lines: seq<string>, ends: seq<string>): string
    requires |ends| == |lines|
  {
    if lines == [] then "" else lines[0] + ends[0] + Ended(lines[1..], ends[1..])
  }

  lemma LineFirst(l: string, end: string, rest: string)
    requires OneLine(l) && IsEnd(end)
    ensures SplitLines(l + end + rest) == [l] + SplitLines(rest)
  {
    var s := l + end + rest;
    assert s[|l|] == end[0] && forall j | 0 <= j < |l| :: s[j] == l[j];
    assert LineLength(s) == |l|;
    if end == "\r\n" {
      assert s[|l| + 1] == end[1];
    } else {
      assert s[|l|] == '\n';
    }
    assert s[..|l|] == l && s[|l| + |end|..] == rest;
  }

  // Each line comes back, whichever way it was ended.
  lemma {:induction false} LinesComeBack(lines: seq<string>, ends: seq<string>)
    requires |ends| == |lines| && (forall l | l in lines :: OneLine(l)) && forall end | end in ends :: IsEnd(end)
    ensures SplitLines(Ended(lines, ends)) == lines
  {
    if lines == [] {
    } else {
      LinesComeBack(lines[1..], ends[1..]);
      LineFirst(lines[0], ends[0], Ended(lines[1..], ends[1..]));
      assert lines == [lines[0]] + lines[1..];
    }
  }

  // ----- Decimal numerals -----

  predicate IsDigit(c: char) {
    '0' <= c <= '9'
  }

  predicate AllDigits(s: string) {
    forall i | 0 <= i < |s| :: IsDigit(s[i])
  }

  function DigitChar(d: nat): (c: char)
    requires d < 10
    ensures IsDigit(c)
  {
    ('0' as int + d) as char
  }

  // `str(n)` for a non-negative integer.
  function Decimal(n: nat): (s: string)
    ensures s != "" && AllDigits(s)
    ensures |s| > 1 ==> s[0] != '0'
    ensures n > 0 ==> s[0] != '0'
  {
    if n < 10 then [DigitChar(n)] else Decimal(n / 10) + [DigitChar(n % 10)]
  }

  // `int(s)` for a string of digits.
  function DigitsValue(s: string): nat
    requires AllDigits(s)
  {
    if s == "" then 0 else 10 * DigitsValue(s[..|s| - 1]) + (s[|s| - 1] as int - '0' as int)
  }

  const DIGITS := "0123456789"

  // Decimal notation: one digit for each number below ten, and one more for each factor of ten.
  lemma DecimalNotation(n: nat, d: nat)
    requires d < 10
    ensures Decimal(d) == [DIGITS[d]]
    ensures n > 0 ==> Decimal(10 * n + d) == Decimal(n) + [DIGITS[d]]
  {
    assert (10 * n + d) / 10 == n && (10 * n + d) % 10 == d;
  }

  lemma {:induction false} DecimalValue(n: nat)
    ensures DigitsValue(Decimal(n)) == n
  {
    if n >= 10 {
      DecimalValue(n / 10);
      var s := Decimal(n);
      assert s[..|s| - 1] == Decimal(n / 10);
    } else {
      assert Decimal(n)[..0] == "";
    }
  }

  // A numeral without a leading zero is the one `str` prints.
  lemma {:induction false} ValueDecimal(s: string)
    requires AllDigits(s) && s != "" && (|s| > 1 ==> s[0] != '0')
    ensures Decimal(DigitsValue(s)) == s
    ensures s[0] != '0' ==> DigitsValue(s) > 0
  {
    var init, last := s[..|s| - 1], s[|s| - 1];
    if init == "" {
      assert s == [last];
    } else {
      ValueDecimal(init);
      assert s == init + [last];
      assert DigitsValue(s) / 10 == DigitsValue(init);
    }
  }
}
