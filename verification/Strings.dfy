/** Strings as sequences of characters: the decimal numerals and the splits the programs rely on. */
module Strings {
  import opened Wrappers
  import Sequences

  predicate IsDigit(c: char) {
    '0' <= c <= '9'
  }

  predicate IsAlpha(c: char) {
    'a' <= c <= 'z' || 'A' <= c <= 'Z'
  }

  predicate AllDigits(s: string) {
    forall c | c in s :: IsDigit(c)
  }

  function DigitValue(c: char): nat
    requires IsDigit(c)
  {
    (c - '0') as nat
  }

  /** `str(n)` */
  function Decimal(n: nat): (s: string)
    ensures s != "" && AllDigits(s)
  {
    if n < 10 then [n as char + '0'] else Decimal(n / 10) + [(n % 10) as char + '0']
  }

  /** `int(s)` on a run of digits; leading zeros are harmless. */
  function ParseNat(s: string): nat
    requires AllDigits(s)
  {
    if s == "" then 0 else 10 * ParseNat(s[..|s| - 1]) + DigitValue(s[|s| - 1])
  }

  function Power10(k: nat): (p: nat)
    ensures p > 0
  {
    if k == 0 then 1 else 10 * Power10(k - 1)
  }

  lemma {:induction false} ParseDecimal(n: nat)
    ensures ParseNat(Decimal(n)) == n
  {
    if n >= 10 {
      ParseDecimal(n / 10);
      assert Decimal(n)[..|Decimal(n)| - 1] == Decimal(n / 10);
    } else {
      assert Decimal(n)[..0] == "";
    }
  }

  /** No leading zero but in "0", and no more digits than the number needs. */
  lemma {:induction false} DecimalShape(n: nat, k: nat)
    requires n < Power10(k) && k > 0
    ensures |Decimal(n)| <= k
    ensures |Decimal(n)| > 1 ==> Decimal(n)[0] != '0'
    ensures n > 0 ==> Decimal(n)[0] != '0'
  {
    if n >= 10 {
      DecimalShape(n / 10, k - 1);
    }
  }

  lemma {:induction false} DecimalInjective(m: nat, n: nat)
    requires Decimal(m) == Decimal(n)
    ensures m == n
  {
    ParseDecimal(m);
    ParseDecimal(n);
  }

  lemma {:induction false} DecimalNext(n: nat, last: char)
    requires n > 0 && IsDigit(last)
    ensures Decimal(10 * n + DigitValue(last)) == Decimal(n) + [last]
  {
    var m := 10 * n + DigitValue(last);
    assert m / 10 == n && m % 10 == DigitValue(last);
  }

  lemma {:induction false} DigitPrints(c: char)
    requires IsDigit(c)
    ensures DigitValue(c) < 10 && (c != '0' ==> DigitValue(c) > 0)
    ensures Decimal(DigitValue(c)) == [c] && ParseNat([c]) == DigitValue(c)
  {
    assert [c][..0] == "";
  }

  /** A numeral without a superfluous leading zero is the one `str` prints. */
  lemma {:induction false} DecimalParse(s: string)
    requires s != "" && AllDigits(s) && (|s| > 1 ==> s[0] != '0')
    ensures Decimal(ParseNat(s)) == s
    ensures s != "0" ==> ParseNat(s) > 0
  {
    var front, last := s[..|s| - 1], s[|s| - 1];
    assert s == front + [last];
    DigitPrints(last);
    if |s| == 1 {
      assert s == [last];
    } else {
      assert front[0] == s[0];
      DecimalParse(front);
      DecimalNext(ParseNat(front), last);
    }
  }

  lemma {:induction false} ParseNatConcat(a: string, b: string)
    requires AllDigits(a) && AllDigits(b)
    ensures AllDigits(a + b)
    ensures ParseNat(a + b) == ParseNat(a) * Power10(|b|) + ParseNat(b)
  {
    if b == "" {
      assert a + b == a;
    } else {
      var front := b[..|b| - 1];
      ParseNatConcat(a, front);
      assert (a + b)[..|a + b| - 1] == a + front;
      assert 10 * (ParseNat(a) * Power10(|front|)) == ParseNat(a) * Power10(|b|);
    }
  }

  /** The longest run of digits that ends `s`: what `re.findall("\\d+$", s)` finds. */
  function TrailingDigits(s: string): (d: string)
    ensures AllDigits(d) && |d| <= |s| && d == s[|s| - |d|..]
    ensures |d| < |s| ==> !IsDigit(s[|s| - |d| - 1])
  {
    if s == "" || !IsDigit(s[|s| - 1]) then "" else TrailingDigits(s[..|s| - 1]) + [s[|s| - 1]]
  }

  lemma {:induction false} TrailingDigitsNext(p: string, last: char)
    requires IsDigit(last)
    ensures TrailingDigits(p + [last]) == TrailingDigits(p) + [last]
  {
    assert (p + [last])[..|p|] == p;
  }

  lemma {:induction false} TrailingDigitsConcat(p: string, d: string)
    requires AllDigits(d)
    ensures TrailingDigits(p + d) == TrailingDigits(p) + d
  {
    if d == "" {
      Sequences.EmptyUnit(p);
      Sequences.EmptyUnit(TrailingDigits(p));
    } else {
      var front, last := d[..|d| - 1], d[|d| - 1];
      assert d == front + [last];
      assert IsDigit(last);
      TrailingDigitsConcat(p, front);
      Sequences.Assoc(p, front, [last]);
      TrailingDigitsNext(p + front, last);
      Sequences.Assoc(TrailingDigits(p), front, [last]);
    }
  }

  predicate StartsWith(s: string, prefix: string) {
    prefix <= s
  }

  /** `s.split(c, 1)`: None when `c` does not occur. */
  function SplitOnce(s: string, c: char): (r: Option<(string, string)>)
    ensures r.None? <==> c !in s
    ensures r.Some? ==> c !in r.value.0 && s == r.value.0 + [c] + r.value.1
  {
    if s == "" then None
    else if s[0] == c then Some(("", s[1..]))
    else match SplitOnce(s[1..], c)
      case None => None
      case Some((before, after)) => Some(([s[0]] + before, after))
  }

  /** The first separator is in only one place. */
  lemma {:induction false} FirstSeparator(a: string, b: string, a': string, b': string, c: char)
    requires c !in a && c !in a'
    requires a + [c] + b == a' + [c] + b'
    ensures a == a' && b == b'
  {
    var s := a + [c] + b;
    assert s[|a|] == c && s[|a'|] == c;
    assert forall i | 0 <= i < |a| :: s[i] == a[i];
    assert forall i | 0 <= i < |a'| :: s[i] == a'[i];
    assert |a| == |a'|;
    assert a == s[..|a|] && a' == s[..|a|];
    assert b == s[|a| + 1..] && b' == s[|a| + 1..];
  }

  lemma {:induction false} SplitOnceAt(a: string, c: char, b: string)
    requires c !in a
    ensures SplitOnce(a + [c] + b, c) == Some((a, b))
  {
    var s := a + [c] + b;
    assert s[|a|] == c;
    var r := SplitOnce(s, c).value;
    FirstSeparator(a, b, r.0, r.1, c);
  }

  /** `s.split(c)` */
  function Split(s: string, c: char): (parts: seq<string>)
    ensures |parts| >= 1
    ensures |parts| == 1 <==> c !in s
    decreases |s|
  {
    match SplitOnce(s, c)
    case None => [s]
    case Some((before, after)) => [before] + Split(after, c)
  }

  lemma {:induction false} SplitAt(a: string, c: char, b: string)
    requires c !in a
    ensures Split(a + [c] + b, c) == [a] + Split(b, c)
  {
    SplitOnceAt(a, c, b);
  }

  /** Splitting loses nothing and leaves no separator behind. */
  lemma {:induction false} SplitJoin(s: string, c: char)
    ensures Join(Split(s, c), c) == s
    ensures forall p | p in Split(s, c) :: c !in p
    decreases |s|
  {
    match SplitOnce(s, c)
    case None =>
    case Some((before, after)) => SplitJoin(after, c);
  }

  function Join(parts: seq<string>, c: char): string
    requires |parts| >= 1
  {
    if |parts| == 1 then parts[0] else parts[0] + [c] + Join(parts[1..], c)
  }

  predicate IsSpace(c: char) {
    c == ' ' || '\t' <= c <= '\r' || '\U{1C}' <= c <= '\U{1F}'
  }

  /** `s.strip()` */
  function Strip(s: string): string
    decreases |s|
  {
    if s == "" then s
    else if IsSpace(s[0]) then Strip(s[1..])
    else if IsSpace(s[|s| - 1]) then Strip(s[..|s| - 1])
    else s
  }
}
