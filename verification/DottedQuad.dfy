/** IPv4 addresses as `ipaddress.ip_address` reads and prints them (section 3.2.2 of RFC 3986). */
module DottedQuad {
  import opened Wrappers
  import opened Strings

  const ADDRESS_LIMIT := 0x1_0000_0000

  function Dotted(a: string, b: string, c: string, d: string): string {
    a + ['.'] + (b + ['.'] + (c + ['.'] + d))
  }

  /** `ip_address(n).exploded` */
  function Quad(n: nat): string
    requires n < ADDRESS_LIMIT
  {
    Dotted(Decimal(n / 256 / 256 / 256), Decimal(n / 256 / 256 % 256), Decimal(n / 256 % 256), Decimal(n % 256))
  }

  /** One to three digits, no superfluous leading zero, at most 255. */
  predicate IsOctet(s: string) {
    1 <= |s| <= 3 && AllDigits(s) && (|s| > 1 ==> s[0] != '0') && ParseNat(s) < 256
  }

  function FromOctets(a: nat, b: nat, c: nat, d: nat): nat {
    ((a * 256 + b) * 256 + c) * 256 + d
  }

  /** `int(ip_address(s))`, which raises ValueError on anything but a dotted quad. */
  function ParseQuad(s: string): (r: Result<nat>)
    ensures r.Success? ==> r.value < ADDRESS_LIMIT
  {
    var parts := Split(s, '.');
    if |parts| == 4 && forall i | 0 <= i < 4 :: IsOctet(parts[i]) then
      Success(FromOctets(ParseNat(parts[0]), ParseNat(parts[1]), ParseNat(parts[2]), ParseNat(parts[3])))
    else
      Failure(ValueError)
  }

  lemma {:induction false} OctetPrints(k: nat)
    requires k < 256
    ensures IsOctet(Decimal(k)) && ParseNat(Decimal(k)) == k && '.' !in Decimal(k)
  {
    ParseDecimal(k);
    assert Power10(3) == 1000;
    DecimalShape(k, 3);
  }

  lemma {:induction false} FourParts(a: string, b: string, c: string, d: string)
    ensures [a] + ([b] + ([c] + [d])) == [a, b, c, d]
  {
  }

  lemma {:induction false} DottedSplits(a: string, b: string, c: string, d: string)
    requires '.' !in a && '.' !in b && '.' !in c && '.' !in d
    ensures Split(Dotted(a, b, c, d), '.') == [a, b, c, d]
  {
    var cd := c + ['.'] + d;
    var bcd := b + ['.'] + cd;
    SplitAt(a, '.', bcd);
    SplitAt(b, '.', cd);
    SplitAt(c, '.', d);
    FourParts(a, b, c, d);
  }

  lemma {:induction false} JoinsToDotted(parts: seq<string>)
    requires |parts| == 4
    ensures Join(parts, '.') == Dotted(parts[0], parts[1], parts[2], parts[3])
  {
    var p1, p2, p3 := parts[1..], parts[2..], parts[3..];
    assert p1[1..] == p2 && p2[1..] == p3;
    assert Join(p2, '.') == parts[2] + ['.'] + parts[3];
    assert Join(p1, '.') == parts[1] + ['.'] + Join(p2, '.');
    assert Join(parts, '.') == parts[0] + ['.'] + Join(p1, '.');
  }

  lemma {:induction false} OctetsOf(a: nat, b: nat, c: nat, d: nat)
    requires b < 256 && c < 256 && d < 256
    ensures var n := FromOctets(a, b, c, d);
            n / 256 / 256 / 256 == a && n / 256 / 256 % 256 == b && n / 256 % 256 == c && n % 256 == d
  {
    var ab := a * 256 + b;
    var abc := ab * 256 + c;
    var n := abc * 256 + d;
    assert n / 256 == abc && n % 256 == d;
    assert abc / 256 == ab && abc % 256 == c;
    assert ab / 256 == a && ab % 256 == b;
  }

  lemma {:induction false} ParseFour(a: string, b: string, c: string, d: string)
    requires IsOctet(a) && IsOctet(b) && IsOctet(c) && IsOctet(d)
    requires '.' !in a && '.' !in b && '.' !in c && '.' !in d
    ensures ParseQuad(Dotted(a, b, c, d)) == Success(FromOctets(ParseNat(a), ParseNat(b), ParseNat(c), ParseNat(d)))
  {
    DottedSplits(a, b, c, d);
  }

  lemma {:induction false} ParseDotted(a: nat, b: nat, c: nat, d: nat)
    requires a < 256 && b < 256 && c < 256 && d < 256
    ensures ParseQuad(Dotted(Decimal(a), Decimal(b), Decimal(c), Decimal(d))) == Success(FromOctets(a, b, c, d))
  {
    OctetPrints(a);
    OctetPrints(b);
    OctetPrints(c);
    OctetPrints(d);
    ParseFour(Decimal(a), Decimal(b), Decimal(c), Decimal(d));
  }

  /** Printing and parsing are inverse: parsing accepts exactly the printed addresses. */
  lemma {:induction false} QuadRoundTrip(n: nat)
    requires n < ADDRESS_LIMIT
    ensures ParseQuad(Quad(n)) == Success(n)
  {
    ParseDotted(n / 256 / 256 / 256, n / 256 / 256 % 256, n / 256 % 256, n % 256);
  }

  lemma {:induction false} ParseIsCanonical(s: string)
    requires ParseQuad(s).Success?
    ensures Quad(ParseQuad(s).value) == s
  {
    var parts := Split(s, '.');
    SplitJoin(s, '.');
    JoinsToDotted(parts);
    forall i | 0 <= i < 4
      ensures Decimal(ParseNat(parts[i])) == parts[i]
    {
      DecimalParse(parts[i]);
    }
    OctetsOf(ParseNat(parts[0]), ParseNat(parts[1]), ParseNat(parts[2]), ParseNat(parts[3]));
  }

  lemma {:induction false} QuadInjective(m: nat, n: nat)
    requires m < ADDRESS_LIMIT && n < ADDRESS_LIMIT
    ensures Quad(m) == Quad(n) <==> m == n
  {
    QuadRoundTrip(m);
    QuadRoundTrip(n);
  }

  /** The octets of an address are its base 256 digits, the highest first. */
  lemma {:induction false} QuadIs(a: nat, b: nat, c: nat, d: nat, n: nat)
    requires a < 256 && b < 256 && c < 256 && d < 256 && n == a * 0x100_0000 + b * 0x1_0000 + c * 0x100 + d
    ensures n < ADDRESS_LIMIT && Quad(n) == Decimal(a) + "." + Decimal(b) + "." + Decimal(c) + "." + Decimal(d)
  {
    OctetsOf(a, b, c, d);
    assert n == FromOctets(a, b, c, d);
  }
}
