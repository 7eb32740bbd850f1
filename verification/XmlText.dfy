/** Escaping text for the JUnit report (tests/shebang-unit:803-810) and its inverse (section 4.6 of XML 1.0). */
module XmlText {
  import Sequences

  /** `${s//c/replacement}` */
  function Replace(s: string, c: char, replacement: string): string {
    if s == "" then "" else (if s[0] == c then replacement else [s[0]]) + Replace(s[1..], c, replacement)
  }

  const SPECIAL: set<char> := {'&', '<', '>', '"', '\''}

  function Entity(c: char): string
    requires c in SPECIAL
  {
    if c == '&' then "&amp;" else if c == '<' then "&lt;" else if c == '>' then "&gt;" else if c == '"' then "&quot;" else "&apos;"
  }

  /** Every special character replaced at once. */
  function Escape(s: string): string {
    if s == "" then "" else (if s[0] in SPECIAL then Entity(s[0]) else [s[0]]) + Escape(s[1..])
  }

  function EntityAt(s: string): (c: char)
  {
    if "&amp;" <= s then '&' else if "&lt;" <= s then '<' else if "&gt;" <= s then '>'
    else if "&quot;" <= s then '"' else if "&apos;" <= s then '\'' else ' '
  }

  /** The predefined entities, read from left to right. */
  function Unescape(s: string): string {
    if s == "" then ""
    else if EntityAt(s) in SPECIAL then [EntityAt(s)] + Unescape(s[|Entity(EntityAt(s))|..])
    else [s[0]] + Unescape(s[1..])
  }

  lemma {:induction false} ReplaceNothing(s: string, c: char, replacement: string)
    requires c !in s
    ensures Replace(s, c, replacement) == s
  {
    if s != "" {
      ReplaceNothing(s[1..], c, replacement);
    }
  }

  lemma {:induction false} ReplaceConcat(a: string, b: string, c: char, replacement: string)
    ensures Replace(a + b, c, replacement) == Replace(a, c, replacement) + Replace(b, c, replacement)
  {
    if a == "" {
      assert a + b == b;
    } else {
      ReplaceConcat(a[1..], b, c, replacement);
      assert (a + b)[1..] == a[1..] + b;
      Sequences.Assoc(if a[0] == c then replacement else [a[0]], Replace(a[1..], c, replacement), Replace(b, c, replacement));
    }
  }

  /** The program's five passes, the ampersand first. */
  function Passes(s: string): string {
    Replace(Replace(Replace(Replace(Replace(s, '&', "&amp;"), '<', "&lt;"), '>', "&gt;"), '"', "&quot;"), '\'', "&apos;")
  }

  lemma {:induction false} PassesConcat(a: string, b: string)
    ensures Passes(a + b) == Passes(a) + Passes(b)
  {
    ReplaceConcat(a, b, '&', "&amp;");
    var a1, b1 := Replace(a, '&', "&amp;"), Replace(b, '&', "&amp;");
    ReplaceConcat(a1, b1, '<', "&lt;");
    var a2, b2 := Replace(a1, '<', "&lt;"), Replace(b1, '<', "&lt;");
    ReplaceConcat(a2, b2, '>', "&gt;");
    var a3, b3 := Replace(a2, '>', "&gt;"), Replace(b2, '>', "&gt;");
    ReplaceConcat(a3, b3, '"', "&quot;");
    ReplaceConcat(Replace(a3, '"', "&quot;"), Replace(b3, '"', "&quot;"), '\'', "&apos;");
  }

  lemma {:induction false} ReplaceOne(c: char, replacement: string)
    ensures Replace([c], c, replacement) == replacement
  {
    assert [c][1..] == "";
  }

  lemma {:induction false} PassesOne(c: char)
    ensures Passes([c]) == if c in SPECIAL then Entity(c) else [c]
  {
    var r := if c in SPECIAL then Entity(c) else [c];
    if c in SPECIAL {
      ReplaceOne(c, Entity(c));
    }
    PassStep([c], '&', c, r);
    PassStep(if c == '&' then r else [c], '<', c, r);
    PassStep(if c in {'&', '<'} then r else [c], '>', c, r);
    PassStep(if c in {'&', '<', '>'} then r else [c], '"', c, r);
    PassStep(if c in {'&', '<', '>', '"'} then r else [c], '\'', c, r);
  }

  /** A pass leaves a character and an entity alone unless the character is the one it replaces. */
  lemma {:induction false} PassStep(s: string, pass: char, c: char, r: string)
    requires pass in SPECIAL && r == (if c in SPECIAL then Entity(c) else [c])
    requires s == [c] || (s == r && c in SPECIAL && c != pass && pass != '&')
    ensures Replace(s, pass, Entity(pass)) == if c == pass then r else s
  {
    if c == pass {
      ReplaceOne(c, r);
    } else {
      ReplaceNothing(s, pass, Entity(pass));
    }
  }

  /** Five passes, one after the other, are one simultaneous escape. */
  lemma {:induction false} PassesAreEscape(s: string)
    ensures Passes(s) == Escape(s)
  {
    if s != "" {
      assert s == [s[0]] + s[1..];
      PassesConcat([s[0]], s[1..]);
      PassesOne(s[0]);
      PassesAreEscape(s[1..]);
    }
  }

  /** The variable is reassigned by each pass. */
  method EncodeText(text: string) returns (encoded: string)
    ensures encoded == Escape(text)
  {
    encoded := Replace(text, '&', "&amp;");
    encoded := Replace(encoded, '<', "&lt;");
    encoded := Replace(encoded, '>', "&gt;");
    encoded := Replace(encoded, '"', "&quot;");
    encoded := Replace(encoded, '\'', "&apos;");
    PassesAreEscape(text);
  }

  /** Nothing in the output can be taken for markup or end an attribute. */
  lemma {:induction false} EscapeIsSafe(s: string)
    ensures forall c | c in Escape(s) :: c == '&' || c !in SPECIAL
  {
    if s != "" {
      EscapeIsSafe(s[1..]);
    }
  }

  lemma {:induction false} EntityIsRead(c: char, rest: string)
    requires c in SPECIAL
    ensures Unescape(Entity(c) + rest) == [c] + Unescape(rest)
  {
    var s := Entity(c) + rest;
    assert Entity(c) <= s && s[|Entity(c)|..] == rest;
    assert s[1] == Entity(c)[1] && s[2] == Entity(c)[2];
    assert EntityAt(s) == c;
  }

  lemma {:induction false} PlainIsRead(c: char, rest: string)
    requires c !in SPECIAL
    ensures Unescape([c] + rest) == [c] + Unescape(rest)
  {
    var s := [c] + rest;
    assert s[0] == c && s[1..] == rest;
    assert EntityAt(s) == ' ';
  }

  /** Every text is recovered from its escape. */
  lemma {:induction false} UnescapeEscape(s: string)
    ensures Unescape(Escape(s)) == s
  {
    if s != "" {
      UnescapeEscape(s[1..]);
      if s[0] in SPECIAL {
        EntityIsRead(s[0], Escape(s[1..]));
      } else {
        PlainIsRead(s[0], Escape(s[1..]));
      }
      Sequences.HeadTail(s);
    }
  }

  /** The ampersand pass must come first: run after the pass for `<`, it escapes what that pass wrote, so the two
      orders give the same text exactly when there is no `<`. */
  lemma {:induction false} AmpersandLastIsWrong(s: string)
    ensures Replace(Replace(s, '<', "&lt;"), '&', "&amp;") == Replace(Replace(s, '&', "&amp;"), '<', "&lt;") <==> '<' !in s
  {
    LengthsDiffer(s);
    if '<' !in s {
      ReplaceNothing(s, '<', "&lt;");
      NoAngle(s);
      ReplaceNothing(Replace(s, '&', "&amp;"), '<', "&lt;");
    }
  }

  function CountChar(s: string, c: char): nat {
    if s == "" then 0 else (if s[0] == c then 1 else 0) + CountChar(s[1..], c)
  }

  lemma {:induction false} NoAngle(s: string)
    requires '<' !in s
    ensures '<' !in Replace(s, '&', "&amp;")
  {
    if s != "" {
      NoAngle(s[1..]);
    }
  }

  lemma {:induction false} LengthsDiffer(s: string)
    ensures |Replace(Replace(s, '<', "&lt;"), '&', "&amp;")| ==
            |Replace(Replace(s, '&', "&amp;"), '<', "&lt;")| + 4 * CountChar(s, '<')
    ensures CountChar(s, '<') == 0 <==> '<' !in s
  {
    if s != "" {
      var c, rest := s[0], s[1..];
      LengthsDiffer(rest);
      assert s == [c] + rest;
      ReplaceConcat(if c == '<' then "&lt;" else [c], Replace(rest, '<', "&lt;"), '&', "&amp;");
      ReplaceConcat(if c == '&' then "&amp;" else [c], Replace(rest, '&', "&amp;"), '<', "&lt;");
      OneDiffers(c);
    }
  }

  lemma {:induction false} OneDiffers(c: char)
    ensures Replace([c], '<', "&lt;") == if c == '<' then "&lt;" else [c]
    ensures Replace([c], '&', "&amp;") == if c == '&' then "&amp;" else [c]
    ensures |Replace(if c == '<' then "&lt;" else [c], '&', "&amp;")| ==
            |Replace(if c == '&' then "&amp;" else [c], '<', "&lt;")| + (if c == '<' then 4 else 0)
  {
    if c == '<' {
      AngleEscaped();
      ReplaceOne('<', "&lt;");
      ReplaceNothing([c], '&', "&amp;");
    } else if c == '&' {
      ReplaceNothing("&amp;", '<', "&lt;");
      ReplaceNothing([c], '<', "&lt;");
      ReplaceOne('&', "&amp;");
    } else {
      ReplaceNothing([c], '&', "&amp;");
      ReplaceNothing([c], '<', "&lt;");
    }
  }

  lemma {:induction false} AngleEscaped()
    ensures |Replace("&lt;", '&', "&amp;")| == 8
  {
    assert "&lt;" == ['&'] + "lt;";
    ReplaceConcat(['&'], "lt;", '&', "&amp;");
    ReplaceOne('&', "&amp;");
    ReplaceNothing("lt;", '&', "&amp;");
  }
}
