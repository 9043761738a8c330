/** The HTML escaper's six replacement passes. */
module HtmlEscape {

  /** Every `c` replaced by `with`. */
  function Replaced(s: string, c: char, with: string): string {
    if s == "" then "" else (if s[0] == c then with else [s[0]]) + Replaced(s[1..], c, with)
  }

  /** The passes from each one on; ampersands are replaced first. */
  function Escape(s: string): string {
    AfterAmpersands(Replaced(s, '&', "&amp;"))
  }

  function AfterAmpersands(s: string): string {
    AfterLess(Replaced(s, '<', "&lt;"))
  }

  function AfterLess(s: string): string {
    AfterGreater(Replaced(s, '>', "&gt;"))
  }

  function AfterGreater(s: string): string {
    AfterQuotes(Replaced(s, '"', "&quot;"))
  }

  function AfterQuotes(s: string): string {
    Replaced(Replaced(s, '\'', "&#x27;"), '`', "&#x60;")
  }

  /** What one character comes to. */
  function Entity(c: char): string {
    if c == '&' then "&amp;"
    else if c == '<' then "&lt;"
    else if c == '>' then "&gt;"
    else if c == '"' then "&quot;"
    else if c == '\'' then "&#x27;"
    else if c == '`' then "&#x60;"
    else [c]
  }

  function EscapeEach(s: string): string {
    if s == "" then "" else Entity(s[0]) + EscapeEach(s[1..])
  }

  lemma {:induction false} ReplacedAcross(a: string, b: string, c: char, with: string)
    ensures Replaced(a + b, c, with) == Replaced(a, c, with) + Replaced(b, c, with)
  {
    if a == "" {
      assert a + b == b;
    } else {
      assert (a + b)[1..] == a[1..] + b;
      ReplacedAcross(a[1..], b, c, with);
    }
  }

  lemma {:induction false} ReplacedWithout(s: string, c: char, with: string)
    requires c !in s
    ensures Replaced(s, c, with) == s
  {
    if s != "" { ReplacedWithout(s[1..], c, with); }
  }

  lemma EscapeAcross(a: string, b: string)
    ensures Escape(a + b) == Escape(a) + Escape(b)
  {
    var (a1, b1) := (Replaced(a, '&', "&amp;"), Replaced(b, '&', "&amp;"));
    var (a2, b2) := (Replaced(a1, '<', "&lt;"), Replaced(b1, '<', "&lt;"));
    var (a3, b3) := (Replaced(a2, '>', "&gt;"), Replaced(b2, '>', "&gt;"));
    var (a4, b4) := (Replaced(a3, '"', "&quot;"), Replaced(b3, '"', "&quot;"));
    var (a5, b5) := (Replaced(a4, '\'', "&#x27;"), Replaced(b4, '\'', "&#x27;"));
    ReplacedAcross(a, b, '&', "&amp;");
    ReplacedAcross(a1, b1, '<', "&lt;");
    ReplacedAcross(a2, b2, '>', "&gt;");
    ReplacedAcross(a3, b3, '"', "&quot;");
    ReplacedAcross(a4, b4, '\'', "&#x27;");
    ReplacedAcross(a5, b5, '`', "&#x60;");
  }

  lemma ReplacedOne(d: char, c: char, with: string)
    ensures Replaced([d], c, with) == if d == c then with else [d]
  {
  }

  /** The passes after the first leave alone what they are not looking for. */
  lemma LaterPassesKeep(s: string)
    requires forall i :: 0 <= i < |s| ==> !Markup(s[i])
    ensures AfterAmpersands(s) == s
    ensures AfterLess(s) == s
    ensures AfterGreater(s) == s
    ensures AfterQuotes(s) == s
    ensures Replaced(s, '`', "&#x60;") == s
  {
    ReplacedWithout(s, '<', "&lt;");
    ReplacedWithout(s, '>', "&gt;");
    ReplacedWithout(s, '"', "&quot;");
    ReplacedWithout(s, '\'', "&#x27;");
    ReplacedWithout(s, '`', "&#x60;");
  }

  lemma EscapeOne(c: char)
    ensures Escape([c]) == Entity(c)
  {
    LaterPassesKeep(Entity(c));
    ReplacedOne(c, '&', "&amp;");
    if c != '&' {
      ReplacedOne(c, '<', "&lt;");
      if c != '<' {
        ReplacedOne(c, '>', "&gt;");
        if c != '>' {
          ReplacedOne(c, '"', "&quot;");
          if c != '"' {
            ReplacedOne(c, '\'', "&#x27;");
            ReplacedOne(c, '`', "&#x60;");
          }
        }
      }
    }
  }

  /** The six passes in turn are one pass, each character on its own: no pass
      touches what an earlier one wrote. */
  lemma {:induction false} EscapeIsOnePass(s: string)
    ensures Escape(s) == EscapeEach(s)
  {
    if s != "" {
      EscapeIsOnePass(s[1..]);
      EscapeAcross([s[0]], s[1..]);
      EscapeOne(s[0]);
      assert [s[0]] + s[1..] == s;
    }
  }

  // --- what comes out, and getting the text back

  predicate Markup(c: char) {
    c == '<' || c == '>' || c == '"' || c == '\'' || c == '`'
  }

  /** One of the six entities stands at the front. */
  predicate StartsWithEntity(s: string) {
    "&amp;" <= s || "&lt;" <= s || "&gt;" <= s || "&quot;" <= s || "&#x27;" <= s || "&#x60;" <= s
  }

  ghost predicate Safe(s: string) {
    && (forall i :: 0 <= i < |s| ==> !Markup(s[i]))
    && (forall i :: 0 <= i < |s| && s[i] == '&' ==> StartsWithEntity(s[i..]))
  }

  lemma EntityIsSafe(c: char, rest: string)
    requires Safe(rest)
    ensures Safe(Entity(c) + rest)
  {
    var (e, all) := (Entity(c), Entity(c) + rest);
    assert forall i :: 0 <= i < |e| ==> !Markup(e[i]);
    assert forall i :: 1 <= i < |e| ==> e[i] != '&';
    forall i | 0 <= i < |all| && all[i] == '&' ensures StartsWithEntity(all[i..]) {
      if i == 0 {
        assert all[0..] == all && e <= all;
      } else {
        assert all[i..] == rest[i - |e|..];
      }
    }
  }

  /** No markup character is left, and every ampersand starts an entity. */
  lemma {:induction false} EscapedIsSafe(s: string)
    ensures Safe(Escape(s))
  {
    EscapeIsOnePass(s);
    if s != "" {
      EscapedIsSafe(s[1..]);
      EscapeIsOnePass(s[1..]);
      EntityIsSafe(s[0], EscapeEach(s[1..]));
    }
  }

  /** What the front of the text stands for: a character that was escaped, or
      itself. */
  function Front(s: string): char
    requires s != ""
  {
    if "&amp;" <= s then '&'
    else if "&lt;" <= s then '<'
    else if "&gt;" <= s then '>'
    else if "&quot;" <= s then '"'
    else if "&#x27;" <= s then '\''
    else if "&#x60;" <= s then '`'
    else s[0]
  }

  /** Text that was not escaped is read one character at a time. */
  function Decode(s: string): string {
    if s == "" then ""
    else
      var e := Entity(Front(s));
      [Front(s)] + Decode(s[if e <= s then |e| else 1..])
  }

  lemma FrontIs(c: char, s: string)
    requires Entity(c) <= s
    ensures Front(s) == c
  {
    if c == '`' {
      assert s[1] == '#' && s[3] == '6';
    } else if |Entity(c)| > 1 {
      assert s[1] == Entity(c)[1];
    } else {
      assert s[0] == c;
    }
  }

  lemma DecodeOne(c: char, rest: string)
    ensures Decode(Entity(c) + rest) == [c] + Decode(rest)
  {
    FrontIs(c, Entity(c) + rest);
    assert (Entity(c) + rest)[|Entity(c)|..] == rest;
  }

  lemma {:induction false} DecodeEscaped(s: string)
    ensures Decode(Escape(s)) == s
  {
    EscapeIsOnePass(s);
    if s != "" {
      EscapeIsOnePass(s[1..]);
      DecodeEscaped(s[1..]);
      DecodeOne(s[0], EscapeEach(s[1..]));
    }
  }
}
