/** Cleaning untrusted output (`sanitize_output` of backend/app/services/stream.py). */
module Sanitizer {
  import opened Base

  const ESC: char := 27 as char

  predicate IsParam(c: char) { '0' <= c <= '9' || c == ';' || c == '?' }

  predicate IsIntermediate(c: char) { ' ' <= c <= '/' }

  predicate IsFinal(c: char) { '@' <= c <= '~' }

  function ParamRun(s: string): (n: nat)
    ensures n <= |s|
  {
    if s == "" || !IsParam(s[0]) then 0 else 1 + ParamRun(s[1..])
  }

  function IntermediateRun(s: string): (n: nat)
    ensures n <= |s|
  {
    if s == "" || !IsIntermediate(s[0]) then 0 else 1 + IntermediateRun(s[1..])
  }

  /** The length of the escape sequence that starts here, or 0. The three character classes
      of the pattern are disjoint, so the greedy runs are the only possible match. */
  function AnsiLength(s: string): (n: nat)
    ensures n <= |s|
  {
    if |s| < 2 || s[0] != ESC || s[1] != '[' then 0
    else
      var p := 2 + ParamRun(s[2..]);
      var q := p + IntermediateRun(s[p..]);
      if q < |s| && IsFinal(s[q]) then q + 1 else 0
  }

  function StripAnsi(s: string): string
    decreases |s|
  {
    if s == "" then ""
    else
      var n := AnsiLength(s);
      if n > 0 then StripAnsi(s[n..]) else [s[0]] + StripAnsi(s[1..])
  }

  predicate IsControl(c: char) {
    var n := c as int;
    n <= 8 || n == 11 || n == 12 || 14 <= n <= 31 || n == 127
  }

  function StripControls(s: string): (r: string)
    ensures forall i :: 0 <= i < |r| ==> !IsControl(r[i])
  {
    if s == "" then ""
    else if IsControl(s[0]) then StripControls(s[1..])
    else [s[0]] + StripControls(s[1..])
  }

  /** str.replace of one character. */
  function Replace(s: string, c: char, t: string): string {
    if s == "" then "" else (if s[0] == c then t else [s[0]]) + Replace(s[1..], c, t)
  }

  /** html.escape(s): five replacements one after the other, the ampersand first. */
  function HtmlEscape(s: string): string {
    LastFour(Replace(s, '&', "&amp;"))
  }

  function LastFour(s: string): string {
    Replace(Replace(Replace(Replace(s, '<', "&lt;"), '>', "&gt;"), '"', "&quot;"), '\'', "&#x27;")
  }

  function Sanitize(text: string, maxLen: nat): string {
    Take(HtmlEscape(StripControls(StripAnsi(text))), maxLen)
  }

  function Take(s: string, n: nat): string {
    if |s| <= n then s else s[..n]
  }

  // ---- the five replacements are one substitution -----------------------------------

  function Entity(c: char): (e: string)
    ensures e != "" && forall i :: 0 <= i < |e| ==> e[i] !in {'<', '>', '"', '\''}
    ensures !IsControl(c) ==> forall i :: 0 <= i < |e| ==> !IsControl(e[i])
  {
    if c == '&' then "&amp;"
    else if c == '<' then "&lt;"
    else if c == '>' then "&gt;"
    else if c == '"' then "&quot;"
    else if c == '\'' then "&#x27;"
    else [c]
  }

  function Substitute(s: string): (r: string)
    ensures forall i :: 0 <= i < |r| ==> r[i] !in {'<', '>', '"', '\''}
    ensures (forall i :: 0 <= i < |s| ==> !IsControl(s[i])) ==>
              forall i :: 0 <= i < |r| ==> !IsControl(r[i])
  {
    if s == "" then "" else Entity(s[0]) + Substitute(s[1..])
  }

  lemma {:induction false} ReplaceJoins(a: string, b: string, c: char, t: string)
    ensures Replace(a + b, c, t) == Replace(a, c, t) + Replace(b, c, t)
  {
    if a == "" {
      assert a + b == b;
    } else {
      assert (a + b)[1..] == a[1..] + b;
      ReplaceJoins(a[1..], b, c, t);
    }
  }

  lemma {:induction false} ReplaceMissing(a: string, c: char, t: string)
    requires c !in a
    ensures Replace(a, c, t) == a
  {
    if a != "" { ReplaceMissing(a[1..], c, t); }
  }

  /** One replacement distributes over a first piece that does not hold its character. */
  lemma ReplaceAfter(a: string, b: string, c: char, t: string)
    requires c !in a
    ensures Replace(a + b, c, t) == a + Replace(b, c, t)
  {
    ReplaceJoins(a, b, c, t);
    ReplaceMissing(a, c, t);
  }

  lemma ReplaceHead(b: string, c: char, t: string)
    ensures Replace([c] + b, c, t) == t + Replace(b, c, t)
  {
    assert ([c] + b)[1..] == b;
  }

  lemma {:induction false} EscapeIsOneSubstitution(s: string)
    ensures HtmlEscape(s) == Substitute(s)
  {
    if s != "" {
      var c, rest := s[0], s[1..];
      EscapeIsOneSubstitution(rest);
      assert s == [c] + rest;
      FourMore(c, Replace(rest, '&', "&amp;"));
    }
  }

  /** The remaining replacements on the text that follows a replaced first character. */
  lemma FourMore(c: char, r1: string)
    ensures LastFour((if c == '&' then "&amp;" else [c]) + r1) == Entity(c) + LastFour(r1)
  {
    var r2 := Replace(r1, '<', "&lt;");
    var r3 := Replace(r2, '>', "&gt;");
    var r4 := Replace(r3, '"', "&quot;");
    var h1 := if c == '&' then "&amp;" else [c];
    var h2 := if c == '<' then "&lt;" else h1;
    var h3 := if c == '>' then "&gt;" else h2;
    var h4 := if c == '"' then "&quot;" else h3;
    assert Replace(h1 + r1, '<', "&lt;") == h2 + r2 by {
      if c == '<' { ReplaceHead(r1, '<', "&lt;"); } else { ReplaceAfter(h1, r1, '<', "&lt;"); }
    }
    assert Replace(h2 + r2, '>', "&gt;") == h3 + r3 by {
      if c == '>' { ReplaceHead(r2, '>', "&gt;"); } else { ReplaceAfter(h2, r2, '>', "&gt;"); }
    }
    assert Replace(h3 + r3, '"', "&quot;") == h4 + r4 by {
      if c == '"' { ReplaceHead(r3, '"', "&quot;"); } else { ReplaceAfter(h3, r3, '"', "&quot;"); }
    }
    if c == '\'' { ReplaceHead(r4, '\'', "&#x27;"); } else { ReplaceAfter(h4, r4, '\'', "&#x27;"); }
  }

  // ---- main results ------------------------------------------------------------------

  lemma {:induction false} ParamRunOf(p: string, x: string)
    requires (forall i :: 0 <= i < |p| ==> IsParam(p[i])) && (x != "" ==> !IsParam(x[0]))
    ensures ParamRun(p + x) == |p|
  {
    if p == "" {
      assert p + x == x;
    } else {
      assert (p + x)[1..] == p[1..] + x;
      ParamRunOf(p[1..], x);
    }
  }

  lemma {:induction false} IntermediateRunOf(p: string, x: string)
    requires (forall i :: 0 <= i < |p| ==> IsIntermediate(p[i])) && (x != "" ==> !IsIntermediate(x[0]))
    ensures IntermediateRun(p + x) == |p|
  {
    if p == "" {
      assert p + x == x;
    } else {
      assert (p + x)[1..] == p[1..] + x;
      IntermediateRunOf(p[1..], x);
    }
  }

  /** A complete escape sequence vanishes, whatever follows it. */
  lemma SequencesVanish(params: string, intermediates: string, last: char, rest: string)
    requires forall i :: 0 <= i < |params| ==> IsParam(params[i])
    requires forall i :: 0 <= i < |intermediates| ==> IsIntermediate(intermediates[i])
    requires IsFinal(last)
    ensures StripAnsi([ESC, '['] + params + intermediates + [last] + rest) == StripAnsi(rest)
  {
    var s := [ESC, '['] + params + intermediates + [last] + rest;
    var tail := [last] + rest;
    ParamRunOf(params, intermediates + tail);
    assert s[2..] == params + (intermediates + tail);
    IntermediateRunOf(intermediates, tail);
    var p := 2 + |params|;
    assert s[p..] == intermediates + tail;
    var q := p + |intermediates|;
    assert s[q] == last;
    assert AnsiLength(s) == q + 1;
    assert s[q + 1..] == rest;
  }

  /** Text without an escape character is not touched by the first pass. */
  lemma {:induction false} PlainTextStays(a: string, b: string)
    requires ESC !in a
    ensures StripAnsi(a + b) == a + StripAnsi(b)
  {
    if a == "" {
      assert a + b == b;
    } else {
      assert (a + b)[1..] == a[1..] + b;
      PlainTextStays(a[1..], b);
    }
  }

  lemma {:induction false} NoControlsStay(s: string)
    requires forall i :: 0 <= i < |s| ==> !IsControl(s[i])
    ensures StripControls(s) == s
  {
    if s != "" { NoControlsStay(s[1..]); }
  }

  /** Text without controls is only escaped and cut, so it can be read back when it fits. */
  lemma OrdinaryTextSurvives(text: string, maxLen: nat)
    requires forall i :: 0 <= i < |text| ==> !IsControl(text[i])
    ensures Sanitize(text, maxLen) == Take(HtmlEscape(text), maxLen)
    ensures |HtmlEscape(text)| <= maxLen ==> Unescape(Sanitize(text, maxLen)) == text
  {
    assert IsControl(ESC);
    PlainTextStays(text, "");
    assert text + "" == text;
    NoControlsStay(text);
    EscapeIsInvertible(text);
  }

  /** The result holds no stripped control and no raw angle bracket or quote, whatever the
      input and wherever it is cut. */
  lemma SanitizedIsClean(text: string, maxLen: nat)
    ensures var r := Sanitize(text, maxLen);
            && |r| <= maxLen
            && forall i :: 0 <= i < |r| ==>
                             !IsControl(r[i]) && r[i] !in {'<', '>', '"', '\''}
  {
    EscapeIsOneSubstitution(StripControls(StripAnsi(text)));
  }

  /** Reading the five entities back. */
  function Unescape(s: string): string
    decreases |s|
  {
    if s == "" then ""
    else if "&amp;" <= s then "&" + Unescape(s[5..])
    else if "&lt;" <= s then "<" + Unescape(s[4..])
    else if "&gt;" <= s then ">" + Unescape(s[4..])
    else if "&quot;" <= s then "\"" + Unescape(s[6..])
    else if "&#x27;" <= s then "'" + Unescape(s[6..])
    else [s[0]] + Unescape(s[1..])
  }

  lemma UnescapeEntity(c: char, rest: string)
    ensures Unescape(Entity(c) + rest) == [c] + Unescape(rest)
  {
    var e := Entity(c);
    assert (e + rest)[|e|..] == rest;
    assert (e + rest)[0] == e[0];
    if |e| > 1 {
      assert e <= e + rest;
      assert (e + rest)[1] == e[1];
    }
  }

  /** Until it is cut, the escaped text can be read back. */
  lemma {:induction false} EscapeIsInvertible(s: string)
    ensures Unescape(HtmlEscape(s)) == s
  {
    EscapeIsOneSubstitution(s);
    if s != "" {
      EscapeIsOneSubstitution(s[1..]);
      EscapeIsInvertible(s[1..]);
      UnescapeEntity(s[0], Substitute(s[1..]));
    }
  }

  lemma {:induction false} NothingToEscape(s: string)
    requires forall i :: 0 <= i < |s| ==> s[i] !in {'&', '<', '>', '"', '\''}
    ensures Substitute(s) == s
  {
    if s != "" {
      NothingToEscape(s[1..]);
      assert s == [s[0]] + s[1..];
    }
  }

  lemma LettersSurvive(text: string, maxLen: nat)
    requires |text| <= maxLen && forall i :: 0 <= i < |text| ==> 'a' <= text[i] <= 'z'
    ensures Sanitize(text, maxLen) == text
  {
    OrdinaryTextSurvives(text, maxLen);
    EscapeIsOneSubstitution(text);
    NothingToEscape(text);
  }
}
