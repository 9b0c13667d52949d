/** Which reports can share a fingerprint with another one without any collision of the hash:
the fields are joined by a separator that some of them may contain. */
module FingerprintFacts {
  import opened Base
  import opened Decimal
  import opened Text
  import opened Findings

  const S: string := [SEPARATOR]

  /** Another report, on a target whose id holds no separator either, has the same canonical
      text from different fields. */
  ghost predicate Confusable(t: string, x: Item) {
    exists u: string, y: Item :: SEPARATOR !in u && Twins(t, x, u, y)
  }

  predicate Twins(t: string, x: Item, u: string, y: Item) {
    Fields(t, x) != Fields(u, y) && Canonical(t, x) == Canonical(u, y)
  }

  predicate Blank(c: char) { c in WHITESPACE }

  // ---- joined lists ----------------------------------------------------------------------

  predicate AllFree(parts: seq<string>) {
    forall i :: 0 <= i < |parts| ==> SEPARATOR !in parts[i]
  }

  function Rest(post: seq<string>): string {
    if post == [] then "" else S + Join(post, SEPARATOR)
  }

  lemma JoinFirst(z: string, post: seq<string>)
    ensures Join([z] + post, SEPARATOR) == z + Rest(post)
  {
    if post != [] {
      JoinHead([z] + post, SEPARATOR);
      assert ([z] + post)[1..] == post;
    }
  }

  lemma RestHead(v: string, post: seq<string>)
    ensures Rest([v] + post) == S + (v + Rest(post))
  {
    JoinFirst(v, post);
  }

  /** A separator inside a part is no different from one between parts. */
  lemma {:induction false} Unsplit(pre: seq<string>, w: string, v: string, post: seq<string>)
    ensures Join(pre + [w + S + v] + post, SEPARATOR) == Join(pre + [w, v] + post, SEPARATOR)
  {
    hide Join, Rest;
    var a, b := pre + [w + S + v] + post, pre + [w, v] + post;
    if pre == [] {
      assert a == [w + S + v] + post && b == [w] + ([v] + post);
      JoinFirst(w + S + v, post);
      JoinFirst(w, [v] + post);
      RestHead(v, post);
      assert w + S + v + Rest(post) == w + (S + (v + Rest(post)));
    } else {
      var tail := pre[1..];
      Unsplit(tail, w, v, post);
      assert a == [pre[0]] + (tail + [w + S + v] + post) && b == [pre[0]] + (tail + [w, v] + post);
      JoinFirst(pre[0], tail + [w + S + v] + post);
      JoinFirst(pre[0], tail + [w, v] + post);
      SameRest(tail + [w + S + v] + post, tail + [w, v] + post);
    }
  }

  lemma SameRest(a: seq<string>, b: seq<string>)
    requires a != [] && b != [] && Join(a, SEPARATOR) == Join(b, SEPARATOR)
    ensures Rest(a) == Rest(b)
  {
  }

  /** A separator can be handed from one part to the next. */
  lemma Shift(pre: seq<string>, w: string, v: string, z: string, post: seq<string>)
    ensures Join(pre + [w + S + v, z] + post, SEPARATOR) == Join(pre + [w, v + S + z] + post, SEPARATOR)
  {
    Unsplit(pre, w, v, [z] + post);
    Unsplit(pre + [w], v, z, post);
    assert pre + [w + S + v] + ([z] + post) == pre + [w + S + v, z] + post;
    assert pre + [w, v] + ([z] + post) == pre + [w] + [v, z] + post;
    assert pre + [w] + [v + S + z] + post == pre + [w, v + S + z] + post;
  }

  /** Part k + 1 takes over what follows the separator at i in part k. */
  lemma HandOn(f: seq<string>, k: nat, i: nat) returns (g: seq<string>)
    requires k + 1 < |f| && i < |f[k]| && f[k][i] == SEPARATOR
    ensures g == f[k := f[k][..i]][k + 1 := f[k][i + 1..] + S + f[k + 1]]
    ensures Join(g, SEPARATOR) == Join(f, SEPARATOR)
  {
    hide Join;
    var w, v := f[k][..i], f[k][i + 1..];
    g := f[k := w][k + 1 := v + S + f[k + 1]];
    Shift(f[..k], w, v, f[k + 1], f[k + 2..]);
    assert f[k] == w + S + v;
    assert f == f[..k] + [w + S + v, f[k + 1]] + f[k + 2..];
    assert g == f[..k] + [w, v + S + f[k + 1]] + f[k + 2..];
  }

  /** Part k takes over what precedes the separator at i in part k + 1. */
  lemma HandBack(f: seq<string>, k: nat, i: nat) returns (g: seq<string>)
    requires k + 1 < |f| && i < |f[k + 1]| && f[k + 1][i] == SEPARATOR
    ensures g == f[k := f[k] + S + f[k + 1][..i]][k + 1 := f[k + 1][i + 1..]]
    ensures Join(g, SEPARATOR) == Join(f, SEPARATOR)
  {
    hide Join;
    var v, z := f[k + 1][..i], f[k + 1][i + 1..];
    g := f[k := f[k] + S + v][k + 1 := z];
    Shift(f[..k], f[k], v, z, f[k + 2..]);
    assert f[k + 1] == v + S + z;
    assert f == f[..k] + [f[k], v + S + z] + f[k + 2..];
    assert g == f[..k] + [f[k] + S + v, z] + f[k + 2..];
  }

  lemma {:induction false} FindWithin(b: string, y: string)
    requires y != "" && y[0] == SEPARATOR
    ensures Find(b + y, SEPARATOR) <= |b|
  {
    if b == "" {
      assert b + y == y;
    } else {
      assert (b + y)[1..] == b[1..] + y;
      FindWithin(b[1..], y);
    }
  }

  /** Where the first of two equal joins has no separator in its head. */
  lemma HeadsPart(a: string, x: string, b: string, y: string)
    requires SEPARATOR !in a && a + (S + x) == b + y
    requires y == "" || y[0] == SEPARATOR
    ensures (b == a && y == S + x) || a + S <= b
  {
    var whole := a + (S + x);
    FindAfter(a, S + x, SEPARATOR);
    if y == "" { assert b + y == b; } else { FindWithin(b, y); }
    assert |a| <= |b|;
    assert b == whole[..|b|] && y == whole[|b|..];
    if |b| == |a| {
      assert whole[..|a|] == a && whole[|a|..] == S + x;
    } else {
      assert whole[..|a| + 1] == a + S;
    }
  }

  function Separators(s: string): nat {
    if s == "" then 0 else Separators(s[1..]) + if s[0] == SEPARATOR then 1 else 0
  }

  lemma {:induction false} SeparatorsAdd(a: string, b: string)
    ensures Separators(a + b) == Separators(a) + Separators(b)
  {
    if a == "" {
      assert a + b == b;
    } else {
      assert (a + b)[1..] == a[1..] + b;
      SeparatorsAdd(a[1..], b);
    }
  }

  lemma {:induction false} NoSeparators(a: string)
    requires SEPARATOR !in a
    ensures Separators(a) == 0
  {
    if a != "" { NoSeparators(a[1..]); }
  }

  /** A join has one separator less than parts, and those inside the parts. */
  lemma {:induction false} SeparatorsOfJoin(parts: seq<string>)
    requires parts != []
    ensures Separators(Join(parts, SEPARATOR)) >= |parts| - 1
    ensures AllFree(parts) ==> Separators(Join(parts, SEPARATOR)) == |parts| - 1
  {
    if |parts| == 1 {
      if AllFree(parts) { NoSeparators(parts[0]); }
    } else {
      var rest := Join(parts[1..], SEPARATOR);
      JoinHead(parts, SEPARATOR);
      SeparatorsOfJoin(parts[1..]);
      SeparatorsAdd(parts[0], S + rest);
      SeparatorsAdd(S, rest);
      assert Separators(S) == 1 by { assert S[1..] == ""; }
      if AllFree(parts) { NoSeparators(parts[0]); }
    }
  }

  /** The first token is the first part, or the first part goes on after it. */
  lemma FirstToken(parts: seq<string>, tokens: seq<string>) returns (more: bool, l: seq<string>)
    requires parts != [] && |tokens| > 1 && SEPARATOR !in tokens[0]
    requires Join(parts, SEPARATOR) == Join(tokens, SEPARATOR)
    ensures if more then l != [] && l[1..] == parts[1..] && parts[0] == tokens[0] + S + l[0]
            else |parts| > 1 && l == parts[1..] && parts[0] == tokens[0]
    ensures Join(l, SEPARATOR) == Join(tokens[1..], SEPARATOR)
  {
    JoinHead(tokens, SEPARATOR);
    JoinFirst(parts[0], parts[1..]);
    assert parts == [parts[0]] + parts[1..];
    var x, y := Join(tokens[1..], SEPARATOR), Rest(parts[1..]);
    assert y == "" || y == S + Join(parts[1..], SEPARATOR);
    hide Join, Rest;
    HeadsPart(tokens[0], x, parts[0], y);
    if parts[0] == tokens[0] && y == S + x {
      more, l := false, parts[1..];
      assert x == (S + x)[1..] == y[1..];
    } else {
      var v := parts[0][|tokens[0]| + 1..];
      more, l := true, [v] + parts[1..];
      JoinFirst(v, parts[1..]);
      assert parts[0] == tokens[0] + S + v;
      AfterSame(tokens[0], x, parts[0] + y, v + y);
    }
  }

  lemma AfterSame(w: string, x: string, whole: string, y: string)
    requires w + (S + x) == whole == w + S + y
    ensures x == y
  {
    assert x == whole[|w| + 1..] == y;
  }

  /** A list of separator-free tokens is determined by its length and its join. */
  lemma {:induction false} SameCount(parts: seq<string>, tokens: seq<string>)
    requires |parts| == |tokens| > 0 && AllFree(tokens)
    requires Join(parts, SEPARATOR) == Join(tokens, SEPARATOR)
    ensures parts == tokens
    decreases |tokens|
  {
    if |tokens| > 1 {
      var more, l := FirstToken(parts, tokens);
      SeparatorsOfJoin(l);
      SeparatorsOfJoin(tokens[1..]);
      hide Join;
      if more { assert false; }
      SameCount(l, tokens[1..]);
      assert parts == [parts[0]] + parts[1..] && tokens == [tokens[0]] + tokens[1..];
    }
  }

  /** One token more than parts: some part holds two neighbouring tokens, the others one. */
  lemma {:induction false} OneExtra(parts: seq<string>, tokens: seq<string>) returns (j: nat)
    requires |parts| + 1 == |tokens| && parts != [] && AllFree(tokens)
    requires Join(parts, SEPARATOR) == Join(tokens, SEPARATOR)
    ensures j < |parts| && parts[..j] == tokens[..j]
    ensures parts[j] == tokens[j] + S + tokens[j + 1] && parts[j + 1..] == tokens[j + 2..]
    decreases |tokens|
  {
    hide Join;
    var more, l := FirstToken(parts, tokens);
    if more {
      j := 0;
      SameCount(l, tokens[1..]);
      assert parts[1..] == l[1..] == tokens[1..][1..] == tokens[2..];
    } else {
      var i := OneExtra(l, tokens[1..]);
      j := i + 1;
      assert parts[..j] == [parts[0]] + l[..i] && tokens[..j] == [tokens[0]] + tokens[1..][..i];
      assert parts[j + 1..] == l[i + 1..] == tokens[1..][i + 2..] == tokens[j + 2..];
    }
  }

  // ---- what the seven fields can be -------------------------------------------------------

  predicate EndsOk(s: string) {
    s != "" ==> !Blank(s[0]) && !Blank(s[|s| - 1])
  }

  ghost predicate IsPortText(s: string) { exists port: Option<nat> :: PortText(port) == s }

  ghost predicate ValidFields(f: seq<string>) {
    && |f| == 7
    && Lower(f[1]) == f[1] && EndsOk(f[1])
    && f[4] != ""
    && IsPortText(f[5])
    && EndsOk(f[6])
  }

  lemma AssetFieldOk(raw: string)
    ensures (var a := Lower(Trim(raw, WHITESPACE)); Lower(a) == a && EndsOk(a))
  {
    var trimmed := Trim(raw, WHITESPACE);
    TrimmedEnds(raw, WHITESPACE);
    LowerIsFixed(trimmed);
    hide Trim;
    if trimmed != "" {
      LowerAt(trimmed, 0);
      LowerAt(trimmed, |trimmed| - 1);
      LowerKeepsBlanks(trimmed[0]);
      LowerKeepsBlanks(trimmed[|trimmed| - 1]);
    }
  }

  lemma LowerKeepsBlanks(c: char)
    ensures Blank(LowerChar(c)) <==> Blank(c)
  {
  }

  lemma FieldsAreValid(t: string, x: Item)
    ensures ValidFields(Fields(t, x))
  {
    AssetFieldOk(x.report.asset);
    TrimmedEnds(x.report.key, WHITESPACE);
    hide Lower, Trim, PortText;
    assert IsPortText(PortText(x.report.port));
  }

  /** Seven texts of that kind are the fields of some report. */
  lemma FieldsAreReal(f: seq<string>) returns (u: string, y: Item)
    requires ValidFields(f)
    ensures Fields(u, y) == f
  {
    var port: Option<nat> :| PortText(port) == f[5];
    u := f[0];
    y := Item(f[2], Report(f[1], f[3], f[4], port, f[6], "INFO", "", ""));
    if f[1] != "" { TrimFixed(f[1], WHITESPACE); }
    if f[6] != "" { TrimFixed(f[6], WHITESPACE); }
    assert Fields(u, y) == f;
  }

  lemma Confuses(t: string, x: Item, g: seq<string>)
    requires ValidFields(g) && g != Fields(t, x) && SEPARATOR !in g[0]
    requires Join(g, SEPARATOR) == Join(Fields(t, x), SEPARATOR)
    ensures Confusable(t, x)
  {
    var u, y := FieldsAreReal(g);
    assert Twins(t, x, u, y);
  }

  lemma PortTextIsFree(p: string)
    requires IsPortText(p)
    ensures SEPARATOR !in p && EndsOk(p)
  {
    assert !IsDigit(SEPARATOR) && forall c :: c in WHITESPACE ==> !IsDigit(c);
  }

  // ---- which fields can be shared out differently -------------------------------------------

  /** A separator right after a character that is not blank. */
  predicate CutsAsset(a: string) {
    exists i :: 0 < i < |a| && a[i] == SEPARATOR && !Blank(a[i - 1])
  }

  /** Something follows a separator. */
  predicate GoesOn(s: string) { exists i :: 0 <= i < |s| - 1 && s[i] == SEPARATOR }

  /** The protocol ends in a separator that the port and the key can take over. */
  predicate HandsOver(f: seq<string>)
    requires |f| == 7
  {
    |f[4]| > 1 && f[4][|f[4]| - 1] == SEPARATOR && f[5] != "" && f[6] != ""
  }

  /** One token of the key, followed by another that does not start with a blank, reads as a port. */
  ghost predicate HoldsPort(key: string) { exists i: nat, j: nat :: PortAt(key, i, j) }

  ghost predicate PortAt(key: string, i: nat, j: nat) {
    && i <= j < |key| - 1 && key[j] == SEPARATOR && !Blank(key[j + 1])
    && (i == 0 || key[i - 1] == SEPARATOR)
    && IsPortText(key[i..j])
  }

  ghost predicate CanShift(f: seq<string>)
    requires |f| == 7
  {
    || SEPARATOR in f[2] || SEPARATOR in f[3]
    || CutsAsset(f[1]) || GoesOn(f[4]) || HandsOver(f) || HoldsPort(f[6])
  }

  // ---- how ----------------------------------------------------------------------------------

  lemma AssetGivesToTool(f: seq<string>) returns (g: seq<string>)
    requires ValidFields(f) && CutsAsset(f[1])
    ensures ValidFields(g) && g[0] == f[0] && g != f && Join(g, SEPARATOR) == Join(f, SEPARATOR)
  {
    var i :| 0 < i < |f[1]| && f[1][i] == SEPARATOR && !Blank(f[1][i - 1]);
    StillAnAsset(f[1], i);
    hide Lower, Join, IsPortText, EndsOk, Blank;
    g := HandOn(f, 1, i);
    assert |g[1]| < |f[1]|;
  }

  lemma StillAnAsset(a: string, i: nat)
    requires Lower(a) == a && EndsOk(a) && 0 < i < |a| && !Blank(a[i - 1])
    ensures Lower(a[..i]) == a[..i] && EndsOk(a[..i])
  {
    LowerIsFixed(a);
    LowerFixed(a[..i]);
  }

  lemma ProtocolGivesToRule(f: seq<string>) returns (g: seq<string>)
    requires ValidFields(f) && GoesOn(f[4])
    ensures ValidFields(g) && g[0] == f[0] && g != f && Join(g, SEPARATOR) == Join(f, SEPARATOR)
  {
    hide Join, Lower, IsPortText;
    var i :| 0 <= i < |f[4]| - 1 && f[4][i] == SEPARATOR;
    g := HandBack(f, 3, i);
    assert |g[4]| < |f[4]|;
  }

  lemma ProtocolGivesToPort(f: seq<string>) returns (g: seq<string>)
    requires ValidFields(f) && HandsOver(f)
    ensures ValidFields(g) && g[0] == f[0] && g != f && Join(g, SEPARATOR) == Join(f, SEPARATOR)
  {
    PortTextIsFree(f[5]);
    assert PortText(None) == "" && IsPortText("");
    hide Join, Lower, IsPortText;
    var mid := HandOn(f, 4, |f[4]| - 1);
    assert mid[5] == S + f[5];
    g := HandOn(mid, 5, 0);
    assert |g[4]| < |f[4]|;
    assert g[5] == "" && g[6] == f[5] + S + f[6];
    assert g[6][0] == f[5][0] && g[6][|g[6]| - 1] == f[6][|f[6]| - 1];
  }

  lemma KeyGivesToProtocol(f: seq<string>) returns (g: seq<string>)
    requires ValidFields(f) && HoldsPort(f[6])
    ensures ValidFields(g) && g[0] == f[0] && g != f && Join(g, SEPARATOR) == Join(f, SEPARATOR)
  {
    var key := f[6];
    var i: nat, j: nat :| PortAt(key, i, j);
    KeyParts(f[5], key, i, j);
    hide Join, Lower, IsPortText, EndsOk;
    var mid := HandBack(f, 5, j);
    g := HandBack(mid, 4, |f[5]| + i);
    assert g[6] == key[j + 1..] && |g[6]| < |key|;
  }

  lemma KeyParts(port: string, key: string, i: nat, j: nat)
    requires EndsOk(key) && PortAt(key, i, j)
    ensures EndsOk(key[j + 1..]) && IsPortText(key[i..j])
    ensures (var longer := port + S + key[..j];
             longer[|port| + i] == SEPARATOR && longer[|port| + i + 1..] == key[i..j])
  {
    hide IsPortText;
    var rest, longer := key[j + 1..], port + S + key[..j];
    assert rest[0] == key[j + 1] && rest[|rest| - 1] == key[|key| - 1];
    assert i > 0 ==> longer[|port| + i] == key[i - 1];
  }

  lemma ToolOrRuleGives(f: seq<string>) returns (g: seq<string>)
    requires ValidFields(f) && (SEPARATOR in f[2] || SEPARATOR in f[3])
    ensures ValidFields(g) && g[0] == f[0] && g != f && Join(g, SEPARATOR) == Join(f, SEPARATOR)
  {
    hide Join, Lower, IsPortText;
    if SEPARATOR in f[2] {
      g := HandOn(f, 2, Find(f[2], SEPARATOR));
      assert |g[2]| < |f[2]|;
    } else {
      g := HandBack(f, 2, Find(f[3], SEPARATOR));
      assert |g[3]| < |f[3]|;
    }
  }

  lemma Shifts(f: seq<string>) returns (g: seq<string>)
    requires ValidFields(f) && CanShift(f)
    ensures ValidFields(g) && g[0] == f[0] && g != f && Join(g, SEPARATOR) == Join(f, SEPARATOR)
  {
    assert |f| == 7;
    hide ValidFields, CutsAsset, GoesOn, HandsOver, HoldsPort, Join;
    if SEPARATOR in f[2] || SEPARATOR in f[3] { g := ToolOrRuleGives(f); }
    else if CutsAsset(f[1]) { g := AssetGivesToTool(f); }
    else if GoesOn(f[4]) { g := ProtocolGivesToRule(f); }
    else if HandsOver(f) { g := ProtocolGivesToPort(f); }
    else { g := KeyGivesToProtocol(f); }
  }

  // ---- when not -----------------------------------------------------------------------------

  /** Two cuts of one text, each at a separator. */
  lemma TwoCuts(a: string, x: string, b: string, y: string)
    requires a + (S + x) == b + (S + y)
    ensures if |a| == |b| then a == b && x == y
            else if |a| < |b| then b == a + S + b[|a| + 1..] && x == b[|a| + 1..] + (S + y)
            else a == b + S + a[|b| + 1..] && y == a[|b| + 1..] + (S + x)
  {
    var whole := a + (S + x);
    assert a == whole[..|a|] && x == whole[|a| + 1..] && whole[|a|] == SEPARATOR;
    assert b == whole[..|b|] && y == whole[|b| + 1..] && whole[|b|] == SEPARATOR;
    if |a| < |b| {
      assert b == whole[..|a|] + [whole[|a|]] + whole[|a| + 1..|b|];
      assert x == whole[|a| + 1..|b|] + ([whole[|b|]] + whole[|b| + 1..]);
    } else if |b| < |a| {
      assert a == whole[..|b|] + [whole[|b|]] + whole[|b| + 1..|a|];
      assert y == whole[|b| + 1..|a|] + ([whole[|a|]] + whole[|a| + 1..]);
    }
  }

  /** No separator comes after the one in front of a last part that has none. */
  lemma SeparatorBefore(p: string, last: string, i: nat)
    requires SEPARATOR !in last && i < |p| + 1 + |last| && (p + (S + last))[i] == SEPARATOR
    ensures i <= |p|
  {
    var whole := p + (S + last);
    assert forall j :: |p| < j < |whole| ==> whole[j] == last[j - |p| - 1] && whole[j] in last;
  }

  /** Without a separator in the last part that part is what follows the last separator. */
  lemma LastPart(a: string, x: string, b: string, y: string)
    requires SEPARATOR !in x && a + (S + x) == b + (S + y)
    ensures if |a| == |b| then a == b && x == y
            else |b| < |a| && a == b + S + a[|b| + 1..] && y == a[|b| + 1..] + (S + x)
  {
    assert (b + (S + y))[|b|] == SEPARATOR;
    SeparatorBefore(a, x, |b|);
    TwoCuts(a, x, b, y);
  }

  /** The asset stays whole; what it may gain it takes from the tool's side. */
  lemma AssetStays(a: string, x: string, b: string, y: string)
    requires EndsOk(a) && EndsOk(b) && !CutsAsset(a) && a + (S + x) == b + (S + y)
    ensures if |a| == |b| then a == b && x == y else |a| < |b| && x == b[|a| + 1..] + (S + y)
  {
    TwoCuts(a, x, b, y);
    if |b| < |a| { ShorterAssetCuts(a, b, a[|b| + 1..]); }
  }

  lemma ShorterAssetCuts(a: string, b: string, v: string)
    requires EndsOk(a) && EndsOk(b) && a == b + S + v
    ensures CutsAsset(a)
  {
    assert Blank(SEPARATOR) && a[|b|] == SEPARATOR;
    if b != "" { assert a[|b| - 1] == b[|b| - 1]; }
  }

  /** Tool, rule and protocol read from a list of other parts. */
  lemma MiddleStays(tool: string, rule: string, protocol: string, l: seq<string>)
    requires SEPARATOR !in tool && SEPARATOR !in rule && protocol != "" && !GoesOn(protocol)
    requires |l| >= 3 && Join(l, SEPARATOR) == Join([tool, rule, protocol], SEPARATOR)
    ensures |l| == 3 && l[2] != "" ==> l == [tool, rule, protocol]
    ensures |l| > 3 ==> |l| == 4 && l[3] == "" && protocol == l[2] + S
  {
    if SEPARATOR in protocol {
      var p := protocol[..|protocol| - 1];
      assert SEPARATOR !in p && protocol == p + S + "";
      Unsplit([tool, rule], p, "", []);
      assert [tool, rule, protocol] == [tool, rule] + [p + S + ""] + [];
      assert [tool, rule, p, ""] == [tool, rule] + [p, ""] + [];
      EmptyLast(tool, rule, p, l);
      hide Join;
      assert protocol == p + S;
    } else {
      SeparatorsOfJoin(l);
      SeparatorsOfJoin([tool, rule, protocol]);
      SameCount(l, [tool, rule, protocol]);
    }
  }

  lemma EmptyLast(tool: string, rule: string, p: string, l: seq<string>)
    requires SEPARATOR !in tool && SEPARATOR !in rule && SEPARATOR !in p
    requires |l| >= 3 && Join(l, SEPARATOR) == Join([tool, rule, p, ""], SEPARATOR)
    ensures |l| == 3 && l[2] != "" ==> l == [tool, rule, p + S]
    ensures |l| > 3 ==> l == [tool, rule, p, ""]
  {
    var tokens := [tool, rule, p, ""];
    SeparatorsOfJoin(l);
    SeparatorsOfJoin(tokens);
    hide Join;
    if |l| == 4 {
      SameCount(l, tokens);
    } else {
      var j := OneExtra(l, tokens);
      if j < 2 {
        assert l[2] == l[j + 1..][1 - j];
      } else {
        assert l[2] == p + S + "" == p + S;
        assert l == l[..2] + [l[2]] && l[..2] == tokens[..2] == [tool, rule];
      }
    }
  }

  lemma {:induction false} JoinLast(parts: seq<string>, last: string)
    requires parts != []
    ensures Join(parts + [last], SEPARATOR) == Join(parts, SEPARATOR) + (S + last)
  {
    if |parts| == 1 {
      JoinHead(parts + [last], SEPARATOR);
      assert (parts + [last])[1..] == [last];
    } else {
      JoinHead(parts + [last], SEPARATOR);
      JoinHead(parts, SEPARATOR);
      JoinLast(parts[1..], last);
      assert (parts + [last])[1..] == parts[1..] + [last];
      var m := Join(parts[1..], SEPARATOR);
      assert parts[0] + (S + (m + (S + last))) == parts[0] + (S + m) + (S + last);
    }
  }

  predicate FrontFixed(f: seq<string>)
    requires |f| == 7
  {
    SEPARATOR !in f[2] && SEPARATOR !in f[3] && !CutsAsset(f[1]) && !GoesOn(f[4])
  }

  /** Asset, tool, rule and protocol read from a list of other parts, the first one an asset. */
  lemma FrontStays(f: seq<string>, h: seq<string>)
    requires ValidFields(f) && FrontFixed(f)
    requires |h| >= 4 && EndsOk(h[0]) && h[3] != "" && Join(h, SEPARATOR) == Join(f[1..5], SEPARATOR)
    ensures |h| == 4 ==> h == f[1..5]
    ensures |h| > 4 ==> |h| == 5 && h[4] == "" && f[4] == h[3] + S
  {
    var a, middle := f[1], [f[2], f[3], f[4]];
    assert f[1..5] == [a] + middle;
    hide IsPortText, Lower;
    JoinHead([a] + middle, SEPARATOR);
    JoinHead(h, SEPARATOR);
    hide Join, CutsAsset, GoesOn;
    AssetStays(a, Join(middle, SEPARATOR), h[0], Join(h[1..], SEPARATOR));
    if |h[0]| == |a| {
      MiddleStays(f[2], f[3], f[4], h[1..]);
      assert h == [h[0]] + h[1..];
    } else {
      var l := [h[0][|a| + 1..]] + h[1..];
      JoinHead(l, SEPARATOR);
      assert l[1..] == h[1..] && l[3] == h[3];
      MiddleStays(f[2], f[3], f[4], l);
      assert false;
    }
  }

  lemma KeyStays(f: seq<string>, g: seq<string>)
    requires ValidFields(f) && ValidFields(g) && !HoldsPort(f[6])
    requires Join(f[1..], SEPARATOR) == Join(g[1..], SEPARATOR)
    ensures || (Join(f[1..6], SEPARATOR) == Join(g[1..6], SEPARATOR) && g[6] == f[6])
            || exists z: string :: g[6] == z + (S + f[6])
                                   && Join(f[1..6], SEPARATOR) == Join(g[1..6] + [z], SEPARATOR)
  {
    hide Lower, IsPortText;
    var a, b := Join(f[1..6], SEPARATOR), Join(g[1..6], SEPARATOR);
    assert f[1..] == f[1..6] + [f[6]] && g[1..] == g[1..6] + [g[6]];
    JoinLast(f[1..6], f[6]);
    JoinLast(g[1..6], g[6]);
    TwoCuts(a, f[6], b, g[6]);
    if |b| < |a| {
      var z := a[|b| + 1..];
      JoinLast(g[1..6], z);
      assert a == b + (S + z);
    } else if |a| < |b| {
      var z := b[|a| + 1..];
      JoinLast(g[1..5], g[5]);
      assert g[1..6] == g[1..5] + [g[5]];
      PortTextIsFree(g[5]);
      hide Join;
      assert a + (S + z) == b;
      LastPart(Join(g[1..5], SEPARATOR), g[5], a, z);
      PortInKey(f[6], z, g[5], g[6]);
    }
  }

  lemma PortInKey(key: string, z: string, port: string, rest: string)
    requires EndsOk(key) && EndsOk(rest) && key == z + (S + rest) && IsPortText(port)
    requires z == port || exists w: string :: z == w + (S + port)
    ensures HoldsPort(key)
  {
    KeyEnds(key, z, rest);
    assert key[|z|] == SEPARATOR && key[|z| + 1] == rest[0];
    var i := |z| - |port|;
    assert key[i..|z|] == port;
    assert PortAt(key, i, |z|);
  }

  lemma PortStays(f: seq<string>, g: seq<string>)
    requires ValidFields(f) && ValidFields(g) && Join(f[1..6], SEPARATOR) == Join(g[1..6], SEPARATOR)
    ensures f[5] == g[5] && Join(f[1..5], SEPARATOR) == Join(g[1..5], SEPARATOR)
  {
    PortTextIsFree(f[5]);
    PortTextIsFree(g[5]);
    hide Lower, IsPortText;
    assert f[1..6] == f[1..5] + [f[5]] && g[1..6] == g[1..5] + [g[5]];
    JoinLast(f[1..5], f[5]);
    JoinLast(g[1..5], g[5]);
    hide Join;
    LastPart(Join(f[1..5], SEPARATOR), f[5], Join(g[1..5], SEPARATOR), g[5]);
    LastPart(Join(g[1..5], SEPARATOR), g[5], Join(f[1..5], SEPARATOR), f[5]);
  }

  /** The other key can only be longer by the port, which needs the end of the protocol. */
  lemma KeyTakesPort(f: seq<string>, g: seq<string>, z: string)
    requires ValidFields(f) && ValidFields(g) && FrontFixed(f)
    requires g[6] == z + (S + f[6]) && Join(f[1..6], SEPARATOR) == Join(g[1..6] + [z], SEPARATOR)
    ensures HandsOver(f)
  {
    PortTextIsFree(f[5]);
    hide Lower, IsPortText, FrontFixed;
    assert f[1..6] == f[1..5] + [f[5]];
    JoinLast(f[1..5], f[5]);
    JoinLast(g[1..6], z);
    var a, b := Join(f[1..5], SEPARATOR), Join(g[1..6], SEPARATOR);
    hide Join;
    LastPart(a, f[5], b, z);
    if |a| == |b| {
      FrontStays(f, g[1..6]);
      KeyEnds(g[6], z, f[6]);
    } else {
      var w := a[|b| + 1..];
      JoinLast(g[1..6], w);
      FrontStays(f, g[1..6] + [w]);
      assert false;
    }
  }

  lemma KeyEnds(key: string, z: string, rest: string)
    requires EndsOk(key) && key == z + (S + rest)
    ensures z != "" && rest != ""
  {
    assert Blank(SEPARATOR) && key[|z|] == SEPARATOR;
  }

  lemma NothingElse(f: seq<string>, g: seq<string>)
    requires ValidFields(f) && ValidFields(g) && !CanShift(f)
    requires SEPARATOR !in f[0] && SEPARATOR !in g[0] && Join(f, SEPARATOR) == Join(g, SEPARATOR)
    ensures f == g
  {
    JoinHead(f, SEPARATOR);
    JoinHead(g, SEPARATOR);
    hide Join, Lower, IsPortText;
    HeadsAgree(f[0], Join(f[1..], SEPARATOR), g[0], Join(g[1..], SEPARATOR), SEPARATOR);
    KeyStays(f, g);
    if z: string :| g[6] == z + (S + f[6]) && Join(f[1..6], SEPARATOR) == Join(g[1..6] + [z], SEPARATOR) {
      KeyTakesPort(f, g, z);
    } else {
      PortStays(f, g);
      FrontStays(f, g[1..5]);
      assert f == [f[0]] + f[1..5] + [f[5], f[6]] && g == [g[0]] + g[1..5] + [g[5], g[6]];
    }
  }

  // ---- exactly which reports ----------------------------------------------------------------

  /** A report shares its canonical text with one of other fields if and only if its fields can
      be shared out differently: a separator in the tool or the rule, one in the asset after a
      character that is not blank, one in the protocol before anything or at its end in front of
      a port and a key, or a token in the key that reads as a port. */
  lemma ConfusableExactlyWhen(t: string, x: Item)
    requires SEPARATOR !in t
    ensures Confusable(t, x) <==> CanShift(Fields(t, x))
  {
    var f := Fields(t, x);
    assert f[0] == t;
    FieldsAreValid(t, x);
    hide ValidFields, CanShift, Fields;
    if CanShift(f) {
      var g := Shifts(f);
      Confuses(t, x, g);
    }
    forall u: string, y: Item | SEPARATOR !in u && Twins(t, x, u, y) ensures CanShift(f) {
      assert Fields(u, y)[0] == u by { TargetFirst(u, y); }
      FieldsAreValid(u, y);
      if !CanShift(f) { NothingElse(f, Fields(u, y)); }
    }
  }

  lemma TargetFirst(t: string, x: Item)
    ensures Fields(t, x)[0] == t
  {
  }

  /** A report without the separator in any field has no twin, whatever the other one and its
      target hold. */
  lemma NoSeparatorNoTwin(t: string, x: Item, u: string, y: Item)
    requires AllFree(Fields(t, x))
    ensures !Twins(t, x, u, y)
  {
    hide Fields;
    if Canonical(t, x) == Canonical(u, y) { SameCount(Fields(u, y), Fields(t, x)); }
  }

  // ---- what one adapter can produce ---------------------------------------------------------

  /** A finding as the nuclei adapter builds it: the rule is the template id, and the key repeats
      it before the matcher's name, up to KEY_LIMIT. Host, template id, matcher and port come
      from the output. */
  function NucleiItem(host: string, template: string, matcher: string, port: Option<nat>): Item {
    Item("nuclei", Report(host, template, "tcp", port, NucleiKey(template, matcher), "INFO", template, ""))
  }

  const KEY_LIMIT := 200

  function NucleiKey(template: string, matcher: string): string {
    var key := template + "|" + matcher;
    if |key| <= KEY_LIMIT then key else key[..KEY_LIMIT]
  }

  lemma NucleiFields(t: string, host: string, id: string, matcher: string, port: Option<nat>)
    requires id != "" && !Blank(id[0]) && matcher != "" && !Blank(matcher[|matcher| - 1])
    requires |id + "|" + matcher| <= KEY_LIMIT
    ensures Fields(t, NucleiItem(host, id, matcher, port))
         == [t, Lower(Trim(host, WHITESPACE)), "nuclei", id, "tcp", PortText(port), id + "|" + matcher]
  {
    var key := id + "|" + matcher;
    assert key[0] == id[0] && key[|key| - 1] == matcher[|matcher| - 1];
    TrimFixed(key, WHITESPACE);
    hide Lower, Trim, PortText;
  }

  /** Two lines of one output with one fingerprint: the template id of one holds what the other
      reports as template id, port and start of the key. */
  lemma TemplateIdsConfuse(t: string, host: string, id: string, port: Option<nat>, k: string,
                           otherPort: Option<nat>, matcher: string)
    requires id != "" && !Blank(id[0]) && matcher != "" && !Blank(matcher[|matcher| - 1])
    requires 3 * |id| + 2 * |k| + |matcher| + |PortText(port)| + |PortText(otherPort)| + 15 <= KEY_LIMIT
    ensures (var long := id + S + "tcp" + S + PortText(port) + S + (id + "|" + k);
             var tail := k + S + "tcp" + S + PortText(otherPort) + S + (long + "|" + matcher);
             Twins(t, NucleiItem(host, long, matcher, otherPort), t, NucleiItem(host, id, tail, port)))
  {
    var p, q := PortText(port), PortText(otherPort);
    var long := id + S + "tcp" + S + p + S + (id + "|" + k);
    var keyX := long + "|" + matcher;
    var tail := k + S + "tcp" + S + q + S + keyX;
    assert long[0] == id[0] && tail[|tail| - 1] == matcher[|matcher| - 1];
    NucleiFields(t, host, long, matcher, otherPort);
    NucleiFields(t, host, id, tail, port);
    hide Fields, NucleiItem, PortText, Join;
    var f, g := Fields(t, NucleiItem(host, long, matcher, otherPort)), Fields(t, NucleiItem(host, id, tail, port));
    assert id + "|" + tail == (id + "|" + k) + S + "tcp" + S + q + S + keyX;
    assert |f[3]| > |g[3]|;
    SameText(f, g, id, p, id + "|" + k, q, keyX);
  }

  lemma SameText(f: seq<string>, g: seq<string>, id: string, p: string, k: string, q: string, key: string)
    requires |f| == |g| == 7 && f[..3] == g[..3]
    requires f[3..] == [id + S + "tcp" + S + p + S + k, "tcp", q, key]
    requires g[3..] == [id, "tcp", p, k + S + "tcp" + S + q + S + key]
    ensures Join(f, SEPARATOR) == Join(g, SEPARATOR)
  {
    var pre := f[..3];
    var tokens := pre + [id, "tcp", p, k, "tcp", q, key];
    Unsplit(pre, id + S + "tcp" + S + p, k, ["tcp", q, key]);
    Unsplit(pre, id + S + "tcp", p, [k, "tcp", q, key]);
    Unsplit(pre, id, "tcp", [p, k, "tcp", q, key]);
    assert f == pre + [id + S + "tcp" + S + p + S + k] + ["tcp", q, key];
    assert pre + [id + S + "tcp" + S + p, k] + ["tcp", q, key]
        == pre + [id + S + "tcp" + S + p] + [k, "tcp", q, key];
    assert pre + [id + S + "tcp", p] + [k, "tcp", q, key] == pre + [id + S + "tcp"] + [p, k, "tcp", q, key];
    assert pre + [id, "tcp"] + [p, k, "tcp", q, key] == tokens;
    var post := pre + [id, "tcp", p];
    Unsplit(post, k + S + "tcp" + S + q, key, []);
    Unsplit(post, k + S + "tcp", q, [key]);
    Unsplit(post, k, "tcp", [q, key]);
    assert g == post + [k + S + "tcp" + S + q + S + key] + [];
    assert post + [k + S + "tcp" + S + q, key] + [] == post + [k + S + "tcp" + S + q] + [key];
    assert post + [k + S + "tcp", q] + [key] == post + [k + S + "tcp"] + [q, key];
    assert post + [k, "tcp"] + [q, key] == tokens;
  }
}
