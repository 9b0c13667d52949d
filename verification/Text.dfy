/** The Python string operations the parsers use, on ASCII text. */
module Text {

  /** What str.strip() and int() take for white space. */
  const WHITESPACE: set<char> :=
    {' ', '\t', '\n', 11 as char, 12 as char, '\r', 28 as char, 29 as char, 30 as char, 31 as char}

  function LowerChar(c: char): char {
    if 'A' <= c <= 'Z' then c - 'A' + 'a' else c
  }

  /** str.lower. */
  function Lower(s: string): string {
    if s == "" then "" else [LowerChar(s[0])] + Lower(s[1..])
  }

  function UpperChar(c: char): char {
    if 'a' <= c <= 'z' then c - 'a' + 'A' else c
  }

  /** str.upper. */
  function Upper(s: string): string {
    if s == "" then "" else [UpperChar(s[0])] + Upper(s[1..])
  }

  function TrimLeft(s: string, cut: set<char>): string {
    if s == "" || s[0] !in cut then s else TrimLeft(s[1..], cut)
  }

  function TrimRight(s: string, cut: set<char>): string {
    if s == "" || s[|s| - 1] !in cut then s else TrimRight(s[..|s| - 1], cut)
  }

  /** str.strip(chars). */
  function Trim(s: string, cut: set<char>): string { TrimRight(TrimLeft(s, cut), cut) }

  lemma {:induction false} LowerFixed(s: string)
    requires forall i :: 0 <= i < |s| ==> !('A' <= s[i] <= 'Z')
    ensures Lower(s) == s
  {
    if s != "" { LowerFixed(s[1..]); }
  }

  lemma {:induction false} LowerIsFixed(s: string)
    ensures Lower(Lower(s)) == Lower(s)
    ensures |Lower(s)| == |s|
    ensures forall i :: 0 <= i < |Lower(s)| ==> !('A' <= Lower(s)[i] <= 'Z')
  {
    if s != "" { LowerIsFixed(s[1..]); }
  }

  /** Lower case changes the letters A to Z and nothing else. */
  lemma {:induction false} LowerAt(s: string, i: nat)
    requires i < |s|
    ensures |Lower(s)| == |s| && Lower(s)[i] == LowerChar(s[i])
    ensures Lower(s)[i] == if 'A' <= s[i] <= 'Z' then (s[i] as int + 32) as char else s[i]
  {
    LowerIsFixed(s);
    if i > 0 { LowerAt(s[1..], i - 1); }
  }

  lemma TrimFixed(s: string, cut: set<char>)
    requires s != "" && s[0] !in cut && s[|s| - 1] !in cut
    ensures Trim(s, cut) == s
  {
  }

  /** What is left has no cut character at either end. */
  lemma {:induction false} TrimmedEnds(s: string, cut: set<char>)
    ensures (var t := Trim(s, cut); t != "" ==> t[0] !in cut && t[|t| - 1] !in cut)
  {
    LeftEnd(s, cut);
    RightEnd(TrimLeft(s, cut), cut);
  }

  lemma {:induction false} LeftEnd(s: string, cut: set<char>)
    ensures (var t := TrimLeft(s, cut); t != "" ==> t[0] !in cut)
  {
    if s != "" && s[0] in cut { LeftEnd(s[1..], cut); }
  }

  lemma {:induction false} RightEnd(s: string, cut: set<char>)
    ensures (var t := TrimRight(s, cut);
             t <= s && (t != "" ==> t[|t| - 1] !in cut))
  {
    if s != "" && s[|s| - 1] in cut { RightEnd(s[..|s| - 1], cut); }
  }

  predicate EndsWith(s: string, suffix: string) {
    |suffix| <= |s| && s[|s| - |suffix|..] == suffix
  }

  /** Every occurrence of a character removed: str.replace(c, ""). */
  function Drop(s: string, c: char): string {
    if s == "" then "" else (if s[0] == c then "" else [s[0]]) + Drop(s[1..], c)
  }

  lemma {:induction false} DropMissing(s: string, c: char)
    requires c !in s
    ensures Drop(s, c) == s
  {
    if s != "" { DropMissing(s[1..], c); }
  }

  /** The position of the first occurrence, or the length. */
  function Find(s: string, c: char): (n: nat)
    ensures n <= |s| && (n < |s| ==> s[n] == c)
    ensures c in s ==> n < |s|
    ensures c !in s[..n]
  {
    if s == "" || s[0] == c then 0 else 1 + Find(s[1..], c)
  }

  /** str.split(c). */
  function Split(s: string, c: char): (parts: seq<string>)
    ensures parts != []
    decreases |s|
  {
    var n := Find(s, c);
    if n == |s| then [s] else [s[..n]] + Split(s[n + 1..], c)
  }

  /** c.join(parts). */
  function Join(parts: seq<string>, c: char): string {
    if parts == [] then ""
    else if |parts| == 1 then parts[0]
    else parts[0] + [c] + Join(parts[1..], c)
  }

  lemma {:induction false} FindAfter(a: string, b: string, c: char)
    requires c !in a && (b == "" || b[0] == c)
    ensures Find(a + b, c) == |a|
  {
    if a == "" {
      assert a + b == b;
    } else {
      assert (a + b)[1..] == a[1..] + b;
      FindAfter(a[1..], b, c);
    }
  }

  lemma {:induction false} SplitOfJoin(parts: seq<string>, c: char)
    requires parts != [] && forall i :: 0 <= i < |parts| ==> c !in parts[i]
    ensures Split(Join(parts, c), c) == parts
  {
    var head := parts[0];
    if |parts| == 1 {
      assert head + "" == head;
      FindAfter(head, "", c);
    } else {
      var rest := [c] + Join(parts[1..], c);
      assert Join(parts, c) == head + rest;
      FindAfter(head, rest, c);
      assert (head + rest)[..|head|] == head;
      assert (head + rest)[|head| + 1..] == Join(parts[1..], c);
      SplitOfJoin(parts[1..], c);
    }
  }

  /** Two heads without the separator end where it first occurs. */
  lemma HeadsAgree(a: string, x: string, b: string, y: string, c: char)
    requires c !in a && c !in b && a + ([c] + x) == b + ([c] + y)
    ensures a == b && x == y
  {
    FindAfter(a, [c] + x, c);
    FindAfter(b, [c] + y, c);
    var whole := a + ([c] + x);
    assert a == whole[..|a|] && b == whole[..|b|];
    assert x == whole[|a| + 1..] && y == whole[|b| + 1..];
  }

  lemma JoinHead(parts: seq<string>, c: char)
    requires |parts| > 1
    ensures Join(parts, c) == parts[0] + ([c] + Join(parts[1..], c))
  {
    assert parts[0] + [c] + Join(parts[1..], c) == parts[0] + ([c] + Join(parts[1..], c));
  }

  /** Lists of the same length that agree once joined are equal, when no part but the last holds
      the separator. */
  lemma {:induction false} JoinIdentifies(a: seq<string>, b: seq<string>, c: char)
    requires |a| == |b| > 0
    requires forall i :: 0 <= i < |a| - 1 ==> c !in a[i] && c !in b[i]
    requires Join(a, c) == Join(b, c)
    ensures a == b
  {
    if |a| > 1 {
      JoinHead(a, c);
      JoinHead(b, c);
      hide Join;
      HeadsAgree(a[0], Join(a[1..], c), b[0], Join(b[1..], c), c);
      JoinIdentifies(a[1..], b[1..], c);
      assert a == [a[0]] + a[1..] && b == [b[0]] + b[1..];
    }
  }

  /** Splitting loses nothing. */
  lemma {:induction false} JoinOfSplit(s: string, c: char)
    ensures Join(Split(s, c), c) == s
    decreases |s|
  {
    var n := Find(s, c);
    if n < |s| {
      JoinOfSplit(s[n + 1..], c);
      var rest := Split(s[n + 1..], c);
      assert Split(s, c) == [s[..n]] + rest;
      hide Join, Split;
      JoinWithHead(s[..n], rest, c);
      CutAt(s, n);
    }
  }

  lemma CutAt(s: string, n: nat)
    requires n < |s|
    ensures s == s[..n] + ([s[n]] + s[n + 1..])
  {
  }

  lemma JoinWithHead(head: string, rest: seq<string>, c: char)
    requires rest != []
    ensures Join([head] + rest, c) == head + ([c] + Join(rest, c))
  {
    JoinHead([head] + rest, c);
    assert ([head] + rest)[1..] == rest;
  }

  lemma {:induction false} JoinInTwo(x: seq<string>, y: seq<string>, c: char)
    requires x != [] && y != []
    ensures Join(x + y, c) == Join(x, c) + [c] + Join(y, c)
  {
    JoinHead(x + y, c);
    if |x| == 1 {
      assert (x + y)[1..] == y;
    } else {
      assert (x + y)[1..] == x[1..] + y;
      JoinInTwo(x[1..], y, c);
      JoinHead(x, c);
    }
  }

  lemma {:induction false} SplitPartsAreFree(s: string, c: char)
    ensures forall i :: 0 <= i < |Split(s, c)| ==> c !in Split(s, c)[i]
    decreases |s|
  {
    var n := Find(s, c);
    if n < |s| { SplitPartsAreFree(s[n + 1..], c); }
  }

  lemma SplitInTwo(a: string, b: string, c: char)
    ensures Split(a + [c] + b, c) == Split(a, c) + Split(b, c)
  {
    SplitPartsAreFree(a, c);
    SplitPartsAreFree(b, c);
    JoinOfSplit(a, c);
    JoinOfSplit(b, c);
    hide Split, Join;
    JoinInTwo(Split(a, c), Split(b, c), c);
    SplitOfJoin(Split(a, c) + Split(b, c), c);
  }

  predicate IsSuffix(parts: seq<string>, whole: seq<string>) {
    |parts| <= |whole| && whole[|whole| - |parts|..] == parts
  }

  /** A text is another one, or ends in it after a separator, exactly when the parts of the other
      one are the last of its parts. */
  lemma EndsInPartsExactlyWhen(s: string, t: string, c: char)
    ensures s == t || EndsWith(s, [c] + t) <==> IsSuffix(Split(t, c), Split(s, c))
  {
    hide Split, Join;
    if s != t && EndsWith(s, [c] + t) {
      var a := s[..|s| - |t| - 1];
      assert s == a + ([c] + t) == a + [c] + t;
      SplitInTwo(a, t, c);
    }
    var whole, parts := Split(s, c), Split(t, c);
    if IsSuffix(parts, whole) {
      JoinOfSplit(s, c);
      JoinOfSplit(t, c);
      var n := |whole| - |parts|;
      assert whole == whole[..n] + parts;
      if n > 0 {
        JoinInTwo(whole[..n], parts, c);
        var a := Join(whole[..n], c);
        assert s == a + [c] + t;
        assert s[|s| - |t| - 1..] == [c] + t;
      }
    }
  }

  // ---- what dropping and trimming leave ----------------------------------------------------

  /** What is left of a text are the other characters, in the order in which they came: the one at
      i was at at[i]. */
  predicate LeftInOrder(s: string, c: char, rest: string, at: seq<nat>) {
    && |at| == |rest|
    && (forall i :: 0 <= i < |at| ==> at[i] < |s| && rest[i] == s[at[i]])
    && (forall i, j :: 0 <= i < j < |at| ==> at[i] < at[j])
    && forall k: nat :: k < |s| ==> (k in at <==> s[k] != c)
  }

  lemma {:induction false} DropKeepsTheRest(s: string, c: char) returns (at: seq<nat>)
    ensures LeftInOrder(s, c, Drop(s, c), at)
  {
    if s == "" {
      at := [];
    } else {
      var later := DropKeepsTheRest(s[1..], c);
      var moved := seq(|later|, i requires 0 <= i < |later| => later[i] + 1);
      var rest := Drop(s[1..], c);
      hide LeftInOrder;
      if s[0] == c {
        at := moved;
        LeftByOthers(s, c, rest, later, moved);
      } else {
        at := [0] + moved;
        LeftWithFirst(s, c, rest, later, moved);
      }
    }
  }

  lemma LeftByOthers(s: string, c: char, rest: string, later: seq<nat>, moved: seq<nat>)
    requires s != "" && s[0] == c && LeftInOrder(s[1..], c, rest, later)
    requires |moved| == |later| && forall i :: 0 <= i < |later| ==> moved[i] == later[i] + 1
    ensures LeftInOrder(s, c, rest, moved)
  {
    forall i | 0 <= i < |moved| ensures moved[i] < |s| && rest[i] == s[moved[i]] {
      assert s[1..][later[i]] == s[later[i] + 1];
    }
    forall k: nat | k < |s| ensures k in moved <==> s[k] != c {
      MovedByOne(later, moved, k);
      if k > 0 { assert s[1..][k - 1] == s[k]; }
    }
  }

  lemma LeftWithFirst(s: string, c: char, rest: string, later: seq<nat>, moved: seq<nat>)
    requires s != "" && s[0] != c && LeftInOrder(s[1..], c, rest, later)
    requires |moved| == |later| && forall i :: 0 <= i < |later| ==> moved[i] == later[i] + 1
    ensures LeftInOrder(s, c, [s[0]] + rest, [0] + moved)
  {
    var at, all := [0] + moved, [s[0]] + rest;
    forall i | 0 <= i < |at| ensures at[i] < |s| && all[i] == s[at[i]] {
      if i > 0 {
        assert at[i] == later[i - 1] + 1 && all[i] == rest[i - 1];
        assert s[1..][later[i - 1]] == s[later[i - 1] + 1];
      }
    }
    forall i, j | 0 <= i < j < |at| ensures at[i] < at[j] {
      assert at[j] == later[j - 1] + 1;
      if i > 0 { assert at[i] == later[i - 1] + 1; }
    }
    forall k: nat | k < |s| ensures k in at <==> s[k] != c {
      assert k in at <==> k == 0 || k in moved;
      MovedByOne(later, moved, k);
      if k > 0 { assert s[1..][k - 1] == s[k]; }
    }
  }

  lemma MovedByOne(later: seq<nat>, moved: seq<nat>, k: nat)
    requires |moved| == |later| && forall i :: 0 <= i < |later| ==> moved[i] == later[i] + 1
    ensures k in moved <==> k > 0 && k - 1 in later
  {
    if k > 0 && k - 1 in later {
      var i :| 0 <= i < |later| && later[i] == k - 1;
      assert moved[i] == k;
    }
  }

  /** Trimming takes cut characters from both ends and nothing else. */
  lemma TrimTakesTheEnds(left: string, s: string, right: string, cut: set<char>)
    requires s != "" && s[0] !in cut && s[|s| - 1] !in cut
    requires forall i :: 0 <= i < |left| ==> left[i] in cut
    requires forall i :: 0 <= i < |right| ==> right[i] in cut
    ensures Trim(left + s + right, cut) == s
  {
    LeftTaken(left, s + right, cut);
    RightTaken(s, right, cut);
    assert left + s + right == left + (s + right);
  }

  /** What trimming takes away on both sides. */
  lemma TrimmedAround(s: string, cut: set<char>) returns (left: string, right: string)
    ensures s == left + Trim(s, cut) + right
    ensures forall i :: 0 <= i < |left| ==> left[i] in cut
    ensures forall i :: 0 <= i < |right| ==> right[i] in cut
  {
    left := TakenLeft(s, cut);
    right := TakenRight(TrimLeft(s, cut), cut);
    assert left + Trim(s, cut) + right == left + (Trim(s, cut) + right);
  }

  lemma {:induction false} TakenLeft(s: string, cut: set<char>) returns (left: string)
    ensures s == left + TrimLeft(s, cut) && forall i :: 0 <= i < |left| ==> left[i] in cut
  {
    if s != "" && s[0] in cut {
      var more := TakenLeft(s[1..], cut);
      left := [s[0]] + more;
      assert s == [s[0]] + (more + TrimLeft(s, cut));
    } else {
      left := "";
    }
  }

  lemma {:induction false} TakenRight(s: string, cut: set<char>) returns (right: string)
    ensures s == TrimRight(s, cut) + right && forall i :: 0 <= i < |right| ==> right[i] in cut
  {
    if s != "" && s[|s| - 1] in cut {
      var more := TakenRight(s[..|s| - 1], cut);
      right := more + [s[|s| - 1]];
      assert s == (TrimRight(s, cut) + more) + [s[|s| - 1]];
    } else {
      right := "";
    }
  }

  lemma {:induction false} LeftTaken(left: string, s: string, cut: set<char>)
    requires s != "" && s[0] !in cut && forall i :: 0 <= i < |left| ==> left[i] in cut
    ensures TrimLeft(left + s, cut) == s
  {
    if left == "" {
      assert left + s == s;
    } else {
      assert (left + s)[1..] == left[1..] + s;
      LeftTaken(left[1..], s, cut);
    }
  }

  lemma {:induction false} RightTaken(s: string, right: string, cut: set<char>)
    requires s != "" && s[|s| - 1] !in cut && forall i :: 0 <= i < |right| ==> right[i] in cut
    ensures TrimRight(s + right, cut) == s
  {
    if right == "" {
      assert s + right == s;
    } else {
      var n := |right| - 1;
      assert (s + right)[..|s| + n] == s + right[..n];
      RightTaken(s, right[..n], cut);
    }
  }
}
