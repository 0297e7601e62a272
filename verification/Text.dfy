/**
  The parts of Go's strings package the text modules rest on: splitting and
  joining lines, trimming, and splitting into fields. Strings are sequences of
  Unicode characters.
*/
module Text {
  /** unicode.IsSpace, as TrimSpace and Fields use it. */
  predicate IsSpace(c: char) {
    || '\t' <= c <= '\r' || c == ' ' || c == '\U{85}' || c == '\U{A0}' || c == '\U{1680}'
    || '\U{2000}' <= c <= '\U{200A}' || c == '\U{2028}' || c == '\U{2029}' || c == '\U{202F}'
    || c == '\U{205F}' || c == '\U{3000}'
  }

  predicate NoSpaces(s: string) {
    forall i :: 0 <= i < |s| ==> !IsSpace(s[i])
  }

  predicate AllSpaces(s: string) {
    forall i :: 0 <= i < |s| ==> IsSpace(s[i])
  }

  predicate Word(s: string) { s != "" && NoSpaces(s) }

  predicate OneLine(s: string) { '\n' !in s }

  predicate AllOneLine(ls: seq<string>) {
    forall i :: 0 <= i < |ls| ==> OneLine(ls[i])
  }

  function StartsWith(s: string, p: string): bool {
    |p| <= |s| && s[..|p|] == p
  }

  // ---- lines ----

  /** strings.Split(s, "\n"). */
  function Lines(s: string): (r: seq<string>)
    ensures |r| > 0
  {
    if s == "" then [""]
    else
      var rest := Lines(s[1..]);
      if s[0] == '\n' then [""] + rest else [[s[0]] + rest[0]] + rest[1..]
  }

  /** strings.Join(ls, "\n"). */
  function Unlines(ls: seq<string>): string {
    if ls == [] then ""
    else if |ls| == 1 then ls[0]
    else ls[0] + "\n" + Unlines(ls[1..])
  }

  lemma {:induction false} LinesOfPrefix(a: string, s: string)
    requires OneLine(a)
    ensures Lines(a + s) == [a + Lines(s)[0]] + Lines(s)[1..]
  {
    if a == "" {
      var ls := Lines(s);
      assert a + s == s && a + ls[0] == ls[0] && [ls[0]] + ls[1..] == ls;
    } else {
      assert (a + s)[1..] == a[1..] + s;
      LinesOfPrefix(a[1..], s);
      assert [a[0]] + (a[1..] + Lines(s)[0]) == a + Lines(s)[0];
    }
  }

  lemma LinesOfOne(a: string)
    requires OneLine(a)
    ensures Lines(a) == [a]
  {
    LinesOfPrefix(a, "");
    assert a + "" == a;
  }

  lemma LinesCons(a: string, s: string)
    requires OneLine(a)
    ensures Lines(a + "\n" + s) == [a] + Lines(s)
  {
    LinesOfPrefix(a, "\n" + s);
    assert a + ("\n" + s) == a + "\n" + s;
    assert ("\n" + s)[1..] == s;
    assert a + "" == a;
  }

  lemma {:induction false} LinesUnlines(ls: seq<string>)
    requires ls != [] && AllOneLine(ls)
    ensures Lines(Unlines(ls)) == ls
  {
    if |ls| == 1 {
      LinesOfOne(ls[0]);
    } else {
      LinesUnlines(ls[1..]);
      LinesCons(ls[0], Unlines(ls[1..]));
    }
  }

  lemma {:induction false} UnlinesLines(s: string)
    ensures Unlines(Lines(s)) == s
    ensures AllOneLine(Lines(s))
  {
    if s != "" {
      UnlinesLines(s[1..]);
      var rest := Lines(s[1..]);
      if s[0] != '\n' && |rest| > 1 {
        assert Lines(s)[1..] == rest[1..];
      }
    }
  }

  // ---- trimming ----

  function TrimLeft(s: string): string {
    if s != "" && IsSpace(s[0]) then TrimLeft(s[1..]) else s
  }

  function TrimRight(s: string): string {
    if s != "" && IsSpace(s[|s| - 1]) then TrimRight(s[..|s| - 1]) else s
  }

  function TrimSpace(s: string): string {
    TrimRight(TrimLeft(s))
  }

  /** strings.TrimRight(s, "\n"). */
  function TrimNewlines(s: string): string {
    if s != "" && s[|s| - 1] == '\n' then TrimNewlines(s[..|s| - 1]) else s
  }

  lemma TrimNothing(s: string)
    requires s != "" && !IsSpace(s[0]) && !IsSpace(s[|s| - 1])
    ensures TrimSpace(s) == s
  {
  }

  lemma {:induction false} TrimIndent(pad: string, s: string)
    requires AllSpaces(pad) && s != "" && !IsSpace(s[0]) && !IsSpace(s[|s| - 1])
    ensures TrimSpace(pad + s) == s
  {
    if pad == "" {
      assert pad + s == s;
    } else {
      assert (pad + s)[1..] == pad[1..] + s;
      TrimIndent(pad[1..], s);
    }
  }

  lemma {:induction false} TrimLeftSpaces(s: string)
    ensures TrimLeft(s) == "" <==> AllSpaces(s)
    ensures TrimLeft(s) != "" ==> !IsSpace(TrimLeft(s)[0])
  {
    if s != "" && IsSpace(s[0]) {
      TrimLeftSpaces(s[1..]);
      assert AllSpaces(s) <==> AllSpaces(s[1..]) by {
        assert forall i :: 0 <= i < |s[1..]| ==> s[1..][i] == s[i + 1];
        assert forall i :: 1 <= i < |s| ==> s[i] == s[1..][i - 1];
      }
    }
  }

  lemma {:induction false} TrimLeftCut(s: string) returns (a: string)
    ensures s == a + TrimLeft(s) && AllSpaces(a)
    ensures TrimLeft(s) != "" ==> !IsSpace(TrimLeft(s)[0])
  {
    a := "";
    if s != "" && IsSpace(s[0]) {
      a := TrimLeftCut(s[1..]);
      assert s == [s[0]] + s[1..];
      a := [s[0]] + a;
    }
  }

  lemma {:induction false} TrimRightCut(s: string) returns (b: string)
    ensures s == TrimRight(s) + b && AllSpaces(b)
    ensures TrimRight(s) != "" ==> !IsSpace(TrimRight(s)[|TrimRight(s)| - 1])
  {
    b := "";
    if s != "" && IsSpace(s[|s| - 1]) {
      b := TrimRightCut(s[..|s| - 1]);
      assert s == s[..|s| - 1] + [s[|s| - 1]];
      b := b + [s[|s| - 1]];
    }
  }

  /** What TrimSpace leaves: the text between all its leading and all its trailing white space. */
  lemma TrimSpaceCut(s: string) returns (a: string, b: string)
    ensures s == a + TrimSpace(s) + b && AllSpaces(a) && AllSpaces(b)
    ensures var t := TrimSpace(s); t != "" ==> !IsSpace(t[0]) && !IsSpace(t[|t| - 1])
  {
    a := TrimLeftCut(s);
    b := TrimRightCut(TrimLeft(s));
  }

  /** The newlines at the end, and only those, are cut. */
  lemma {:induction false} TrimNewlinesCut(s: string) returns (n: nat)
    ensures s == TrimNewlines(s) + seq(n, _ => '\n')
    ensures var t := TrimNewlines(s); t != "" ==> t[|t| - 1] != '\n'
  {
    n := 0;
    if s != "" && s[|s| - 1] == '\n' {
      n := TrimNewlinesCut(s[..|s| - 1]);
      assert s == s[..|s| - 1] + ['\n'];
      n := n + 1;
    }
  }

  // ---- fields ----

  /** The length of the leading run of non-space characters. */
  function WordLen(s: string): (n: nat)
    ensures n <= |s|
  {
    if s == "" || IsSpace(s[0]) then 0 else 1 + WordLen(s[1..])
  }

  /** strings.Fields. */
  function Fields(s: string): seq<string>
    decreases |s|
  {
    TrimLeftShorter(s);
    TrimLeftSpaces(s);
    var t := TrimLeft(s);
    if t == "" then [] else [t[..WordLen(t)]] + Fields(t[WordLen(t)..])
  }

  lemma {:induction false} TrimLeftShorter(s: string)
    ensures |TrimLeft(s)| <= |s|
  {
    if s != "" && IsSpace(s[0]) { TrimLeftShorter(s[1..]); }
  }

  /** The words with single spaces between them. */
  function Unwords(ws: seq<string>): string {
    if ws == [] then ""
    else if |ws| == 1 then ws[0]
    else ws[0] + " " + Unwords(ws[1..])
  }

  predicate Words(ws: seq<string>) {
    forall i :: 0 <= i < |ws| ==> Word(ws[i])
  }

  lemma {:induction false} WordLenOf(w: string, s: string)
    requires NoSpaces(w) && (s == "" || IsSpace(s[0]))
    ensures WordLen(w + s) == |w|
  {
    if w == "" {
      assert w + s == s;
    } else {
      assert (w + s)[1..] == w[1..] + s;
      WordLenOf(w[1..], s);
    }
  }

  lemma FieldsCons(w: string, s: string)
    requires Word(w)
    ensures Fields(w + " " + s) == [w] + Fields(s)
    ensures Fields(w) == [w]
  {
    WordLenOf(w, " " + s);
    assert w + (" " + s) == w + " " + s;
    assert (w + " " + s)[|w|..] == " " + s && (w + " " + s)[..|w|] == w;
    FieldsSkip(s);
    WordLenOf(w, "");
    assert w + "" == w && w[|w|..] == "";
  }

  lemma FieldsSkip(s: string)
    ensures Fields(" " + s) == Fields(s)
  {
    assert (" " + s)[1..] == s;
  }

  lemma {:induction false} FieldsUnwords(ws: seq<string>)
    requires Words(ws)
    ensures Fields(Unwords(ws)) == ws
  {
    if |ws| == 1 {
      FieldsCons(ws[0], "");
      assert ws == [ws[0]];
    } else if |ws| > 1 {
      FieldsUnwords(ws[1..]);
      FieldsCons(ws[0], Unwords(ws[1..]));
    }
  }

  lemma {:induction false} UnwordsEnds(ws: seq<string>)
    requires ws != [] && Words(ws)
    ensures Unwords(ws) != "" && Unwords(ws)[0] == ws[0][0]
    ensures !IsSpace(Unwords(ws)[0]) && !IsSpace(Unwords(ws)[|Unwords(ws)| - 1])
    ensures OneLine(Unwords(ws))
  {
    if |ws| > 1 {
      UnwordsEnds(ws[1..]);
    }
  }

  lemma {:induction false} FieldsOfSpaces(pad: string, s: string)
    requires AllSpaces(pad)
    ensures Fields(pad + s) == Fields(s)
  {
    if pad == "" {
      assert pad + s == s;
    } else {
      assert (pad + s)[1..] == pad[1..] + s;
      FieldsOfSpaces(pad[1..], s);
      assert TrimLeft(pad + s) == TrimLeft((pad + s)[1..]);
    }
  }

  lemma FieldsWord(w: string, s: string)
    requires Word(w) && (s == "" || IsSpace(s[0]))
    ensures Fields(w + s) == [w] + Fields(s)
  {
    WordLenOf(w, s);
    assert (w + s)[..|w|] == w && (w + s)[|w|..] == s;
  }

  predicate Separated(ws: seq<string>, gaps: seq<string>) {
    && |gaps| == |ws| + 1 && Words(ws)
    && (forall i :: 0 <= i < |gaps| ==> AllSpaces(gaps[i]))
    && (forall i :: 0 < i < |ws| ==> gaps[i] != "")
  }

  /** The words with these gaps before, between and after them. */
  function Laid(ws: seq<string>, gaps: seq<string>): string
    requires |gaps| == |ws| + 1
  {
    if ws == [] then gaps[0] else gaps[0] + (ws[0] + Laid(ws[1..], gaps[1..]))
  }

  /** However the words are laid out with white space between them, the fields are the words. */
  lemma {:induction false} FieldsLaid(ws: seq<string>, gaps: seq<string>)
    requires Separated(ws, gaps)
    ensures Fields(Laid(ws, gaps)) == ws
  {
    if ws == [] {
      FieldsOfSpaces(gaps[0], "");
      assert gaps[0] + "" == gaps[0];
    } else {
      var rest := Laid(ws[1..], gaps[1..]);
      FieldsLaid(ws[1..], gaps[1..]);
      FieldsOfSpaces(gaps[0], ws[0] + rest);
      FieldsWord(ws[0], rest);
      assert ws == [ws[0]] + ws[1..];
    }
  }

  lemma {:induction false} WordLenIs(s: string)
    ensures NoSpaces(s[..WordLen(s)])
    ensures WordLen(s) < |s| ==> IsSpace(s[WordLen(s)])
    ensures s != "" && !IsSpace(s[0]) ==> WordLen(s) > 0
  {
    if s != "" && !IsSpace(s[0]) {
      var n := WordLen(s[1..]);
      WordLenIs(s[1..]);
      assert s[..n + 1] == [s[0]] + s[1..][..n];
    }
  }

  lemma LaidStart(ws: seq<string>, gaps: seq<string>)
    requires Separated(ws, gaps) && ws != []
    ensures gaps[0] == "" ==> Laid(ws, gaps) != "" && !IsSpace(Laid(ws, gaps)[0])
  {
    assert Word(ws[0]);
  }

  /** Every text is some words laid out with white space. */
  lemma LayOut(s: string) returns (ws: seq<string>, gaps: seq<string>)
    ensures Separated(ws, gaps) && s == Laid(ws, gaps)
    decreases |s|
  {
    var a := TrimLeftCut(s);
    var t := TrimLeft(s);
    if t == "" {
      ws, gaps := [], [s];
    } else {
      var n := WordLen(t);
      WordLenIs(t);
      var more, between := LayOut(t[n..]);
      if more != [] { LaidStart(more, between); }
      ws, gaps := [t[..n]] + more, [a] + between;
      assert ws[1..] == more && gaps[1..] == between && t == t[..n] + t[n..];
    }
  }

  lemma WordLenPad(s: string, b: string)
    requires AllSpaces(b)
    ensures WordLen(s + b) == WordLen(s)
  {
    WordLenIs(s);
    var n := WordLen(s);
    var rest := s[n..] + b;
    assert s + b == s[..n] + rest;
    WordLenOf(s[..n], rest);
  }

  lemma {:induction false} TrimLeftPad(s: string, b: string)
    requires TrimLeft(s) != ""
    ensures TrimLeft(s + b) == TrimLeft(s) + b
  {
    if IsSpace(s[0]) {
      assert (s + b)[1..] == s[1..] + b;
      TrimLeftPad(s[1..], b);
    }
  }

  /** White space at the end adds no field. */
  lemma {:induction false} FieldsPad(s: string, b: string)
    requires AllSpaces(b)
    ensures Fields(s + b) == Fields(s)
    decreases |s|
  {
    var t := TrimLeft(s);
    TrimLeftSpaces(s);
    TrimLeftShorter(s);
    if t == "" {
      assert AllSpaces(s + b);
      TrimLeftSpaces(s + b);
    } else {
      TrimLeftPad(s, b);
      WordLenPad(t, b);
      WordLenIs(t);
      var n := WordLen(t);
      assert (t + b)[..n] == t[..n] && (t + b)[n..] == t[n..] + b;
      FieldsPad(t[n..], b);
    }
  }

  lemma FieldsTrimmed(s: string)
    ensures Fields(TrimSpace(s)) == Fields(s)
    ensures var t := TrimSpace(s);
            if Fields(s) == [] then t == "" else t != "" && Fields(s)[0] != "" && t[0] == Fields(s)[0][0]
  {
    var t := TrimSpace(s);
    var a, b := TrimSpaceCut(s);
    assert s == a + (t + b);
    FieldsOfSpaces(a, t + b);
    FieldsPad(t, b);
    WordLenIs(t);
    TrimLeftSpaces(t);
  }
}
