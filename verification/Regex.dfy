/**
  The few regular-expression pieces the firewall parsers are made of, written as
  searches over suffixes. Every greedy piece here is followed by something it
  cannot contain, so giving characters back never helps and the first try at
  each position decides.
*/
module Regex {
  import opened Wrappers
  import opened Text

  /** `\s`. */
  predicate ReSpace(c: char) {
    c == '\t' || c == '\n' || c == '\U{0C}' || c == '\r' || c == ' '
  }

  /** `\s*`, greedy. */
  function SpaceLen(s: string): (n: nat)
    ensures n <= |s| && (n > 0 <==> s != "" && ReSpace(s[0]))
  {
    if s == "" || !ReSpace(s[0]) then 0 else 1 + SpaceLen(s[1..])
  }

  /** `\S*`, greedy. */
  function RunLen(s: string): (n: nat)
    ensures n <= |s| && (n > 0 <==> s != "" && !ReSpace(s[0]))
  {
    if s == "" || ReSpace(s[0]) then 0 else 1 + RunLen(s[1..])
  }

  /** `\d*`, greedy. */
  function DigitLen(s: string): (n: nat)
    ensures n <= |s|
  {
    if s == "" || !('0' <= s[0] <= '9') then 0 else 1 + DigitLen(s[1..])
  }

  /** `[^"]*`, greedy. */
  function UnquotedLen(s: string): (n: nat)
    ensures n <= |s|
  {
    if s == "" || s[0] == '"' then 0 else 1 + UnquotedLen(s[1..])
  }

  lemma {:induction false} RunLenOf(w: string, s: string)
    requires NoSpaces(w) && (s == "" || ReSpace(s[0]))
    ensures RunLen(w + s) == |w|
  {
    if w == "" {
      assert w + s == s;
    } else {
      assert (w + s)[1..] == w[1..] + s;
      RunLenOf(w[1..], s);
    }
  }

  lemma {:induction false} UnquotedLenOf(w: string, s: string)
    requires '"' !in w && s != "" && s[0] == '"'
    ensures UnquotedLen(w + s) == |w|
  {
    if w == "" {
      assert w + s == s;
    } else {
      assert (w + s)[1..] == w[1..] + s;
      UnquotedLenOf(w[1..], s);
    }
  }

  lemma {:induction false} DigitLenOf(w: string)
    requires forall i :: 0 <= i < |w| ==> '0' <= w[i] <= '9'
    ensures DigitLen(w) == |w|
  {
    if w != "" { DigitLenOf(w[1..]); }
  }

  // ---- (?:^|\s)FLAG\s+(\S+) ----

  /** `\s+(\S+)` right here. */
  function SpaceThenRun(s: string): Option<string> {
    var n := SpaceLen(s);
    if n == 0 || RunLen(s[n..]) == 0 then None else Some(s[n..][..RunLen(s[n..])])
  }

  /** `boundary` says that this position is the start of the text or follows a space. */
  function FindFlag(s: string, flag: string, boundary: bool): Option<string> {
    if s == "" then None
    else if boundary && StartsWith(s, flag) && SpaceThenRun(s[|flag|..]).Some? then SpaceThenRun(s[|flag|..])
    else FindFlag(s[1..], flag, ReSpace(s[0]))
  }

  /** The same on words: what follows the first word equal to the flag, the last word excepted. */
  function After(ws: seq<string>, flag: string): Option<string> {
    if |ws| < 2 then None
    else if ws[0] == flag then Some(ws[1])
    else After(ws[1..], flag)
  }

  lemma {:induction false} FlagSkipsWord(w: string, s: string, flag: string)
    requires NoSpaces(w)
    ensures FindFlag(w + " " + s, flag, false) == FindFlag(s, flag, true)
  {
    var t := w + " " + s;
    if w == "" {
      assert t[1..] == s;
    } else {
      assert t[1..] == w[1..] + " " + s;
      FlagSkipsWord(w[1..], s, flag);
    }
  }

  lemma {:induction false} NoFlagInWord(w: string, flag: string, boundary: bool)
    requires NoSpaces(w) && flag != ""
    ensures FindFlag(w, flag, boundary).None?
  {
    if w != "" {
      NoFlagInWord(w[1..], flag, false);
    }
  }

  lemma FirstRun(ws: seq<string>)
    requires ws != [] && Words(ws)
    ensures RunLen(Unwords(ws)) == |ws[0]| && Unwords(ws)[..|ws[0]|] == ws[0]
  {
    if |ws| == 1 {
      RunLenOf(ws[0], "");
      assert ws[0] + "" == ws[0];
    } else {
      RunLenOf(ws[0], " " + Unwords(ws[1..]));
      assert ws[0] + (" " + Unwords(ws[1..])) == Unwords(ws);
    }
  }

  /** A flag at the front of a text begins the first word there. */
  lemma FlagInsideWord(w: string, s: string, flag: string)
    requires Word(w) && Word(flag) && StartsWith(w + " " + s, flag)
    ensures |flag| <= |w| && flag == w[..|flag|]
  {
    var t := w + " " + s;
    assert forall i :: 0 <= i < |flag| ==> t[..|flag|][i] == t[i];
    assert |w| < |flag| ==> flag[|w|] == ' ' && IsSpace(flag[|w|]);
  }

  /** A flag that only starts a longer word is not followed by a space. */
  lemma OtherWordIsNoFlag(w: string, s: string, flag: string)
    requires Word(w) && Word(flag) && w != flag && StartsWith(w + " " + s, flag)
    ensures SpaceThenRun((w + " " + s)[|flag|..]).None?
  {
    FlagInsideWord(w, s, flag);
    assert w[..|w|] == w;
    assert (w + " " + s)[|flag|..][0] == w[|flag|];
  }

  lemma OtherWordSkipped(w: string, s: string, flag: string)
    requires Word(w) && Word(flag) && w != flag
    ensures FindFlag(w + " " + s, flag, true) == FindFlag(s, flag, true)
  {
    var t := w + " " + s;
    assert t[1..] == w[1..] + " " + s;
    FlagSkipsWord(w[1..], s, flag);
    if StartsWith(t, flag) { OtherWordIsNoFlag(w, s, flag); }
  }

  lemma FlagFound(flag: string, ws: seq<string>)
    requires ws != [] && Words(ws) && Word(flag)
    ensures FindFlag(flag + " " + Unwords(ws), flag, true) == Some(ws[0])
  {
    var s := Unwords(ws);
    SplitAfter(flag, s);
    SpaceThenWord(ws);
  }

  lemma SplitAfter(flag: string, s: string)
    ensures var t := flag + " " + s; StartsWith(t, flag) && t[|flag|..] == " " + s && t != ""
  {
  }

  lemma SpaceThenWord(ws: seq<string>)
    requires ws != [] && Words(ws)
    ensures SpaceThenRun(" " + Unwords(ws)) == Some(ws[0])
  {
    var s := Unwords(ws);
    UnwordsEnds(ws);
    FirstRun(ws);
    assert (" " + s)[1..] == s;
    assert SpaceLen(" " + s) == 1 + SpaceLen(s) && SpaceLen(s) == 0;
  }

  lemma {:induction false} FindFlagInWords(ws: seq<string>, flag: string)
    requires ws != [] && Words(ws) && Word(flag)
    ensures FindFlag(Unwords(ws), flag, true) == After(ws, flag)
  {
    if |ws| == 1 {
      NoFlagInWord(ws[0], flag, true);
    } else if ws[0] == flag {
      FlagFound(flag, ws[1..]);
    } else {
      FindFlagInWords(ws[1..], flag);
      OtherWordSkipped(ws[0], Unwords(ws[1..]), flag);
    }
  }
}
