/** Listing and finding rules with nft (internal/firewall/parse.go:248-310). */
module Nftables {
  import opened Wrappers
  import opened Text
  import opened Regex
  import opened FirewallRules

  datatype NftMatch = NftMatch(source: string, proto: string, port: string, verb: string)

  // ---- (?:ip6? saddr (\S+)\s+)?(tcp|udp) dport (\S+) (accept|drop) ----

  /** `(\S+) (accept|drop)` right here. */
  function PortAndVerb(s: string): Option<(string, string)> {
    var n := RunLen(s);
    if n == 0 then None
    else if StartsWith(s[n..], " accept") then Some((s[..n], "accept"))
    else if StartsWith(s[n..], " drop") then Some((s[..n], "drop"))
    else None
  }

  function TailAt(s: string, source: string): Option<NftMatch> {
    if !StartsWith(s, "tcp dport ") && !StartsWith(s, "udp dport ") then None
    else
      match PortAndVerb(s[10..])
      case None => None
      case Some(pv) => Some(NftMatch(source, s[..3], pv.0, pv.1))
  }

  /** `(\S+)\s+` and the tail right here. */
  function SourceAt(s: string): Option<NftMatch> {
    var n := RunLen(s);
    var k := SpaceLen(s[n..]);
    if n == 0 || k == 0 then None else TailAt(s[n + k..], s[..n])
  }

  function NftAt(s: string): Option<NftMatch> {
    if StartsWith(s, "ip saddr ") then SourceAt(s[9..])
    else if StartsWith(s, "ip6 saddr ") then SourceAt(s[10..])
    else TailAt(s, "")
  }

  function FindNft(s: string): Option<NftMatch> {
    if NftAt(s).Some? then NftAt(s)
    else if s == "" then None
    else FindNft(s[1..])
  }

  function MatchedRule(m: NftMatch): Rule {
    Rule(Colon(m.port), m.proto, if m.verb == "drop" then Deny else Allow, m.source)
  }

  // ---- listing ----

  const CHAIN := "chain INPUT {"

  datatype State = State(inInput: bool, active: bool, rules: seq<Rule>)

  function ScanLine(st: State, line: string): State {
    var t := TrimSpace(line);
    if !st.inInput then
      if StartsWith(t, CHAIN) then st.(inInput := true, active := true) else st
    else if t == "}" then st.(inInput := false)
    else
      match FindNft(t)
      case None => st
      case Some(m) => st.(rules := st.rules + [MatchedRule(m)])
  }

  function ScanFrom(st: State, ls: seq<string>): State
    decreases |ls|
  {
    if ls == [] then st else ScanFrom(ScanLine(st, ls[0]), ls[1..])
  }

  function Scan(ls: seq<string>): State {
    ScanFrom(State(false, false, []), ls)
  }

  method ParseNftables(out: string) returns (active: bool, rules: seq<Rule>)
    ensures var st := Scan(Lines(out)); active == st.active && rules == st.rules
  {
    active, rules := false, [];
    var inInput := false;
    var ls := Lines(out);
    var i := 0;
    while i < |ls|
      invariant 0 <= i <= |ls|
      invariant ScanFrom(State(inInput, active, rules), ls[i..]) == Scan(ls)
    {
      assert ls[i..][1..] == ls[i + 1..];
      var t := TrimSpace(ls[i]);
      i := i + 1;
      if t == "" {
        continue;
      }
      if !inInput {
        if StartsWith(t, CHAIN) {
          inInput := true;
          active := true;
        }
        continue;
      }
      if t == "}" {
        inInput := false;
        continue;
      }
      var m := FindNft(t);
      if m.Some? {
        rules := rules + [MatchedRule(m.value)];
      }
    }
  }

  // ---- matching the body of a rule ----

  function Body(r: Rule): string {
    Unwords(NftWords(r))
  }

  function TailText(r: Rule): string {
    r.proto + " dport " + Hyphen(r.port) + " " + NftVerb(r.action)
  }

  lemma UnwordsCons(w: string, ws: seq<string>)
    requires ws != []
    ensures Unwords([w] + ws) == w + " " + Unwords(ws)
  {
    assert ([w] + ws)[1..] == ws;
  }

  lemma BodyText(r: Rule)
    ensures Body(r) == if r.source == "" then TailText(r)
                       else Family(r.source) + " saddr " + r.source + " " + TailText(r)
  {
    var port, verb := Hyphen(r.port), NftVerb(r.action);
    UnwordsCons(port, [verb]);
    UnwordsCons("dport", [port, verb]);
    UnwordsCons(r.proto, ["dport", port, verb]);
    var tail := [r.proto, "dport", port, verb];
    assert ["dport"] + [port, verb] == ["dport", port, verb] && [r.proto] + ["dport", port, verb] == tail;
    assert [port] + [verb] == [port, verb];
    assert Unwords(tail) == TailText(r);
    if r.source == "" {
      assert NftWords(r) == tail;
    } else {
      SourceWords(Family(r.source), r.source, tail);
      assert NftWords(r) == [Family(r.source), "saddr", r.source] + tail;
    }
  }

  lemma SourceWords(family: string, source: string, tail: seq<string>)
    requires tail != []
    ensures Unwords([family, "saddr", source] + tail) == family + " saddr " + source + " " + Unwords(tail)
  {
    UnwordsCons(source, tail);
    UnwordsCons("saddr", [source] + tail);
    UnwordsCons(family, ["saddr"] + ([source] + tail));
    assert [family, "saddr", source] + tail == [family] + (["saddr"] + ([source] + tail));
  }

  lemma VerbStarts(a: Action, suffix: string)
    ensures var rest := " " + NftVerb(a) + suffix;
            (StartsWith(rest, " accept") <==> a.Allow?) && (StartsWith(rest, " drop") <==> a.Deny?)
  {
    var rest := " " + NftVerb(a) + suffix;
    if a.Deny? {
      assert rest[..5] == " drop";
      assert |rest| >= 7 ==> rest[..7][1] == 'd';
    } else {
      assert rest[..7] == " accept" && rest[..5][1] == 'a';
    }
  }

  lemma PortAndVerbOf(port: string, a: Action, suffix: string)
    requires Word(port)
    ensures PortAndVerb(port + " " + NftVerb(a) + suffix) == Some((port, NftVerb(a)))
  {
    var rest := " " + NftVerb(a) + suffix;
    var s := port + " " + NftVerb(a) + suffix;
    assert s == port + rest;
    RunLenOf(port, rest);
    assert s[|port|..] == rest && s[..|port|] == port;
    VerbStarts(a, suffix);
  }

  lemma TailMatches(r: Rule, source: string, suffix: string)
    requires r.proto in {"tcp", "udp"} && Word(Hyphen(r.port))
    ensures TailAt(TailText(r) + suffix, source)
            == Some(NftMatch(source, r.proto, Hyphen(r.port), NftVerb(r.action)))
  {
    var rest := Hyphen(r.port) + " " + NftVerb(r.action) + suffix;
    var s := TailText(r) + suffix;
    PortAndVerbOf(Hyphen(r.port), r.action, suffix);
    assert s == r.proto + " dport " + rest;
    assert |r.proto + " dport "| == 10;
    assert s[..10] == r.proto + " dport " && s[10..] == rest && s[..3] == r.proto;
  }

  lemma OneSpace(tail: string)
    requires tail != "" && !ReSpace(tail[0])
    ensures SpaceLen(" " + tail) == 1
  {
    assert (" " + tail)[1..] == tail;
    assert SpaceLen(tail) == 0;
  }

  /** A word, one space and a text that starts with none are taken apart as they were put together. */
  lemma WordThenTail(w: string, tail: string)
    requires Word(w) && tail != "" && !ReSpace(tail[0])
    ensures SourceAt(w + " " + tail) == TailAt(tail, w)
  {
    var s := w + " " + tail;
    assert s == w + (" " + tail);
    RunLenOf(w, " " + tail);
    OneSpace(tail);
    assert s[|w|..] == " " + tail && s[..|w|] == w && s[|w| + 1..] == tail;
  }

  lemma SourceMatches(r: Rule, suffix: string)
    requires r.proto in {"tcp", "udp"} && Word(Hyphen(r.port)) && Word(r.source)
    ensures SourceAt(r.source + " " + TailText(r) + suffix)
            == Some(NftMatch(r.source, r.proto, Hyphen(r.port), NftVerb(r.action)))
  {
    var tail := TailText(r) + suffix;
    assert r.source + " " + TailText(r) + suffix == r.source + " " + tail;
    assert tail[0] == r.proto[0];
    WordThenTail(r.source, tail);
    TailMatches(r, r.source, suffix);
  }

  lemma PrefixSplit(p: string, s: string)
    ensures StartsWith(p + s, p) && (p + s)[|p|..] == s
  {
  }

  lemma FamilyMatches(s: string)
    ensures NftAt("ip saddr " + s) == SourceAt(s)
  {
    PrefixSplit("ip saddr ", s);
  }

  lemma Family6Matches(s: string)
    ensures NftAt("ip6 saddr " + s) == SourceAt(s)
  {
    PrefixSplit("ip6 saddr ", s);
    assert ("ip6 saddr " + s)[..9][2] == '6';
  }

  lemma OtherStart(s: string, p: string)
    requires p != "" && (s == "" || s[0] != p[0])
    ensures !StartsWith(s, p)
  {
    assert |p| <= |s| ==> s[..|p|][0] == s[0];
  }

  lemma NoFamily(s: string)
    requires s == "" || s[0] != 'i'
    ensures NftAt(s) == TailAt(s, "")
  {
    OtherStart(s, "ip saddr ");
    OtherStart(s, "ip6 saddr ");
  }

  lemma NoMatchOnSpace(s: string)
    requires s != "" && IsSpace(s[0])
    ensures NftAt(s).None?
  {
    NoFamily(s);
    OtherStart(s, "tcp dport ");
    OtherStart(s, "udp dport ");
  }

  lemma SourcelessMatches(r: Rule, suffix: string)
    requires r.proto in {"tcp", "udp"} && Word(Hyphen(r.port)) && r.source == ""
    ensures NftAt(TailText(r) + suffix) == Some(NftMatch("", r.proto, Hyphen(r.port), NftVerb(r.action)))
  {
    TailMatches(r, "", suffix);
    NoFamily(TailText(r) + suffix);
  }

  lemma WithSourceMatches(r: Rule, suffix: string)
    requires r.proto in {"tcp", "udp"} && Word(Hyphen(r.port)) && Word(r.source)
    ensures NftAt(Family(r.source) + " saddr " + r.source + " " + TailText(r) + suffix)
            == Some(NftMatch(r.source, r.proto, Hyphen(r.port), NftVerb(r.action)))
  {
    var rest := r.source + " " + TailText(r) + suffix;
    var lead := Family(r.source) + " saddr ";
    assert lead == "ip saddr " || lead == "ip6 saddr ";
    assert lead + r.source + " " + TailText(r) + suffix == lead + rest;
    SourceMatches(r, suffix);
    FamilyMatches(rest);
    Family6Matches(rest);
  }

  lemma BodyMatches(r: Rule, suffix: string)
    requires Ready(r)
    ensures NftAt(Body(r) + suffix) == Some(NftMatch(r.source, r.proto, Hyphen(r.port), NftVerb(r.action)))
    ensures FindNft(Body(r) + suffix) == NftAt(Body(r) + suffix)
  {
    ValidTexts(r);
    HyphenText(r.port);
    SourceLetters(r.source);
    BodyText(r);
    if r.source == "" {
      SourcelessMatches(r, suffix);
    } else {
      WithSourceMatches(r, suffix);
    }
  }

  lemma MatchedBack(r: Rule)
    requires Ready(r)
    ensures MatchedRule(NftMatch(r.source, r.proto, Hyphen(r.port), NftVerb(r.action))) == r
  {
    HyphenColon(r.port);
  }

  lemma {:induction false} FindSkipsPad(pad: string, s: string)
    requires AllSpaces(pad)
    ensures FindNft(pad + s) == FindNft(s)
  {
    if pad == "" {
      assert pad + s == s;
    } else {
      var t := pad + s;
      NoMatchOnSpace(t);
      assert t[1..] == pad[1..] + s;
      FindSkipsPad(pad[1..], s);
    }
  }

  // ---- the listing round trip ----

  predicate Outside(line: string) { OneLine(line) && !StartsWith(TrimSpace(line), CHAIN) }

  predicate Opens(line: string) { OneLine(line) && StartsWith(TrimSpace(line), CHAIN) }

  predicate Closes(line: string) { OneLine(line) && TrimSpace(line) == "}" }

  predicate Indent(pad: string) { AllSpaces(pad) && OneLine(pad) }

  /** The rules' bodies, one a line, each with its own indentation. */
  function BodyLines(pads: seq<string>, rs: seq<Rule>): seq<string>
    requires |pads| == |rs|
  {
    if rs == [] then [] else [pads[0] + Body(rs[0])] + BodyLines(pads[1..], rs[1..])
  }

  lemma ScanBodyLine(st: State, pad: string, r: Rule)
    requires st.inInput && Ready(r) && Indent(pad)
    ensures ScanLine(st, pad + Body(r)) == st.(rules := st.rules + [r])
    ensures OneLine(pad + Body(r))
  {
    CommandWords(r);
    UnwordsEnds(NftWords(r));
    TrimIndent(pad, Body(r));
    BodyMatches(r, "");
    assert Body(r) + "" == Body(r);
    MatchedBack(r);
    BodyStart(r);
  }

  lemma BodyStart(r: Rule)
    requires r.proto in {"tcp", "udp"}
    ensures Body(r) != "" && Body(r)[0] in {'t', 'u', 'i'}
  {
    BodyText(r);
  }

  lemma {:induction false} ScanAppend(st: State, a: seq<string>, b: seq<string>)
    ensures ScanFrom(st, a + b) == ScanFrom(ScanFrom(st, a), b)
    decreases |a|
  {
    if a == [] {
      assert a + b == b;
    } else {
      assert (a + b)[1..] == a[1..] + b;
      ScanAppend(ScanLine(st, a[0]), a[1..], b);
    }
  }

  lemma ScanCons(st: State, line: string, ls: seq<string>)
    ensures ScanFrom(st, [line] + ls) == ScanFrom(ScanLine(st, line), ls)
  {
    assert ([line] + ls)[1..] == ls;
  }

  predicate Bodies(pads: seq<string>, rs: seq<Rule>) {
    |pads| == |rs| && forall i :: 0 <= i < |rs| ==> Ready(rs[i]) && Indent(pads[i])
  }

  predicate AllOutside(ls: seq<string>) {
    forall i :: 0 <= i < |ls| ==> Outside(ls[i])
  }

  lemma BodiesTail(pads: seq<string>, rs: seq<Rule>)
    requires Bodies(pads, rs) && rs != []
    ensures Bodies(pads[1..], rs[1..]) && Ready(rs[0]) && Indent(pads[0])
  {
  }

  lemma RulesAfter(st: State, rs: seq<Rule>)
    requires rs != []
    ensures st.(rules := st.rules + [rs[0]] + rs[1..]) == st.(rules := st.rules + rs)
  {
    assert st.rules + [rs[0]] + rs[1..] == st.rules + rs;
  }

  lemma {:induction false} ScanBodyLines(st: State, pads: seq<string>, rs: seq<Rule>)
    requires Bodies(pads, rs) && st.inInput
    ensures ScanFrom(st, BodyLines(pads, rs)) == st.(rules := st.rules + rs)
    decreases |rs|
  {
    if rs == [] {
      assert st.rules + rs == st.rules;
    } else {
      BodiesTail(pads, rs);
      ScanBodyLines(st.(rules := st.rules + [rs[0]]), pads[1..], rs[1..]);
      ScanBodyLine(st, pads[0], rs[0]);
      ScanCons(st, pads[0] + Body(rs[0]), BodyLines(pads[1..], rs[1..]));
      RulesAfter(st, rs);
    }
  }

  lemma {:induction false} BodyLinesAreLines(pads: seq<string>, rs: seq<Rule>)
    requires Bodies(pads, rs)
    ensures AllOneLine(BodyLines(pads, rs))
  {
    if rs != [] {
      ScanBodyLine(State(true, true, []), pads[0], rs[0]);
      BodyLinesAreLines(pads[1..], rs[1..]);
    }
  }

  lemma {:induction false} ScanOutside(st: State, ls: seq<string>)
    requires !st.inInput && AllOutside(ls)
    ensures ScanFrom(st, ls) == st
    decreases |ls|
  {
    if ls != [] { ScanOutside(st, ls[1..]); }
  }

  lemma ScanChain(open: string, bodies: seq<string>, close: string, rs: seq<Rule>)
    requires Opens(open) && Closes(close)
    requires ScanFrom(State(true, true, []), bodies) == State(true, true, rs)
    ensures ScanFrom(State(false, false, []), [open] + bodies + [close]) == State(false, true, rs)
  {
    ScanAppend(State(false, false, []), [open] + bodies, [close]);
    ScanAppend(State(false, false, []), [open], bodies);
  }

  lemma ScanAround(pre: seq<string>, chain: seq<string>, post: seq<string>, rs: seq<Rule>)
    requires AllOutside(pre) && AllOutside(post)
    requires ScanFrom(State(false, false, []), chain) == State(false, true, rs)
    ensures Scan(pre + chain + post) == State(false, true, rs)
  {
    var st := State(false, false, []);
    ScanAppend(st, pre + chain, post);
    ScanAppend(st, pre, chain);
    ScanOutside(st, pre);
    ScanOutside(State(false, true, rs), post);
  }

  /**
    The bodies the code adds, listed inside the INPUT chain with any indentation and any other chains
    around it, are read back as exactly those rules, in order.
  */
  lemma NftRoundTrip(pre: seq<string>, open: string, pads: seq<string>, rs: seq<Rule>, close: string, post: seq<string>)
    requires Opens(open) && Closes(close) && Bodies(pads, rs)
    requires AllOutside(pre) && AllOutside(post)
    ensures Scan(Lines(Unlines(pre + ([open] + BodyLines(pads, rs) + [close]) + post))) == State(false, true, rs)
  {
    var bodies := BodyLines(pads, rs);
    var chain := [open] + bodies + [close];
    BodyLinesAreLines(pads, rs);
    assert AllOneLine(chain);
    assert AllOneLine(pre + chain + post);
    LinesUnlines(pre + chain + post);
    ScanBodyLines(State(true, true, []), pads, rs);
    assert [] + rs == rs;
    ScanChain(open, bodies, close, rs);
    ScanAround(pre, chain, post, rs);
  }

  // ---- finding a rule's handle ----

  function Contains(s: string, t: string): bool {
    StartsWith(s, t) || (s != "" && Contains(s[1..], t))
  }

  /** `# handle (\d+)` */
  function FindHandle(s: string): Option<string> {
    if StartsWith(s, "# handle ") && DigitLen(s[9..]) > 0 then Some(s[9..][..DigitLen(s[9..])])
    else if s == "" then None
    else FindHandle(s[1..])
  }

  lemma {:induction false} HandleIsMarked(s: string)
    ensures FindHandle(s).Some? ==> Contains(s, "# handle")
  {
    if StartsWith(s, "# handle ") {
      assert s[..9][..8] == s[..8];
    } else if s != "" {
      HandleIsMarked(s[1..]);
    }
  }

  /** The handle on this line, when the line shows a rule equal to this one. */
  function LineHandle(line: string, rule: Rule): Option<string> {
    match FindNft(line)
    case None => None
    case Some(m) =>
      if m.proto == rule.proto && Colon(m.port) == rule.port && m.verb == NftVerb(rule.action)
         && m.source == rule.source
      then FindHandle(line) else None
  }

  function FirstHandle(ls: seq<string>, rule: Rule): string {
    if ls == [] then ""
    else if LineHandle(ls[0], rule).Some? then LineHandle(ls[0], rule).value
    else FirstHandle(ls[1..], rule)
  }

  lemma {:induction false} FirstHandleSkips(before: seq<string>, ls: seq<string>, rule: Rule)
    requires forall i :: 0 <= i < |before| ==> LineHandle(before[i], rule).None?
    ensures FirstHandle(before + ls, rule) == FirstHandle(ls, rule)
  {
    if before == [] {
      assert before + ls == ls;
    } else {
      assert (before + ls)[1..] == before[1..] + ls;
      FirstHandleSkips(before[1..], ls, rule);
    }
  }

  method MatchNftHandle(out: string, rule: Rule) returns (handle: string)
    ensures handle == FirstHandle(Lines(out), rule)
  {
    var ls := Lines(out);
    var i := 0;
    while i < |ls|
      invariant 0 <= i <= |ls|
      invariant forall j :: 0 <= j < i ==> LineHandle(ls[j], rule).None?
    {
      var line := ls[i];
      assert ls[..i] + ls[i..] == ls;
      FirstHandleSkips(ls[..i], ls[i..], rule);
      HandleIsMarked(line);
      i := i + 1;
      if !Contains(line, "# handle") {
        continue;
      }
      var found := FindNft(line);
      if found.None? {
        continue;
      }
      var m := found.value;
      if m.proto != rule.proto || Colon(m.port) != rule.port || m.verb != NftVerb(rule.action) {
        continue;
      }
      if (m.source == "") != (rule.source == "") {
        continue;
      }
      if m.source != "" && m.source != rule.source {
        continue;
      }
      var h := FindHandle(line);
      if h.Some? {
        return h.value;
      }
    }
    FirstHandleSkips(ls, [], rule);
    assert ls + [] == ls;
    return "";
  }

  /** A line of the listing with handles: a rule, or something that shows none. */
  datatype Listed = Shown(pad: string, rule: Rule, handle: string) | Other(text: string)

  function ListedText(l: Listed): string {
    match l
    case Shown(pad, r, h) => pad + Body(r) + " # handle " + h
    case Other(text) => text
  }

  predicate Listing(l: Listed) {
    match l
    case Shown(pad, r, h) => Indent(pad) && Ready(r) && h != "" && Digits(h)
    case Other(text) => OneLine(text) && FindNft(text).None?
  }

  function ListedTexts(ls: seq<Listed>): seq<string> {
    if ls == [] then [] else [ListedText(ls[0])] + ListedTexts(ls[1..])
  }

  predicate Shows(l: Listed, rule: Rule) {
    l.Shown? && l.rule == rule
  }

  /** The handle of the first rule equal to this one. */
  function HandleOf(ls: seq<Listed>, rule: Rule): string {
    if ls == [] then ""
    else if Shows(ls[0], rule) then ls[0].handle
    else HandleOf(ls[1..], rule)
  }

  lemma {:induction false} HandleAfter(s: string, h: string)
    requires '#' !in s && h != "" && Digits(h)
    ensures FindHandle(s + "# handle " + h) == Some(h)
  {
    var t := s + "# handle " + h;
    if s == "" {
      assert t == "# handle " + h;
      assert t[..9] == "# handle " && t[9..] == h;
      assert forall i :: 0 <= i < |h| ==> Digit(h[i]);
      DigitLenOf(h);
      assert h[..|h|] == h;
    } else {
      assert t[0] == s[0] && t[0] != '#';
      assert t[1..] == s[1..] + "# handle " + h;
      HandleAfter(s[1..], h);
    }
  }

  lemma BodyHasNoHash(r: Rule)
    requires Ready(r)
    ensures '#' !in Body(r)
  {
    ValidTexts(r);
    HyphenText(r.port);
    SourceLetters(r.source);
    BodyText(r);
    NoHashIn(r.proto, " dport ", Hyphen(r.port));
    NoHashIn(r.proto + " dport " + Hyphen(r.port), " ", NftVerb(r.action));
    if r.source != "" {
      NoHashIn(Family(r.source), " saddr ", r.source);
      NoHashIn(Family(r.source) + " saddr " + r.source, " ", TailText(r));
    }
  }

  lemma NoHashIn(a: string, b: string, c: string)
    requires '#' !in a && '#' !in b && '#' !in c
    ensures '#' !in a + b + c
  {
  }

  lemma Regroup(a: string, b: string, c: string, d: string)
    ensures a + b + c + d == a + (b + (c + d))
  {
  }

  lemma ShownMatch(pad: string, r: Rule, h: string)
    requires Indent(pad) && Ready(r)
    ensures FindNft(pad + Body(r) + " # handle " + h)
            == Some(NftMatch(r.source, r.proto, Hyphen(r.port), NftVerb(r.action)))
  {
    Regroup(pad, Body(r), " # handle ", h);
    FindSkipsPad(pad, Body(r) + (" # handle " + h));
    BodyMatches(r, " # handle " + h);
  }

  lemma LineHandleOf(l: Listed, rule: Rule)
    requires Listing(l) && Ready(rule)
    ensures LineHandle(ListedText(l), rule) ==
            if l.Shown? && l.rule == rule then Some(l.handle) else None
  {
    match l
    case Other(text) =>
    case Shown(pad, r, h) =>
      ShownMatch(pad, r, h);
      ShownHandle(pad, r, h);
      HyphenColon(r.port);
      assert (NftVerb(r.action) == NftVerb(rule.action)) == (r.action == rule.action);
  }

  lemma ShownHandle(pad: string, r: Rule, h: string)
    requires Indent(pad) && Ready(r) && h != "" && Digits(h)
    ensures FindHandle(pad + Body(r) + " # handle " + h) == Some(h)
  {
    BodyHasNoHash(r);
    HandleAfter(pad + Body(r) + " ", h);
    assert pad + Body(r) + " # handle " + h == pad + Body(r) + " " + "# handle " + h;
  }

  lemma ShownLine(pad: string, r: Rule, h: string)
    requires Indent(pad) && Ready(r) && Digits(h)
    ensures OneLine(pad + Body(r) + " # handle " + h)
  {
    CommandWords(r);
    UnwordsEnds(NftWords(r));
    assert forall i :: 0 <= i < |h| ==> Digit(h[i]);
  }

  predicate AllListings(ls: seq<Listed>) {
    forall i :: 0 <= i < |ls| ==> Listing(ls[i])
  }

  lemma {:induction false} HandleInTexts(ls: seq<Listed>, rule: Rule)
    requires Ready(rule) && AllListings(ls)
    ensures FirstHandle(ListedTexts(ls), rule) == HandleOf(ls, rule)
  {
    if ls != [] {
      LineHandleOf(ls[0], rule);
      HandleInTexts(ls[1..], rule);
      assert ListedTexts(ls)[1..] == ListedTexts(ls[1..]);
    }
  }

  lemma {:induction false} ListedTextsAreLines(ls: seq<Listed>)
    requires AllListings(ls)
    ensures AllOneLine(ListedTexts(ls)) && |ListedTexts(ls)| == |ls|
  {
    if ls != [] {
      ListedTextsAreLines(ls[1..]);
      match ls[0]
      case Other(text) =>
      case Shown(pad, r, h) => ShownLine(pad, r, h);
    }
  }

  /** On a listing of rules with handles, the handle found is that of the first rule equal to this one, or "". */
  lemma HandleIsFirstEqual(ls: seq<Listed>, rule: Rule)
    requires Ready(rule) && AllListings(ls) && ls != []
    ensures FirstHandle(Lines(Unlines(ListedTexts(ls))), rule) == HandleOf(ls, rule)
  {
    ListedTextsAreLines(ls);
    LinesUnlines(ListedTexts(ls));
    HandleInTexts(ls, rule);
  }

  /** Nothing is found exactly when no equal rule is listed. */
  lemma {:induction false} NoHandleIff(ls: seq<Listed>, rule: Rule)
    requires AllListings(ls)
    ensures HandleOf(ls, rule) == "" <==> forall l :: l in ls ==> !Shows(l, rule)
  {
    if ls != [] {
      NoHandleIff(ls[1..], rule);
      assert ls == [ls[0]] + ls[1..];
      assert Listing(ls[0]) && ls[0] in ls;
    }
  }
}
