/** Listing rules with iptables (internal/firewall/parse.go:192-244). */
module Iptables {
  import opened Wrappers
  import opened Text
  import opened Regex
  import opened FirewallRules

  const POLICY := "-P INPUT "
  const APPEND := "-A INPUT "

  /** One `-A INPUT` line; lines without a single port, or with other protocols or targets, are not shown. */
  function RuleOf(t: string): Option<Rule> {
    if !StartsWith(t, APPEND) then None
    else
      var port := FindFlag(t, "--dport", true);
      var proto := FindFlag(t, "-p", true);
      var target := FindFlag(t, "-j", true);
      var source := FindFlag(t, "-s", true);
      if port.None? || (proto != Some("tcp") && proto != Some("udp")) then None
      else if target != Some("ACCEPT") && target != Some("DROP") && target != Some("REJECT") then None
      else Some(Rule(Colon(port.value), proto.value, if target == Some("ACCEPT") then Allow else Deny,
                     if source.Some? then source.value else ""))
  }

  /** One more line: a policy decides whether the chain is active, a rule is added. */
  function WithLine(found: (bool, seq<Rule>), line: string): (bool, seq<Rule>) {
    var t := TrimSpace(line);
    if StartsWith(t, POLICY) then (TrimSpace(t[|POLICY|..]) != "ACCEPT", found.1)
    else
      match RuleOf(t)
      case None => found
      case Some(r) => (found.0, found.1 + [r])
  }

  /** Whether the lines so far make the chain active, and the rules found. */
  function Scan(ls: seq<string>): (bool, seq<Rule>) {
    if ls == [] then (false, []) else WithLine(Scan(ls[..|ls| - 1]), ls[|ls| - 1])
  }

  lemma ScanSnoc(ls: seq<string>, i: nat)
    requires i < |ls|
    ensures Scan(ls[..i + 1]) == WithLine(Scan(ls[..i]), ls[i])
  {
    assert ls[..i + 1][..i] == ls[..i];
  }

  lemma BlankLine(found: (bool, seq<Rule>), line: string)
    requires TrimSpace(line) == ""
    ensures WithLine(found, line) == found
  {
  }

  function Parse(out: string): (bool, seq<Rule>) {
    var (active, rules) := Scan(Lines(out));
    (active || rules != [], rules)
  }

  method ParseIptables(out: string) returns (active: bool, rules: seq<Rule>)
    ensures (active, rules) == Parse(out)
  {
    active, rules := false, [];
    var ls := Lines(out);
    var i := 0;
    while i < |ls|
      invariant 0 <= i <= |ls|
      invariant (active, rules) == Scan(ls[..i])
    {
      ScanSnoc(ls, i);
      var t := TrimSpace(ls[i]);
      i := i + 1;
      if t == "" {
        BlankLine((active, rules), ls[i - 1]);
        continue;
      }
      if StartsWith(t, POLICY) {
        active := TrimSpace(t[|POLICY|..]) != "ACCEPT";
        continue;
      }
      var r := RuleOf(t);
      if r.Some? {
        rules := rules + [r.value];
      }
    }
    assert ls[..i] == ls;
    if |rules| > 0 {
      active := true;
    }
  }

  function Line(r: Rule): string {
    Unwords(IptablesWords(r))
  }

  function LinesOf(rs: seq<Rule>): seq<string> {
    if rs == [] then [] else LinesOf(rs[..|rs| - 1]) + [Line(rs[|rs| - 1])]
  }

  function Target(r: Rule): string {
    if r.action.Deny? then "DROP" else "ACCEPT"
  }

  function SourceWords(r: Rule): seq<string> {
    if r.source == "" then [] else ["-s", r.source]
  }

  lemma {:induction false} AfterPrefix(p: seq<string>, ws: seq<string>, flag: string)
    requires flag !in p && ws != []
    ensures After(p + ws, flag) == After(ws, flag)
  {
    if p == [] {
      assert p + ws == ws;
    } else {
      assert (p + ws)[1..] == p[1..] + ws;
      AfterPrefix(p[1..], ws, flag);
    }
  }

  lemma {:induction false} AfterNothing(ws: seq<string>, flag: string)
    requires flag !in ws
    ensures After(ws, flag).None?
  {
    if |ws| >= 2 { AfterNothing(ws[1..], flag); }
  }

  lemma FlagAt(p: seq<string>, flag: string, value: string, rest: seq<string>)
    requires flag !in p
    ensures After(p + [flag, value] + rest, flag) == Some(value)
  {
    AfterPrefix(p, [flag, value] + rest, flag);
    assert p + ([flag, value] + rest) == p + [flag, value] + rest;
  }

  predicate NoFlag(s: string) { s != "" ==> s[0] != '-' }

  lemma FlagsOfLine(r: Rule)
    requires NoFlag(r.source) && NoFlag(r.port) && NoFlag(r.proto)
    ensures After(IptablesWords(r), "-p") == Some(r.proto)
    ensures After(IptablesWords(r), "--dport") == Some(r.port)
    ensures After(IptablesWords(r), "-j") == Some(Target(r))
    ensures After(IptablesWords(r), "-s") == if r.source == "" then None else Some(r.source)
  {
    var ws := IptablesWords(r);
    var head := ["-A", "INPUT"] + SourceWords(r);
    var onProto, onPort, onTarget := ["-p", r.proto], ["--dport", r.port], ["-j", Target(r)];
    assert ws == head + onProto + (onPort + onTarget);
    FlagAt(head, "-p", r.proto, onPort + onTarget);
    assert ws == (head + onProto) + onPort + onTarget;
    FlagAt(head + onProto, "--dport", r.port, onTarget);
    assert ws == (head + onProto + onPort) + onTarget + [];
    FlagAt(head + onProto + onPort, "-j", Target(r), []);
    if r.source == "" {
      AfterNothing(ws, "-s");
    } else {
      assert ws == ["-A", "INPUT"] + ["-s", r.source] + (onProto + onPort + onTarget);
      FlagAt(["-A", "INPUT"], "-s", r.source, onProto + onPort + onTarget);
    }
  }

  lemma NoFlags(r: Rule)
    requires Ready(r)
    ensures NoFlag(r.source) && NoFlag(r.port) && NoFlag(r.proto)
  {
    ValidTexts(r);
    SourceLetters(r.source);
    PortLetters(r.port);
  }

  lemma LineFlags(r: Rule)
    requires Ready(r)
    ensures FindFlag(Line(r), "-p", true) == Some(r.proto)
    ensures FindFlag(Line(r), "--dport", true) == Some(r.port)
    ensures FindFlag(Line(r), "-j", true) == Some(Target(r))
    ensures FindFlag(Line(r), "-s", true) == if r.source == "" then None else Some(r.source)
  {
    var ws := IptablesWords(r);
    CommandWords(r);
    NoFlags(r);
    FlagsOfLine(r);
    FindFlagInWords(ws, "--dport");
    FindFlagInWords(ws, "-p");
    FindFlagInWords(ws, "-j");
    FindFlagInWords(ws, "-s");
  }

  lemma LineParses(r: Rule)
    requires Ready(r)
    ensures RuleOf(Line(r)) == Some(r)
  {
    LineStart(r);
    LineFlags(r);
    HyphenColon(r.port);
  }

  lemma LineText(r: Rule)
    requires Ready(r)
    ensures TrimSpace(Line(r)) == Line(r) && OneLine(Line(r)) && Line(r) != ""
  {
    CommandWords(r);
    UnwordsEnds(IptablesWords(r));
    TrimNothing(Line(r));
  }

  lemma UnwordsTwo(a: string, b: string, rest: seq<string>)
    requires rest != []
    ensures Unwords([a, b] + rest) == a + " " + b + " " + Unwords(rest)
  {
    var ws := [a, b] + rest;
    assert ws[1..] == [b] + rest && ([b] + rest)[1..] == rest;
    assert Unwords([b] + rest) == b + " " + Unwords(rest);
  }

  lemma LineStart(r: Rule)
    ensures StartsWith(Line(r), APPEND) && !StartsWith(Line(r), POLICY)
  {
    var ws := IptablesWords(r);
    var rest := ws[2..];
    assert ws == ["-A", "INPUT"] + rest && rest != [];
    UnwordsTwo("-A", "INPUT", rest);
    assert "-A" + " " + "INPUT" + " " == APPEND;
    assert Line(r)[..|POLICY|][1] == 'A' && POLICY[1] == 'P';
  }

  lemma ScanLine(ls: seq<string>, rs: seq<Rule>, r: Rule)
    requires Scan(ls) == (false, rs) && Ready(r)
    ensures Scan(ls + [Line(r)]) == (false, rs + [r])
  {
    assert (ls + [Line(r)])[..|ls|] == ls;
    LineText(r);
    LineStart(r);
    LineParses(r);
  }

  /** These lines are read back as these rules. */
  predicate ReadBack(ls: seq<string>, rs: seq<Rule>) {
    |ls| == |rs| && AllOneLine(ls) && Scan(ls) == (false, rs)
  }

  lemma OneMoreLine(ls: seq<string>, rs: seq<Rule>, r: Rule)
    requires ReadBack(ls, rs) && Ready(r)
    ensures ReadBack(ls + [Line(r)], rs + [r])
  {
    ScanLine(ls, rs, r);
    LineText(r);
  }

  lemma {:induction false} LinesParse(rs: seq<Rule>) returns (ls: seq<string>)
    requires AllReady(rs)
    ensures ls == LinesOf(rs) && ReadBack(ls, rs)
  {
    ls := [];
    if rs != [] {
      var init, r := rs[..|rs| - 1], rs[|rs| - 1];
      AllReadyLast(rs);
      ls := LinesParse(init);
      OneMoreLine(ls, init, r);
      ls := ls + [Line(r)];
    }
  }

  lemma ParseOfNothing()
    ensures Parse("") == (false, [])
  {
    assert Lines("") == [""] && [""][..0] == [];
  }

  lemma ParseOfLines(ls: seq<string>, rs: seq<Rule>)
    requires ReadBack(ls, rs) && rs != []
    ensures Parse(Unlines(ls)) == (true, rs)
  {
    LinesUnlines(ls);
  }

  /** Parsing the lines the code builds for any list of rules gives back exactly those rules, in order. */
  lemma IptablesRoundTrip(rs: seq<Rule>)
    requires AllReady(rs)
    ensures Parse(Unlines(LinesOf(rs))) == (rs != [], rs)
  {
    var ls := LinesParse(rs);
    if rs == [] {
      ParseOfNothing();
    } else {
      ParseOfLines(ls, rs);
    }
  }

  /** In particular a rule for both protocols is read back as its two halves. */
  lemma IptablesRoundTripOne(r: Rule)
    requires ValidRule(r)
    ensures Parse(Unlines(LinesOf(ExpandProto(r)))).1 == ExpandProto(r)
  {
    ExpandIsReady(r);
    IptablesRoundTrip(ExpandProto(r));
  }
}
