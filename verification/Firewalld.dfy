/** Listing rules with firewalld (internal/firewall/parse.go:147-188). */
module Firewalld {
  import opened Wrappers
  import opened Text
  import opened Regex
  import opened FirewallRules

  // ---- LEAD([^"]*)" ----

  /** What stands between the first occurrence of the lead that is closed by a quote and that quote. */
  function FindQuoted(s: string, lead: string): Option<string> {
    if StartsWith(s, lead) && UnquotedLen(s[|lead|..]) < |s| - |lead| then
      Some(s[|lead|..][..UnquotedLen(s[|lead|..])])
    else if s == "" then None
    else FindQuoted(s[1..], lead)
  }

  predicate AllReSpace(s: string) {
    forall i :: 0 <= i < |s| ==> ReSpace(s[i])
  }

  predicate EndsAfter(s: string, word: string) {
    StartsWith(s, word) && AllReSpace(s[|word|..])
  }

  /** `(accept|reject|drop)\s*$` */
  function FindAction(s: string): Option<string> {
    if EndsAfter(s, "accept") then Some("accept")
    else if EndsAfter(s, "reject") then Some("reject")
    else if EndsAfter(s, "drop") then Some("drop")
    else if s == "" then None
    else FindAction(s[1..])
  }

  // ---- parsing ----

  /** `port/proto`, split at the first slash; anything else is not shown. */
  function PlainOf(spec: string): Option<Rule> {
    var k := IndexOf(spec, '/');
    if k == |spec| || k == 0 then None else Some(Rule(Colon(spec[..k]), spec[k + 1..], Allow, ""))
  }

  function RichOf(t: string): Option<Rule> {
    var port := FindQuoted(t, PORT);
    if port.None? || port.value == "" then None
    else
      var proto := FindQuoted(t, PROTO);
      var source := FindQuoted(t, SOURCE);
      var action := FindAction(t);
      Some(Rule(Colon(port.value), if proto.Some? then proto.value else "",
                if action.Some? && action.value != "accept" then Deny else Allow,
                if source.Some? then source.value else ""))
  }

  function PlainRules(specs: seq<string>): seq<Rule> {
    if specs == [] then [] else SpecRules(specs[0]) + PlainRules(specs[1..])
  }

  function SpecRules(spec: string): seq<Rule> {
    match PlainOf(spec)
    case None => []
    case Some(r) => [r]
  }

  lemma PlainNext(rules: seq<Rule>, specs: seq<string>, i: nat)
    requires i < |specs|
    ensures rules + PlainRules(specs[i..]) == (rules + SpecRules(specs[i])) + PlainRules(specs[i + 1..])
  {
    assert specs[i..][1..] == specs[i + 1..];
  }

  function LineRules(line: string): seq<Rule> {
    match RichOf(TrimSpace(line))
    case None => []
    case Some(r) => [r]
  }

  function RichRules(ls: seq<string>): seq<Rule> {
    if ls == [] then [] else LineRules(ls[0]) + RichRules(ls[1..])
  }

  lemma {:induction false} RichRulesSnoc(ls: seq<string>, line: string)
    ensures RichRules(ls + [line]) == RichRules(ls) + LineRules(line)
  {
    if ls == [] {
      assert ls + [line] == [line];
    } else {
      assert (ls + [line])[1..] == ls[1..] + [line];
      RichRulesSnoc(ls[1..], line);
    }
  }

  function Parse(portsOut: string, richOut: string): seq<Rule> {
    PlainRules(Fields(portsOut)) + RichRules(Lines(richOut))
  }

  lemma {:induction false} NothingQuoted(s: string, lead: string)
    requires lead != "" && lead[0] !in s
    ensures FindQuoted(s, lead).None?
  {
    if s != "" {
      assert s[0] in s;
      NothingQuoted(s[1..], lead);
    }
  }

  method ReadRich(t: string) returns (r: Option<Rule>)
    ensures r == RichOf(t)
  {
    var port := FindQuoted(t, PORT);
    if port.None? || port.value == "" {
      return None;
    }
    var rule := Rule(Colon(port.value), "", Allow, "");
    var proto := FindQuoted(t, PROTO);
    if proto.Some? {
      rule := rule.(proto := proto.value);
    }
    var source := FindQuoted(t, SOURCE);
    if source.Some? {
      rule := rule.(source := source.value);
    }
    var action := FindAction(t);
    if action.Some? && action.value != "accept" {
      rule := rule.(action := Deny);
    }
    return Some(rule);
  }

  method ReadPorts(portsOut: string) returns (rules: seq<Rule>)
    ensures rules == PlainRules(Fields(portsOut))
  {
    rules := [];
    var specs := Fields(portsOut);
    var i := 0;
    while i < |specs|
      invariant 0 <= i <= |specs|
      invariant rules + PlainRules(specs[i..]) == PlainRules(specs)
    {
      var spec := specs[i];
      PlainNext(rules, specs, i);
      i := i + 1;
      var k := IndexOf(spec, '/');
      if k == |spec| || k == 0 {
        assert rules + SpecRules(spec) == rules;
        continue;
      }
      rules := rules + [Rule(Colon(spec[..k]), spec[k + 1..], Allow, "")];
    }
  }

  lemma RichStep(ls: seq<string>, i: nat)
    requires i < |ls|
    ensures RichRules(ls[..i + 1]) == RichRules(ls[..i]) + LineRules(ls[i])
  {
    assert ls[..i + 1] == ls[..i] + [ls[i]];
    RichRulesSnoc(ls[..i], ls[i]);
  }

  lemma BlankLine(line: string)
    requires TrimSpace(line) == ""
    ensures LineRules(line) == []
  {
    NothingQuoted("", PORT);
  }

  method ReadRichRules(richOut: string) returns (rules: seq<Rule>)
    ensures rules == RichRules(Lines(richOut))
  {
    rules := [];
    var ls := Lines(richOut);
    var i := 0;
    while i < |ls|
      invariant 0 <= i <= |ls|
      invariant rules == RichRules(ls[..i])
    {
      var t := TrimSpace(ls[i]);
      RichStep(ls, i);
      i := i + 1;
      if t == "" {
        BlankLine(ls[i - 1]);
        continue;
      }
      var r := ReadRich(t);
      if r.Some? {
        rules := rules + [r.value];
      }
    }
    assert ls[..i] == ls;
  }

  method ParseFirewalld(portsOut: string, richOut: string) returns (rules: seq<Rule>)
    ensures rules == Parse(portsOut, richOut)
  {
    var plain := ReadPorts(portsOut);
    var rich := ReadRichRules(richOut);
    rules := plain + rich;
  }

  // ---- plain ports ----

  lemma SpecSplits(port: string, proto: string)
    requires '/' !in port
    ensures var s := port + "/" + proto; var k := IndexOf(s, '/');
            k == |port| < |s| && s[..k] == port && s[k + 1..] == proto
  {
    IndexOfFirst(port, '/', proto);
    assert ['/'] == "/";
  }

  lemma PlainParses(r: Rule)
    requires Ready(r) && IsPlain(r)
    ensures PlainOf(PortSpec(r)) == Some(r)
  {
    ValidTexts(r);
    HyphenText(r.port);
    HyphenColon(r.port);
    SpecSplits(Hyphen(r.port), r.proto);
  }

  lemma SpecSaysPlain(spec: string)
    ensures PlainOf(spec).Some? ==> PlainOf(spec).value.source == "" && PlainOf(spec).value.action.Allow?
  {
  }

  /** A port spec is used for exactly the rules it can express: those allowed from anywhere. */
  lemma PlainIff(r: Rule)
    requires Ready(r)
    ensures IsPlain(r) <==> PlainOf(PortSpec(r)) == Some(r)
    ensures IsPlain(r) <==> r.source == "" && r.action == Allow
  {
    SpecSaysPlain(PortSpec(r));
    if IsPlain(r) { PlainParses(r); }
  }

  lemma PlainWord(r: Rule)
    requires Ready(r)
    ensures Word(PortSpec(r))
  {
    ValidTexts(r);
    HyphenText(r.port);
    assert Word(r.proto) && Word("/");
  }

  function PortSpecs(rs: seq<Rule>): seq<string> {
    if rs == [] then [] else [PortSpec(rs[0])] + PortSpecs(rs[1..])
  }

  predicate AllPlain(rs: seq<Rule>) {
    forall i :: 0 <= i < |rs| ==> IsPlain(rs[i])
  }

  lemma PlainRulesCons(spec: string, specs: seq<string>)
    ensures PlainRules([spec] + specs) == SpecRules(spec) + PlainRules(specs)
  {
    assert ([spec] + specs)[1..] == specs;
  }

  lemma {:induction false} PlainRulesParse(rs: seq<Rule>)
    requires AllReady(rs) && AllPlain(rs)
    ensures PlainRules(PortSpecs(rs)) == rs
  {
    if rs != [] {
      AllReadyHead(rs);
      PlainParses(rs[0]);
      PlainRulesParse(rs[1..]);
      PlainRulesCons(PortSpec(rs[0]), PortSpecs(rs[1..]));
    }
  }

  lemma {:induction false} PortSpecsAreWords(rs: seq<Rule>)
    requires AllReady(rs)
    ensures Words(PortSpecs(rs))
  {
    if rs != [] {
      AllReadyHead(rs);
      PlainWord(rs[0]);
      PortSpecsAreWords(rs[1..]);
    }
  }

  // ---- rich rules ----

  predicate NoStartAt(a: string, i: nat, lead: string)
    requires |lead| >= 2 && i < |a|
  {
    a[i] != lead[0] || (i + 1 < |a| && a[i + 1] != lead[1])
  }

  /** No place in this text where the lead could begin, whatever follows the text. */
  predicate NoStart(a: string, lead: string)
    requires |lead| >= 2
  {
    forall i :: 0 <= i < |a| ==> NoStartAt(a, i, lead)
  }

  lemma NoStartTail(a: string, s: string, lead: string)
    requires |lead| >= 2 && NoStart(a, lead) && a != ""
    ensures NoStart(a[1..], lead) && !StartsWith(a + s, lead)
  {
    forall i | 0 <= i < |a[1..]| ensures NoStartAt(a[1..], i, lead) {
      assert NoStartAt(a, i + 1, lead);
    }
    assert NoStartAt(a, 0, lead);
  }

  lemma {:induction false} FindSkips(a: string, s: string, lead: string)
    requires |lead| >= 2 && NoStart(a, lead)
    ensures FindQuoted(a + s, lead) == FindQuoted(s, lead)
  {
    if a == "" {
      assert a + s == s;
    } else {
      NoStartTail(a, s, lead);
      assert (a + s)[1..] == a[1..] + s;
      FindSkips(a[1..], s, lead);
    }
  }

  lemma FoundHere(lead: string, value: string, rest: string)
    requires '"' !in value
    ensures FindQuoted(Quoted(lead, value) + rest, lead) == Some(value)
  {
    var s := Quoted(lead, value) + rest;
    assert s[..|lead|] == lead && s[|lead|..] == value + ("\"" + rest);
    UnquotedLenOf(value, "\"" + rest);
    assert (value + ("\"" + rest))[..|value|] == value;
  }

  lemma FoundAfter(a: string, lead: string, value: string, rest: string)
    requires |lead| >= 2 && NoStart(a, lead) && '"' !in value
    ensures FindQuoted(a + Quoted(lead, value) + rest, lead) == Some(value)
  {
    FindSkips(a, Quoted(lead, value) + rest, lead);
    FoundHere(lead, value, rest);
    assert a + (Quoted(lead, value) + rest) == a + Quoted(lead, value) + rest;
  }

  lemma NoStartAppend(a: string, b: string, lead: string)
    requires |lead| >= 2 && NoStart(a, lead) && NoStart(b, lead)
    ensures NoStart(a + b, lead)
  {
    forall i | 0 <= i < |a + b| ensures NoStartAt(a + b, i, lead) {
      if i < |a| {
        assert NoStartAt(a, i, lead);
      } else {
        assert NoStartAt(b, i - |a|, lead);
      }
    }
  }

  lemma NoStartQuoted(lead': string, value: string, lead: string)
    requires |lead| >= 2 && NoStart(lead', lead) && lead[0] !in value && lead[0] != '"'
    ensures NoStart(Quoted(lead', value), lead)
  {
    assert NoStart(value, lead) && NoStart("\"", lead);
    NoStartAppend(lead', value, lead);
    NoStartAppend(lead' + value, "\"", lead);
  }

  /** The three places a rich rule is cut at, and its last word. */
  lemma Regroup(head: string, port: string, proto: string, verb: string)
    ensures var s := head + port + " " + proto + " " + verb;
            && s == head + port + (" " + proto + " " + verb)
            && s == (head + port + " ") + proto + (" " + verb)
            && s == (head + port + " " + proto + " ") + verb
  {
  }

  lemma RegroupSource(family: string, source: string, port: string, proto: string, verb: string)
    ensures (family + source + " ") + port + " " + proto + " " + verb
            == family + source + (" " + port + " " + proto + " " + verb)
  {
  }

  lemma HeadHasNoStart(source: string, lead: string)
    requires SourceText(source) && lead in {PORT, PROTO}
    ensures NoStart(RichHead(source), lead)
  {
    SourceLetters(source);
    if source == "" {
      assert NoStart("rule ", lead);
    } else {
      assert NoStart(RichFamily(source), lead) && NoStart(SOURCE, lead) && NoStart(" ", lead);
      NoStartQuoted(SOURCE, source, lead);
      NoStartAppend(RichFamily(source), Quoted(SOURCE, source), lead);
      NoStartAppend(RichFamily(source) + Quoted(SOURCE, source), " ", lead);
    }
  }

  lemma PortFound(r: Rule)
    requires Ready(r)
    ensures FindQuoted(RichRule(r), PORT) == Some(Hyphen(r.port))
  {
    ValidTexts(r);
    HyphenText(r.port);
    HeadHasNoStart(r.source, PORT);
    var proto, verb := Quoted(PROTO, r.proto), RichVerb(r.action);
    FoundAfter(RichHead(r.source), PORT, Hyphen(r.port), " " + proto + " " + verb);
    Regroup(RichHead(r.source), Quoted(PORT, Hyphen(r.port)), proto, verb);
  }

  lemma UpToProto(r: Rule)
    requires Ready(r)
    ensures NoStart(RichHead(r.source) + Quoted(PORT, Hyphen(r.port)) + " ", PROTO)
  {
    ValidTexts(r);
    HyphenText(r.port);
    HeadHasNoStart(r.source, PROTO);
    assert NoStart(PORT, PROTO) && NoStart(" ", PROTO);
    NoStartQuoted(PORT, Hyphen(r.port), PROTO);
    NoStartAppend(RichHead(r.source), Quoted(PORT, Hyphen(r.port)), PROTO);
    NoStartAppend(RichHead(r.source) + Quoted(PORT, Hyphen(r.port)), " ", PROTO);
  }

  lemma ProtoFound(r: Rule)
    requires Ready(r)
    ensures FindQuoted(RichRule(r), PROTO) == Some(r.proto)
  {
    UpToProto(r);
    var port, verb := Quoted(PORT, Hyphen(r.port)), RichVerb(r.action);
    FoundAfter(RichHead(r.source) + port + " ", PROTO, r.proto, " " + verb);
    Regroup(RichHead(r.source), port, Quoted(PROTO, r.proto), verb);
  }

  lemma SourceFound(r: Rule)
    requires Ready(r)
    ensures FindQuoted(RichRule(r), SOURCE) == if r.source == "" then None else Some(r.source)
  {
    ValidTexts(r);
    HyphenText(r.port);
    SourceLetters(r.source);
    if r.source == "" {
      assert 's' !in RichRule(r);
      NothingQuoted(RichRule(r), SOURCE);
    } else {
      var port, proto, verb := Quoted(PORT, Hyphen(r.port)), Quoted(PROTO, r.proto), RichVerb(r.action);
      assert NoStart(RichFamily(r.source), SOURCE);
      FoundAfter(RichFamily(r.source), SOURCE, r.source, " " + port + " " + proto + " " + verb);
      RegroupSource(RichFamily(r.source), Quoted(SOURCE, r.source), port, proto, verb);
    }
  }

  lemma {:induction false} ActionFound(a: string, verb: string)
    requires verb in {"accept", "reject"}
    ensures FindAction(a + verb) == Some(verb)
  {
    var s := a + verb;
    if a == "" {
      assert s == verb;
      assert verb[|verb|..] == "";
      assert verb == "reject" ==> verb[..6][0] == 'r';
    } else {
      assert s[1..] == a[1..] + verb;
      LastIsNoSpace(s, "accept");
      LastIsNoSpace(s, "reject");
      LastIsNoSpace(s, "drop");
      ActionFound(a[1..], verb);
    }
  }

  lemma LastIsNoSpace(s: string, word: string)
    requires |s| > |word| && !ReSpace(s[|s| - 1])
    ensures !EndsAfter(s, word)
  {
    var t := s[|word|..];
    assert t[|t| - 1] == s[|s| - 1];
  }

  lemma RichAction(r: Rule)
    ensures FindAction(RichRule(r)) == Some(RichVerb(r.action))
  {
    var head, port, proto, verb :=
      RichHead(r.source), Quoted(PORT, Hyphen(r.port)), Quoted(PROTO, r.proto), RichVerb(r.action);
    Regroup(head, port, proto, verb);
    ActionFound(head + port + " " + proto + " ", verb);
  }

  lemma RichEnds(r: Rule)
    ensures var s := RichRule(r); s != "" && s[0] == 'r' && s[|s| - 1] == 't'
  {
    assert RichHead(r.source)[0] == 'r';
  }

  lemma RichTrim(r: Rule)
    ensures TrimSpace(RichRule(r)) == RichRule(r)
  {
    RichEnds(r);
    TrimNothing(RichRule(r));
  }

  lemma QuotedLine(lead: string, value: string)
    requires OneLine(lead) && NoSpaces(value)
    ensures OneLine(Quoted(lead, value))
  {
    assert forall i :: 0 <= i < |value| ==> !IsSpace(value[i]);
  }

  lemma RichLine(r: Rule)
    requires Ready(r)
    ensures OneLine(RichRule(r))
  {
    ValidTexts(r);
    HyphenText(r.port);
    SourceLetters(r.source);
    QuotedLine(SOURCE, r.source);
    QuotedLine(PORT, Hyphen(r.port));
    QuotedLine(PROTO, r.proto);
    assert OneLine(RichHead(r.source));
  }

  lemma RichParses(r: Rule)
    requires Ready(r)
    ensures RichOf(RichRule(r)) == Some(r)
  {
    RichAction(r);
    PortFound(r);
    ProtoFound(r);
    SourceFound(r);
    ValidTexts(r);
    HyphenText(r.port);
    HyphenColon(r.port);
  }

  function RichTexts(rs: seq<Rule>): seq<string> {
    if rs == [] then [] else [RichRule(rs[0])] + RichTexts(rs[1..])
  }

  lemma RichLineParses(r: Rule)
    requires Ready(r)
    ensures LineRules(RichRule(r)) == [r]
  {
    RichParses(r);
    RichTrim(r);
  }

  lemma RichRulesCons(line: string, ls: seq<string>)
    ensures RichRules([line] + ls) == LineRules(line) + RichRules(ls)
  {
    assert ([line] + ls)[1..] == ls;
  }

  lemma {:induction false} RichRulesParse(rs: seq<Rule>)
    requires AllReady(rs)
    ensures RichRules(RichTexts(rs)) == rs
  {
    if rs != [] {
      AllReadyHead(rs);
      RichLineParses(rs[0]);
      RichRulesParse(rs[1..]);
      RichRulesCons(RichRule(rs[0]), RichTexts(rs[1..]));
    }
  }

  lemma {:induction false} RichTextsAreLines(rs: seq<Rule>)
    requires AllReady(rs)
    ensures |RichTexts(rs)| == |rs| && AllOneLine(RichTexts(rs))
  {
    if rs != [] {
      AllReadyHead(rs);
      RichLine(rs[0]);
      RichTextsAreLines(rs[1..]);
    }
  }

  lemma BlankIsNoRule()
    ensures RichRules([""]) == []
  {
    BlankLine("");
    RichRulesCons("", []);
  }

  /** The port specs and rich rules the code adds are read back as exactly those rules, in order. */
  lemma FirewalldRoundTrip(plain: seq<Rule>, rich: seq<Rule>)
    requires AllReady(plain) && AllPlain(plain) && AllReady(rich)
    ensures Parse(Unwords(PortSpecs(plain)), Unlines(RichTexts(rich))) == plain + rich
  {
    PlainRulesParse(plain);
    PortSpecsAreWords(plain);
    FieldsUnwords(PortSpecs(plain));
    RichRulesParse(rich);
    if rich == [] {
      BlankIsNoRule();
    } else {
      RichTextsAreLines(rich);
      LinesUnlines(RichTexts(rich));
    }
  }
}
