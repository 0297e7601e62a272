/**
  Port rules (internal/firewall/parse.go:10-95) and the text each back end's
  command is built from (internal/firewall/firewall.go:219-327).
*/
module FirewallRules {
  import opened Text

  datatype Action = Allow | Deny

  datatype Rule = Rule(port: string, proto: string, action: Action, source: string)

  // ---- validation ----

  predicate Digit(c: char) { '0' <= c <= '9' }

  predicate Digits(s: string) {
    forall i :: 0 <= i < |s| ==> Digit(s[i])
  }

  function Value(s: string): nat
    requires Digits(s)
  {
    if s == "" then 0 else Value(s[..|s| - 1]) * 10 + (s[|s| - 1] - '0') as nat
  }

  predicate PortNumber(s: string) {
    1 <= |s| <= 5 && Digits(s) && 1 <= Value(s) <= 65535
  }

  function IndexOf(s: string, c: char): (n: nat)
    ensures n <= |s| && (n < |s| ==> s[n] == c) && c !in s[..n]
  {
    if s == "" || s[0] == c then 0 else 1 + IndexOf(s[1..], c)
  }

  lemma {:induction false} IndexOfFirst(a: string, c: char, b: string)
    requires c !in a
    ensures IndexOf(a + [c] + b, c) == |a|
  {
    if a == "" {
      assert a + [c] + b == [c] + b;
    } else {
      assert (a + [c] + b)[1..] == a[1..] + [c] + b;
      IndexOfFirst(a[1..], c, b);
    }
  }

  lemma {:induction false} IndexOfNone(s: string, c: char)
    requires c !in s
    ensures IndexOf(s, c) == |s|
  {
    if s != "" { IndexOfNone(s[1..], c); }
  }

  /** One port, or two with a colon between them, in order. */
  predicate ValidPort(p: string) {
    var k := IndexOf(p, ':');
    if k == |p| then PortNumber(p)
    else PortNumber(p[..k]) && PortNumber(p[k + 1..]) && Value(p[..k]) <= Value(p[k + 1..])
  }

  predicate AddressChar(c: char) {
    Digit(c) || 'a' <= c <= 'f' || 'A' <= c <= 'F' || c == '.' || c == ':'
  }

  predicate ValidSource(s: string) {
    s == "" ||
    var k := IndexOf(s, '/');
    && k > 0 && (forall i :: 0 <= i < k ==> AddressChar(s[i]))
    && (k < |s| ==> 1 <= |s| - k - 1 <= 3 && Digits(s[k + 1..]))
  }

  predicate ValidRule(r: Rule) {
    ValidPort(r.port) && r.proto in {"", "tcp", "udp"} && ValidSource(r.source)
  }

  /** A valid rule for one protocol: what every back end is given. */
  predicate Ready(r: Rule) {
    ValidRule(r) && r.proto != ""
  }

  function ExpandProto(r: Rule): seq<Rule> {
    if r.proto != "" then [r] else [r.(proto := "tcp"), r.(proto := "udp")]
  }

  predicate AllReady(rs: seq<Rule>) {
    forall i :: 0 <= i < |rs| ==> Ready(rs[i])
  }

  lemma AllReadyHead(rs: seq<Rule>)
    requires AllReady(rs) && rs != []
    ensures AllReady(rs[1..]) && Ready(rs[0]) && [rs[0]] + rs[1..] == rs
  {
  }

  lemma AllReadyLast(rs: seq<Rule>)
    requires AllReady(rs) && rs != []
    ensures var n := |rs| - 1; AllReady(rs[..n]) && Ready(rs[n]) && rs[..n] + [rs[n]] == rs
  {
  }

  lemma ExpandIsReady(r: Rule)
    requires ValidRule(r)
    ensures AllReady(ExpandProto(r))
    ensures forall i :: 0 <= i < |ExpandProto(r)| ==>
              ExpandProto(r)[i] == r.(proto := ExpandProto(r)[i].proto)
    ensures forall p :: p in {"tcp", "udp"} ==>
              ((exists i :: 0 <= i < |ExpandProto(r)| && ExpandProto(r)[i].proto == p) <==> r.proto in {"", p})
  {
    if r.proto == "" {
      assert ExpandProto(r)[0].proto == "tcp" && ExpandProto(r)[1].proto == "udp";
    } else {
      assert ExpandProto(r)[0].proto == r.proto;
    }
  }

  predicate PortChar(c: char) { Digit(c) || c == ':' }

  predicate SourceChar(c: char) { AddressChar(c) || c == '/' }

  predicate PortText(p: string) {
    p != "" && forall i :: 0 <= i < |p| ==> PortChar(p[i])
  }

  predicate SourceText(s: string) {
    forall i :: 0 <= i < |s| ==> SourceChar(s[i])
  }

  lemma ValidTexts(r: Rule)
    requires ValidRule(r)
    ensures PortText(r.port) && SourceText(r.source)
  {
    var k := IndexOf(r.port, ':');
    if k < |r.port| {
      assert forall i :: k < i < |r.port| ==> r.port[i] == r.port[k + 1..][i - k - 1];
      assert forall i :: 0 <= i < k ==> r.port[i] == r.port[..k][i];
    }
    if r.source != "" {
      var j := IndexOf(r.source, '/');
      assert forall i :: j < i < |r.source| ==> r.source[i] == r.source[j + 1..][i - j - 1];
    }
  }

  lemma PortLetters(p: string)
    requires PortText(p)
    ensures Word(p)
    ensures '-' !in p && '/' !in p && '"' !in p && '#' !in p
  {
    assert forall i :: 0 <= i < |p| ==> PortChar(p[i]);
  }

  lemma SourceLetters(s: string)
    requires SourceText(s)
    ensures NoSpaces(s)
    ensures '-' !in s && '"' !in s && '#' !in s && 'p' !in s && 's' !in s
  {
    assert forall i :: 0 <= i < |s| ==> SourceChar(s[i]);
  }

  // ---- port ranges ----

  function Replace(s: string, old': char, new': char): string {
    if s == "" then "" else [if s[0] == old' then new' else s[0]] + Replace(s[1..], old', new')
  }

  /** a:b to a-b, for firewalld and nft. */
  function Hyphen(p: string): string { Replace(p, ':', '-') }

  /** a-b back to a:b. */
  function Colon(p: string): string { Replace(p, '-', ':') }

  lemma {:induction false} ReplaceBack(s: string, a: char, b: char)
    requires b !in s
    ensures Replace(Replace(s, a, b), b, a) == s
    ensures |Replace(s, a, b)| == |s|
    ensures forall i :: 0 <= i < |s| ==> Replace(s, a, b)[i] == if s[i] == a then b else s[i]
  {
    if s != "" {
      assert b !in s[1..];
      ReplaceBack(s[1..], a, b);
      var t := Replace(s, a, b);
      assert t[1..] == Replace(s[1..], a, b);
    }
  }

  lemma {:induction false} ReplaceNothing(s: string, a: char, b: char)
    requires a !in s
    ensures Replace(s, a, b) == s
  {
    if s != "" {
      assert a !in s[1..];
      ReplaceNothing(s[1..], a, b);
    }
  }

  /** On valid ports the two conversions undo each other. */
  lemma HyphenColon(p: string)
    requires ValidPort(p)
    ensures Colon(Hyphen(p)) == p && Hyphen(Colon(Hyphen(p))) == Hyphen(p) && Colon(p) == p
  {
    ValidTexts(Rule(p, "", Allow, ""));
    PortLetters(p);
    ReplaceBack(p, ':', '-');
    ReplaceNothing(p, '-', ':');
  }

  // ---- command text ----

  function NftVerb(a: Action): string {
    match a
    case Deny => "drop"
    case Allow => "accept"
  }

  function Family(source: string): string {
    if ':' in source then "ip6" else "ip"
  }

  /** The rule part of `nft add rule inet filter INPUT ...`. */
  function NftWords(r: Rule): seq<string> {
    (if r.source == "" then [] else [Family(r.source), "saddr", r.source])
    + [r.proto, "dport", Hyphen(r.port), NftVerb(r.action)]
  }

  function IptablesWords(r: Rule): seq<string> {
    ["-A", "INPUT"] + (if r.source == "" then [] else ["-s", r.source])
    + ["-p", r.proto, "--dport", r.port, "-j", if r.action.Deny? then "DROP" else "ACCEPT"]
  }

  /** Allowed from anywhere: a plain port of firewalld; anything else is a rich rule. */
  predicate IsPlain(r: Rule) {
    r.source == "" && r.action.Allow?
  }

  function PortSpec(r: Rule): string {
    Hyphen(r.port) + "/" + r.proto
  }

  /** `LEAD"value"`, where the lead ends with the opening quote. */
  function Quoted(lead: string, value: string): string {
    lead + value + "\""
  }

  const PORT := "port port=\""
  const PROTO := "protocol=\""
  const SOURCE := "source address=\""

  function RichFamily(source: string): string {
    if ':' in source then "rule family=\"ipv6\" " else "rule family=\"ipv4\" "
  }

  function RichHead(source: string): string {
    if source == "" then "rule " else RichFamily(source) + Quoted(SOURCE, source) + " "
  }

  function RichVerb(a: Action): string {
    if a.Deny? then "reject" else "accept"
  }

  function RichRule(r: Rule): string {
    RichHead(r.source) + Quoted(PORT, Hyphen(r.port)) + " " + Quoted(PROTO, r.proto) + " " + RichVerb(r.action)
  }

  lemma {:induction false} HyphenLetters(p: string)
    requires PortText(p)
    ensures |Hyphen(p)| == |p|
    ensures forall i :: 0 <= i < |p| ==> Digit(Hyphen(p)[i]) || Hyphen(p)[i] == '-'
  {
    PortLetters(p);
    ReplaceBack(p, ':', '-');
    assert forall i :: 0 <= i < |p| ==> PortChar(p[i]);
  }

  lemma HyphenText(p: string)
    requires PortText(p)
    ensures Word(Hyphen(p)) && '/' !in Hyphen(p) && '"' !in Hyphen(p) && '#' !in Hyphen(p)
    ensures 'p' !in Hyphen(p) && 's' !in Hyphen(p)
  {
    HyphenLetters(p);
  }

  lemma CommandWords(r: Rule)
    requires Ready(r)
    ensures Words(NftWords(r)) && Words(IptablesWords(r))
  {
    ValidTexts(r);
    PortLetters(r.port);
    SourceLetters(r.source);
    HyphenText(r.port);
    CommandWordsOf(r);
  }

  lemma CommandWordsOf(r: Rule)
    requires Word(r.proto) && Word(r.port) && Word(Hyphen(r.port)) && NoSpaces(r.source)
    ensures Words(NftWords(r)) && Words(IptablesWords(r))
  {
    var fixed := ["ip", "ip6", "saddr", "dport", "drop", "accept", "-A", "INPUT", "-s", "-p", "--dport", "-j", "DROP", "ACCEPT"];
    assert forall i :: 0 <= i < |fixed| ==> Word(fixed[i]);
    forall i | 0 <= i < |NftWords(r)| ensures Word(NftWords(r)[i]) {
      var w := NftWords(r)[i];
      assert w in fixed || w == r.source || w == r.proto || w == Hyphen(r.port);
    }
    forall i | 0 <= i < |IptablesWords(r)| ensures Word(IptablesWords(r)[i]) {
      var w := IptablesWords(r)[i];
      assert w in fixed || w == r.source || w == r.proto || w == r.port;
    }
  }
}
