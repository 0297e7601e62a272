/**
  What the three parsers read from any text (internal/firewall/parse.go:156-272):
  exactly which lines show a rule, and which rule, including lines this program
  did not write. Values are those of the patterns' first matches.
*/
module Listings {
  import opened Wrappers
  import opened Text
  import opened FirewallRules
  import opened Patterns
  import Regex
  import Iptables
  import Nftables
  import Firewalld

  /** A port as the model writes it: every hyphen of the listing is a colon. */
  predicate Ranged(p: string, q: string) {
    |q| == |p| && forall i :: 0 <= i < |p| ==> q[i] == if p[i] == '-' then ':' else p[i]
  }

  lemma {:induction false} ColonIsRanged(p: string)
    ensures Ranged(p, Colon(p)) && forall q :: Ranged(p, q) ==> q == Colon(p)
  {
    if p != "" {
      ColonIsRanged(p[1..]);
      var t := Colon(p);
      assert t[1..] == Colon(p[1..]);
      forall i | 0 <= i < |p| ensures t[i] == if p[i] == '-' then ':' else p[i] {
        if i > 0 { assert t[i] == t[1..][i - 1] && p[i] == p[1..][i - 1]; }
      }
    }
    forall q | Ranged(p, q) ensures q == Colon(p) {
      assert |q| == |Colon(p)| && forall i :: 0 <= i < |q| ==> q[i] == Colon(p)[i];
    }
  }

  // ---- iptables ----

  ghost predicate FlagIs(t: string, flag: string, v: string) {
    exists k: nat :: FirstFlag(t, flag, k, v)
  }

  /** The value of the flag, or "" if it has none. */
  ghost predicate FlagOrNone(t: string, flag: string, v: string) {
    FlagIs(t, flag, v) || (v == "" && forall w :: !FlagIs(t, flag, w))
  }

  function OrNone(found: Option<string>): string {
    if found.Some? then found.value else ""
  }

  lemma FlagFound(t: string, flag: string, v: string)
    requires flag != ""
    ensures FlagIs(t, flag, v) <==> Regex.FindFlag(t, flag, true) == Some(v)
    ensures FlagOrNone(t, flag, v) <==> v == OrNone(Regex.FindFlag(t, flag, true))
  {
    FlagExact(t, flag, v);
    var found := Regex.FindFlag(t, flag, true);
    if found.Some? {
      FlagExact(t, flag, found.value);
      assert FlagIs(t, flag, found.value);
    } else {
      forall w ensures !FlagIs(t, flag, w) {
        FlagExact(t, flag, w);
      }
    }
  }

  ghost predicate FlagPort(t: string, q: string) {
    exists p :: FlagIs(t, "--dport", p) && Ranged(p, q)
  }

  lemma FlagPortFound(t: string, q: string)
    ensures var port := Regex.FindFlag(t, "--dport", true); FlagPort(t, q) <==> port.Some? && q == Colon(port.value)
  {
    var port := Regex.FindFlag(t, "--dport", true);
    if port.Some? {
      FlagFound(t, "--dport", port.value);
      ColonIsRanged(port.value);
    }
    forall p | FlagIs(t, "--dport", p) ensures port == Some(p) {
      FlagFound(t, "--dport", p);
    }
  }

  /** A line of the INPUT chain with a port, one of the two protocols and a target that is known. */
  ghost predicate IptablesShows(t: string, r: Rule) {
    && StartsWith(t, "-A INPUT ")
    && FlagPort(t, r.port)
    && FlagIs(t, "-p", r.proto) && (r.proto == "tcp" || r.proto == "udp")
    && (if r.action.Allow? then FlagIs(t, "-j", "ACCEPT") else FlagIs(t, "-j", "DROP") || FlagIs(t, "-j", "REJECT"))
    && FlagOrNone(t, "-s", r.source)
  }

  /** What the four searches have to find for a line to be read as this rule. */
  predicate FlagsFit(port: Option<string>, proto: Option<string>, target: Option<string>, source: Option<string>, r: Rule) {
    && port.Some? && r.port == Colon(port.value)
    && proto == Some(r.proto) && (r.proto == "tcp" || r.proto == "udp")
    && (if r.action.Allow? then target == Some("ACCEPT") else target == Some("DROP") || target == Some("REJECT"))
    && r.source == OrNone(source)
  }

  lemma RuleMeans(t: string, r: Rule)
    requires StartsWith(t, "-A INPUT ")
    ensures Iptables.RuleOf(t) == Some(r) <==>
              FlagsFit(Regex.FindFlag(t, "--dport", true), Regex.FindFlag(t, "-p", true),
                       Regex.FindFlag(t, "-j", true), Regex.FindFlag(t, "-s", true), r)
  {
    assert Iptables.APPEND == "-A INPUT ";
  }

  lemma TargetMeans(t: string, a: Action)
    ensures (if a.Allow? then FlagIs(t, "-j", "ACCEPT") else FlagIs(t, "-j", "DROP") || FlagIs(t, "-j", "REJECT"))
            <==> var target := Regex.FindFlag(t, "-j", true);
                 if a.Allow? then target == Some("ACCEPT") else target == Some("DROP") || target == Some("REJECT")
  {
    FlagFound(t, "-j", "ACCEPT");
    FlagFound(t, "-j", "DROP");
    FlagFound(t, "-j", "REJECT");
  }

  lemma ShowsMeans(t: string, r: Rule)
    requires StartsWith(t, "-A INPUT ")
    ensures IptablesShows(t, r) <==>
              FlagsFit(Regex.FindFlag(t, "--dport", true), Regex.FindFlag(t, "-p", true),
                       Regex.FindFlag(t, "-j", true), Regex.FindFlag(t, "-s", true), r)
  {
    FlagPortFound(t, r.port);
    FlagFound(t, "-p", r.proto);
    TargetMeans(t, r.action);
    FlagFound(t, "-s", r.source);
  }

  lemma IptablesLineExact(t: string, r: Rule)
    ensures Iptables.RuleOf(t) == Some(r) <==> IptablesShows(t, r)
  {
    assert Iptables.APPEND == "-A INPUT ";
    if StartsWith(t, "-A INPUT ") {
      RuleMeans(t, r);
      ShowsMeans(t, r);
    }
  }

  /** The policy the line sets for the chain. */
  predicate Policy(line: string, word: string) {
    StartsWith(TrimSpace(line), "-P INPUT ") && word == TrimSpace(TrimSpace(line)[9..])
  }

  predicate NoPolicy(line: string) {
    !StartsWith(TrimSpace(line), "-P INPUT ")
  }

  /** One more line: a policy other than ACCEPT makes the chain active, and that policy only inactive; a rule is added. */
  lemma IptablesNext(ls: seq<string>, line: string)
    ensures var (active, rules) := Iptables.Scan(ls); var (now, all) := Iptables.Scan(ls + [line]);
            && (forall word :: Policy(line, word) ==> (now <==> word != "ACCEPT") && all == rules)
            && (NoPolicy(line) ==> now == active)
            && (NoPolicy(line) ==> forall r :: IptablesShows(TrimSpace(line), r) ==> all == rules + [r])
            && (NoPolicy(line) && (forall r :: !IptablesShows(TrimSpace(line), r)) ==> all == rules)
  {
    var t := TrimSpace(line);
    assert (ls + [line])[..|ls|] == ls;
    assert Iptables.POLICY == "-P INPUT ";
    forall r ensures Iptables.RuleOf(t) == Some(r) <==> IptablesShows(t, r) {
      IptablesLineExact(t, r);
    }
    if Iptables.RuleOf(t).Some? {
      assert IptablesShows(t, Iptables.RuleOf(t).value);
    }
  }

  /** Nothing is read from no line, and at the end any rule makes the chain active. */
  lemma IptablesEnds(out: string)
    ensures Iptables.Scan([]) == (false, [])
    ensures Iptables.Parse(out).1 == Iptables.Scan(Lines(out)).1
    ensures Iptables.Parse(out).0 <==> Iptables.Scan(Lines(out)).0 || Iptables.Parse(out).1 != []
  {
  }

  // ---- nft ----

  /** The line shows this rule. */
  ghost predicate NftShows(t: string, r: Rule) {
    exists i: nat, m ::
      && FirstHere(NftHere, t, i, m)
      && m.proto == r.proto && Ranged(m.port, r.port) && m.source == r.source
      && m.verb == if r.action.Allow? then "accept" else "drop"
  }

  function NftRuleOf(t: string): Option<Rule> {
    match Nftables.FindNft(t)
    case None => None
    case Some(m) => Some(Nftables.MatchedRule(m))
  }

  lemma MatchMeans(m: Nftables.NftMatch, r: Rule)
    requires m.verb in {"accept", "drop"}
    ensures Nftables.MatchedRule(m) == r <==>
              && m.proto == r.proto && Ranged(m.port, r.port) && m.source == r.source
              && m.verb == (if r.action.Allow? then "accept" else "drop")
  {
    ColonIsRanged(m.port);
  }

  lemma NftLineExact(t: string, r: Rule)
    ensures NftRuleOf(t) == Some(r) <==> NftShows(t, r)
  {
    if Nftables.FindNft(t).Some? {
      var m := Nftables.FindNft(t).value;
      NftExact(t, m);
      var i: nat :| FirstHere(NftHere, t, i, m);
      MatchMeans(m, r);
    }
    forall i: nat, m | FirstHere(NftHere, t, i, m) ensures Nftables.FindNft(t) == Some(m) {
      NftExact(t, m);
    }
  }

  /** Outside the INPUT chain a line can only open it; inside, a brace alone closes it and any rule shown is added. */
  lemma NftNext(st: Nftables.State, line: string)
    ensures var t := TrimSpace(line); var next := Nftables.ScanLine(st, line);
            && (!st.inInput ==>
                  && (next.inInput <==> StartsWith(t, "chain INPUT {"))
                  && (next.active <==> st.active || StartsWith(t, "chain INPUT {")) && next.rules == st.rules)
            && (st.inInput ==>
                  && (next.inInput <==> t != "}") && next.active == st.active
                  && (forall r :: t != "}" && NftShows(t, r) ==> next.rules == st.rules + [r])
                  && ((t == "}" || forall r :: !NftShows(t, r)) ==> next.rules == st.rules))
  {
    var t := TrimSpace(line);
    assert Nftables.CHAIN == "chain INPUT {";
    forall r ensures NftRuleOf(t) == Some(r) <==> NftShows(t, r) {
      NftLineExact(t, r);
    }
    if NftRuleOf(t).Some? {
      assert NftShows(t, NftRuleOf(t).value);
    }
  }

  /** A line with this rule and a handle: the handle of its first handle mark. */
  ghost predicate HandleIs(line: string, rule: Rule, h: string) {
    NftShows(line, rule) && exists i: nat :: FirstHere(HandleHere, line, i, h)
  }

  lemma VerbKnown(t: string, m: Nftables.NftMatch)
    requires Nftables.FindNft(t) == Some(m)
    ensures m.verb in {"accept", "drop"}
  {
    NftExact(t, m);
  }

  lemma LineHandleMeans(line: string, rule: Rule)
    ensures Nftables.LineHandle(line, rule) ==
            if NftRuleOf(line) == Some(rule) then Nftables.FindHandle(line) else None
  {
    if Nftables.FindNft(line).Some? {
      var m := Nftables.FindNft(line).value;
      VerbKnown(line, m);
      VerbMeans(m, rule);
    }
  }

  lemma VerbMeans(m: Nftables.NftMatch, rule: Rule)
    requires m.verb in {"accept", "drop"}
    ensures Nftables.MatchedRule(m) == rule <==>
              m.proto == rule.proto && Colon(m.port) == rule.port && m.verb == NftVerb(rule.action) && m.source == rule.source
  {
  }

  lemma HandleLineExact(line: string, rule: Rule, h: string)
    ensures Nftables.LineHandle(line, rule) == Some(h) <==> HandleIs(line, rule, h)
  {
    LineHandleMeans(line, rule);
    NftLineExact(line, rule);
    HandleExact(line, h);
  }

  ghost predicate HandleFrom(ls: seq<string>, rule: Rule, i: nat, h: string) {
    i < |ls| && HandleIs(ls[i], rule, h) && forall j: nat, g :: j < i ==> !HandleIs(ls[j], rule, g)
  }

  lemma HandleNext(ls: seq<string>, rule: Rule, i: nat, h: string)
    requires ls != [] && (forall g :: !HandleIs(ls[0], rule, g)) && HandleFrom(ls[1..], rule, i, h)
    ensures HandleFrom(ls, rule, i + 1, h)
  {
    forall j: nat, g | j < i + 1 ensures !HandleIs(ls[j], rule, g) {
      if j > 0 { assert ls[j] == ls[1..][j - 1]; }
    }
  }

  /** The handle to delete by is that of the first line which shows the rule and has one; without one there is none. */
  lemma {:induction false} HandleOfFirstLine(ls: seq<string>, rule: Rule)
    ensures var h := Nftables.FirstHandle(ls, rule);
            || (exists i: nat :: HandleFrom(ls, rule, i, h))
            || (h == "" && forall i, g :: 0 <= i < |ls| ==> !HandleIs(ls[i], rule, g))
  {
    if ls != [] {
      var own := Nftables.LineHandle(ls[0], rule);
      forall h ensures own == Some(h) <==> HandleIs(ls[0], rule, h) {
        HandleLineExact(ls[0], rule, h);
      }
      if own.Some? {
        assert HandleFrom(ls, rule, 0, own.value);
      } else {
        var h := Nftables.FirstHandle(ls[1..], rule);
        HandleOfFirstLine(ls[1..], rule);
        if i: nat :| HandleFrom(ls[1..], rule, i, h) {
          HandleNext(ls, rule, i, h);
        } else {
          forall i, g | 0 <= i < |ls| ensures !HandleIs(ls[i], rule, g) {
            if i > 0 { assert ls[i] == ls[1..][i - 1]; }
          }
        }
      }
    }
  }

  // ---- firewalld ----

  /** A port, a slash and the protocol. */
  ghost predicate PlainShows(spec: string, r: Rule) {
    exists port :: port != "" && '/' !in port && spec == port + "/" + r.proto && Ranged(port, r.port)
                   && r.action.Allow? && r.source == ""
  }

  lemma PlainExact(spec: string, r: Rule)
    ensures Firewalld.PlainOf(spec) == Some(r) <==> PlainShows(spec, r)
  {
    var k := IndexOf(spec, '/');
    ColonIsRanged(spec[..k]);
    if 0 < k < |spec| {
      assert spec == spec[..k] + "/" + spec[k + 1..];
    }
    forall port | '/' !in port && spec == port + "/" + r.proto
      ensures k == |port| < |spec| && spec[..k] == port && spec[k + 1..] == r.proto
    {
      Firewalld.SpecSplits(port, r.proto);
    }
  }

  ghost predicate QuotedIs(t: string, lead: string, v: string) {
    exists i: nat :: FirstQuoted(t, lead, i, v)
  }

  /** The value of the first quoted text after the lead, or "" if there is none. */
  ghost predicate QuotedOrNone(t: string, lead: string, v: string) {
    QuotedIs(t, lead, v) || (v == "" && forall w :: !QuotedIs(t, lead, w))
  }

  lemma QuotedFound(t: string, lead: string, v: string)
    ensures QuotedIs(t, lead, v) <==> Firewalld.FindQuoted(t, lead) == Some(v)
    ensures QuotedOrNone(t, lead, v) <==> v == OrNone(Firewalld.FindQuoted(t, lead))
  {
    QuotedExact(t, lead, v);
    var found := Firewalld.FindQuoted(t, lead);
    if found.Some? {
      QuotedExact(t, lead, found.value);
      assert QuotedIs(t, lead, found.value);
    } else {
      forall w ensures !QuotedIs(t, lead, w) {
        QuotedExact(t, lead, w);
      }
    }
  }

  ghost predicate QuotedPort(t: string, q: string) {
    exists p :: p != "" && QuotedIs(t, "port port=\"", p) && Ranged(p, q)
  }

  lemma QuotedPortFound(t: string, q: string)
    ensures var port := Firewalld.FindQuoted(t, "port port=\"");
            QuotedPort(t, q) <==> port.Some? && port.value != "" && q == Colon(port.value)
  {
    var port := Firewalld.FindQuoted(t, "port port=\"");
    if port.Some? {
      QuotedFound(t, "port port=\"", port.value);
      ColonIsRanged(port.value);
    }
    forall p | QuotedIs(t, "port port=\"", p) ensures port == Some(p) {
      QuotedFound(t, "port port=\"", p);
    }
  }

  ghost predicate ActionIs(t: string, word: string) {
    exists i: nat :: FirstHere(ActionHere, t, i, word)
  }

  /** A rich rule with a port; anything but a reject or a drop at its end allows. */
  ghost predicate RichShows(t: string, r: Rule) {
    && QuotedPort(t, r.port)
    && QuotedOrNone(t, "protocol=\"", r.proto)
    && QuotedOrNone(t, "source address=\"", r.source)
    && (r.action.Deny? <==> ActionIs(t, "reject") || ActionIs(t, "drop"))
  }

  lemma ActionFound(t: string)
    ensures ActionIs(t, "reject") || ActionIs(t, "drop") <==>
              Firewalld.FindAction(t).Some? && Firewalld.FindAction(t).value != "accept"
  {
    forall w ensures Firewalld.FindAction(t) == Some(w) <==> ActionIs(t, w) {
      ActionExact(t, w);
    }
    if Firewalld.FindAction(t).Some? {
      var w := Firewalld.FindAction(t).value;
      var i: nat :| FirstHere(ActionHere, t, i, w);
      assert w in {"accept", "reject", "drop"};
    }
  }

  lemma RichExact(t: string, r: Rule)
    ensures Firewalld.RichOf(t) == Some(r) <==> RichShows(t, r)
  {
    QuotedPortFound(t, r.port);
    QuotedFound(t, "protocol=\"", r.proto);
    QuotedFound(t, "source address=\"", r.source);
    ActionFound(t);
    assert PORT == "port port=\"" && PROTO == "protocol=\"" && SOURCE == "source address=\"";
  }

  /** Port specs and rich rules are read one by one, in order; what shows no rule is passed over. */
  lemma FirewalldNext(specs: seq<string>, spec: string, ls: seq<string>, line: string)
    ensures Firewalld.PlainRules([]) == [] && Firewalld.RichRules([]) == []
    ensures forall r :: PlainShows(spec, r) ==>
              Firewalld.PlainRules([spec] + specs) == [r] + Firewalld.PlainRules(specs)
    ensures (forall r :: !PlainShows(spec, r)) ==>
              Firewalld.PlainRules([spec] + specs) == Firewalld.PlainRules(specs)
    ensures forall r :: RichShows(TrimSpace(line), r) ==>
              Firewalld.RichRules([line] + ls) == [r] + Firewalld.RichRules(ls)
    ensures (forall r :: !RichShows(TrimSpace(line), r)) ==>
              Firewalld.RichRules([line] + ls) == Firewalld.RichRules(ls)
  {
    var t := TrimSpace(line);
    Firewalld.PlainRulesCons(spec, specs);
    Firewalld.RichRulesCons(line, ls);
    forall r ensures Firewalld.PlainOf(spec) == Some(r) <==> PlainShows(spec, r) { PlainExact(spec, r); }
    forall r ensures Firewalld.RichOf(t) == Some(r) <==> RichShows(t, r) { RichExact(t, r); }
    if Firewalld.PlainOf(spec).Some? { assert PlainShows(spec, Firewalld.PlainOf(spec).value); }
    if Firewalld.RichOf(t).Some? { assert RichShows(t, Firewalld.RichOf(t).value); }
  }
}
