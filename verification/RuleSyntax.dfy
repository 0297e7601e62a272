/**
  Which rules are accepted (internal/firewall/parse.go:10-67), said on the texts
  themselves: ports are decimal numerals, leading zeros allowed; and what every
  back end makes of a rule's source and of an accepted rule.
*/
module RuleSyntax {
  import opened Text
  import opened FirewallRules

  const DIGITS := "0123456789"

  function Decimal(n: nat): string {
    if n < 10 then [DIGITS[n]] else Decimal(n / 10) + [DIGITS[n % 10]]
  }

  function Zeros(k: nat): string {
    seq(k, _ => '0')
  }

  /** Up to five digits that denote a port from 1 to 65535. */
  ghost predicate Numeral(s: string, n: nat) {
    1 <= n <= 65535 && |s| <= 5 && exists k: nat :: s == Zeros(k) + Decimal(n)
  }

  lemma DigitAt(n: nat)
    requires n < 10
    ensures '0' <= DIGITS[n] <= '9' && (DIGITS[n] - '0') as nat == n
  {
  }

  lemma DigitBack(c: char)
    requires '0' <= c <= '9'
    ensures (c - '0') as nat < 10 && DIGITS[(c - '0') as nat] == c
  {
  }

  lemma ValueSnoc(s: string, c: char)
    requires Digits(s) && Digit(c)
    ensures Digits(s + [c]) && Value(s + [c]) == Value(s) * 10 + (c - '0') as nat
  {
    assert (s + [c])[..|s|] == s;
  }

  lemma {:induction false} DecimalValue(n: nat)
    ensures Decimal(n) != "" && Digits(Decimal(n)) && Value(Decimal(n)) == n
  {
    DigitAt(n % 10);
    if n < 10 {
      ValueSnoc("", DIGITS[n]);
      assert "" + [DIGITS[n]] == [DIGITS[n]];
    } else {
      DecimalValue(n / 10);
      ValueSnoc(Decimal(n / 10), DIGITS[n % 10]);
    }
  }

  lemma {:induction false} ZerosValue(k: nat, t: string)
    requires Digits(t)
    ensures Digits(Zeros(k) + t) && Value(Zeros(k) + t) == Value(t)
  {
    if t != "" {
      var init, c := t[..|t| - 1], t[|t| - 1];
      ZerosValue(k, init);
      ValueSnoc(Zeros(k) + init, c);
      assert Zeros(k) + t == Zeros(k) + init + [c];
    } else if k > 0 {
      ZerosValue(k - 1, "");
      ValueSnoc(Zeros(k - 1), '0');
      assert Zeros(k) + "" == Zeros(k - 1) + ['0'] && Zeros(k - 1) + "" == Zeros(k - 1);
    }
  }

  /** The numeral without leading zeros; nothing for 0. */
  function Significant(v: nat): string {
    if v == 0 then "" else Decimal(v)
  }

  lemma SignificantSnoc(v: nat, d: nat)
    requires d < 10 && v + d > 0
    ensures Significant(v * 10 + d) == Significant(v) + [DIGITS[d]]
  {
    assert (v * 10 + d) / 10 == v && (v * 10 + d) % 10 == d;
  }

  predicate Denotes(s: string, k: nat, v: nat) {
    s == Zeros(k) + Significant(v)
  }

  lemma OneMoreDigit(s: string, v: nat, k: nat, d: nat, w: nat) returns (n: nat)
    requires d < 10 && w == v * 10 + d && Denotes(s, k, v)
    ensures Denotes(s + [DIGITS[d]], n, w)
  {
    if v + d == 0 {
      n := k + 1;
      assert Zeros(k) + ['0'] == Zeros(n);
    } else {
      n := k;
      SignificantSnoc(v, d);
    }
  }

  lemma ValueLast(s: string) returns (init: string, d: nat)
    requires s != "" && Digits(s)
    ensures Digits(init) && |init| < |s| && d < 10 && s == init + [DIGITS[d]] && Value(s) == Value(init) * 10 + d
  {
    init, d := s[..|s| - 1], (s[|s| - 1] - '0') as nat;
    DigitBack(s[|s| - 1]);
  }

  lemma EmptyDenotes(s: string)
    requires s == ""
    ensures Digits(s) && Denotes(s, 0, Value(s))
  {
  }

  /** Every text of digits is some zeros and the numeral of its value. */
  lemma {:induction false} DigitsAreNumeral(s: string) returns (k: nat)
    requires Digits(s)
    ensures Denotes(s, k, Value(s))
    decreases |s|
  {
    if s == "" {
      EmptyDenotes(s);
      k := 0;
    } else {
      var init, d := ValueLast(s);
      k := DigitsAreNumeral(init);
      k := OneMoreDigit(init, Value(init), k, d, Value(s));
    }
  }

  lemma PortNumberExact(s: string)
    ensures PortNumber(s) <==> exists n :: Numeral(s, n)
    ensures PortNumber(s) ==> Numeral(s, Value(s))
    ensures forall n :: Numeral(s, n) ==> PortNumber(s) && Value(s) == n
  {
    if PortNumber(s) {
      var k := DigitsAreNumeral(s);
      assert s == Zeros(k) + Decimal(Value(s));
      assert Numeral(s, Value(s));
    }
    forall n | Numeral(s, n) ensures PortNumber(s) && Value(s) == n {
      var k: nat :| s == Zeros(k) + Decimal(n);
      DecimalValue(n);
      ZerosValue(k, Decimal(n));
    }
  }

  /** `lo:hi` as two numerals. */
  ghost predicate Range(p: string, a: string, lo: nat, b: string, hi: nat) {
    p == a + ":" + b && Numeral(a, lo) && Numeral(b, hi) && lo <= hi
  }

  lemma RangeSplits(a: string, b: string)
    requires Digits(a)
    ensures var p := a + ":" + b; IndexOf(p, ':') == |a| && p[..|a|] == a && p[|a| + 1..] == b
  {
    assert ':' !in a;
    IndexOfFirst(a, ':', b);
    assert [':'] == ":";
  }

  lemma RangeIsValid(p: string, a: string, lo: nat, b: string, hi: nat)
    requires Range(p, a, lo, b, hi)
    ensures ValidPort(p)
  {
    PortNumberExact(a);
    PortNumberExact(b);
    RangeSplits(a, b);
  }

  lemma OneIsValid(p: string, n: nat)
    requires Numeral(p, n)
    ensures ValidPort(p)
  {
    PortNumberExact(p);
    assert ':' !in p;
    IndexOfNone(p, ':');
  }

  /** A port is accepted exactly if it denotes a number from 1 to 65535, or two of them, in order. */
  lemma PortsExact(p: string)
    ensures ValidPort(p) <==> (exists n :: Numeral(p, n)) || exists a, lo, b, hi :: Range(p, a, lo, b, hi)
  {
    if ValidPort(p) {
      var k := IndexOf(p, ':');
      if k == |p| {
        PortNumberExact(p);
      } else {
        PortNumberExact(p[..k]);
        PortNumberExact(p[k + 1..]);
        assert p == p[..k] + ":" + p[k + 1..];
        assert Range(p, p[..k], Value(p[..k]), p[k + 1..], Value(p[k + 1..]));
      }
    } else {
      forall n ensures !Numeral(p, n) {
        if Numeral(p, n) { OneIsValid(p, n); }
      }
      forall a, lo, b, hi ensures !Range(p, a, lo, b, hi) {
        if Range(p, a, lo, b, hi) { RangeIsValid(p, a, lo, b, hi); }
      }
    }
  }

  // ---- sources ----

  predicate Over(s: string, letters: string) {
    forall i :: 0 <= i < |s| ==> s[i] in letters
  }

  const ADDRESS := "0123456789abcdefABCDEF.:"

  lemma LettersOf(c: char)
    ensures AddressChar(c) <==> c in ADDRESS
    ensures Digit(c) <==> c in DIGITS
  {
  }

  /** An address, or an address and a prefix length of at most three digits. */
  predicate Network(s: string, a: string, bits: string) {
    a != "" && Over(a, ADDRESS) && (s == a || (s == a + "/" + bits && 1 <= |bits| <= 3 && Over(bits, DIGITS)))
  }

  lemma AddressHasNoSlash(a: string)
    requires Over(a, ADDRESS)
    ensures '/' !in a
  {
    assert forall i :: 0 <= i < |a| ==> a[i] in ADDRESS;
  }

  lemma NetworkIsValid(s: string, a: string, bits: string)
    requires Network(s, a, bits)
    ensures ValidSource(s)
  {
    AddressHasNoSlash(a);
    forall i | 0 <= i < |a| ensures AddressChar(a[i]) { LettersOf(a[i]); }
    if s == a {
      IndexOfNone(s, '/');
    } else {
      IndexOfFirst(a, '/', bits);
      assert ['/'] == "/" && s[|a| + 1..] == bits && forall i :: 0 <= i < |a| ==> s[i] == a[i];
      forall i | 0 <= i < |bits| ensures Digit(bits[i]) { LettersOf(bits[i]); }
    }
  }

  lemma SourcesExact(s: string)
    ensures ValidSource(s) <==> s == "" || exists a, bits :: Network(s, a, bits)
  {
    if ValidSource(s) && s != "" {
      var k := IndexOf(s, '/');
      var a := s[..k];
      forall i | 0 <= i < |a| ensures a[i] in ADDRESS { LettersOf(s[i]); }
      if k == |s| {
        assert Network(s, s, "");
      } else {
        var bits := s[k + 1..];
        forall i | 0 <= i < |bits| ensures bits[i] in DIGITS { LettersOf(bits[i]); }
        assert s == a + "/" + bits;
        assert Network(s, a, bits);
      }
    }
    forall a, bits | Network(s, a, bits) ensures ValidSource(s) {
      NetworkIsValid(s, a, bits);
    }
  }

  /** What is accepted: a port or a range, one of the two protocols or none, and no source or a network. */
  lemma RulesExact(r: Rule)
    ensures ValidRule(r) <==>
              && ((exists n :: Numeral(r.port, n)) || exists a, lo, b, hi :: Range(r.port, a, lo, b, hi))
              && (r.proto == "" || r.proto == "tcp" || r.proto == "udp")
              && (r.source == "" || exists a, bits :: Network(r.source, a, bits))
  {
    PortsExact(r.port);
    SourcesExact(r.source);
  }

  // ---- sources in commands ----

  lemma NoFamilyName(w: string)
    requires 'p' !in w
    ensures w != "ip" && w != "ip6"
  {
    assert "ip"[1] == 'p' && "ip6"[1] == 'p';
  }

  /** A colon in the source, and nothing else, makes it an IPv6 rule for nft. */
  lemma FamilyFollowsColon(r: Rule)
    requires Ready(r)
    ensures "ip6" in NftWords(r) <==> ':' in r.source
    ensures "ip" in NftWords(r) <==> r.source != "" && ':' !in r.source
  {
    ValidTexts(r);
    HyphenText(r.port);
    SourceLetters(r.source);
    NoFamilyName(r.source);
    NoFamilyName(Hyphen(r.port));
  }

  lemma Differs(s: string, p: string, i: nat)
    requires i < |p| && (i < |s| ==> s[i] != p[i])
    ensures !StartsWith(s, p)
  {
    assert |p| <= |s| ==> s[..|p|][i] == s[i];
  }

  lemma Begins(p: string, s: string)
    ensures StartsWith(p + s, p)
  {
  }

  lemma RichSplits(r: Rule) returns (head: string, rest: string)
    ensures RichRule(r) == head + rest
    ensures head == if r.source == "" then "rule "
                    else if ':' in r.source then "rule family=\"ipv6\" " else "rule family=\"ipv4\" "
    ensures r.source == "" ==> rest != "" && rest[0] == 'p'
  {
    var port := Quoted(PORT, Hyphen(r.port)) + " " + Quoted(PROTO, r.proto) + " " + RichVerb(r.action);
    assert RichRule(r) == RichHead(r.source) + port;
    if r.source == "" {
      head, rest := "rule ", port;
    } else {
      head, rest := RichFamily(r.source), Quoted(SOURCE, r.source) + " " + port;
    }
  }

  /** The same for a rich rule of firewalld. */
  lemma RichFamilyFollowsColon(r: Rule)
    ensures StartsWith(RichRule(r), "rule family=\"ipv6\" ") <==> r.source != "" && ':' in r.source
    ensures StartsWith(RichRule(r), "rule family=\"ipv4\" ") <==> r.source != "" && ':' !in r.source
  {
    var head, rest := RichSplits(r);
    RichHeads(head, rest);
    assert head[|head| - 2] == (if r.source == "" then 'e' else '"') && (r.source != "" ==> |head| == 19);
  }

  lemma RichHeads(head: string, rest: string)
    requires head in {"rule ", "rule family=\"ipv6\" ", "rule family=\"ipv4\" "}
    requires head == "rule " ==> rest != "" && rest[0] == 'p'
    ensures StartsWith(head + rest, "rule family=\"ipv6\" ") <==> head == "rule family=\"ipv6\" "
    ensures StartsWith(head + rest, "rule family=\"ipv4\" ") <==> head == "rule family=\"ipv4\" "
  {
    var six, four := "rule family=\"ipv6\" ", "rule family=\"ipv4\" ";
    Begins(head, rest);
    if head == "rule " {
      Differs(head + rest, six, 5);
      Differs(head + rest, four, 5);
    } else if head == six {
      Differs(head + rest, four, 16);
    } else {
      Differs(head + rest, six, 16);
    }
  }
}
