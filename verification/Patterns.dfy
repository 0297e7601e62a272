/**
  The regular expressions of the firewall parsers (internal/firewall/parse.go:149-154,
  192-197 and 248-251), each said as what a match at one place of a text is made
  of; the searches written in Regex, Nftables and Firewalld find the first such
  place, for every text.
*/
module Patterns {
  import opened Wrappers
  import opened Text
  import opened Regex
  import Nftables
  import Firewalld

  // ---- the first place ----

  /** What `at` finds at the first place where it finds something. */
  function First<T>(at: string -> Option<T>, s: string): Option<T> {
    if at(s).Some? then at(s)
    else if s == "" then None
    else First(at, s[1..])
  }

  predicate NoneBefore<T>(at: string -> Option<T>, s: string, i: nat)
    requires i <= |s|
  {
    forall j :: 0 <= j < i ==> at(s[j..]).None?
  }

  ghost predicate FirstAt<T>(at: string -> Option<T>, s: string, i: nat, v: T) {
    i <= |s| && at(s[i..]) == Some(v) && NoneBefore(at, s, i)
  }

  lemma {:induction false} FirstFrom<T>(at: string -> Option<T>, s: string, i: nat)
    requires i <= |s| && NoneBefore(at, s, i)
    ensures First(at, s[i..]).Some? ==> exists k: nat :: FirstAt(at, s, k, First(at, s[i..]).value)
    ensures First(at, s[i..]).None? ==> NoneBefore(at, s, |s|) && at("").None?
    decreases |s| - i
  {
    if at(s[i..]).Some? {
      assert FirstAt(at, s, i, at(s[i..]).value);
    } else if i < |s| {
      assert s[i..][1..] == s[i + 1..];
      FirstFrom(at, s, i + 1);
    } else {
      assert s[i..] == "";
    }
  }

  lemma SameFirst<T>(at: string -> Option<T>, s: string, i: nat, v: T, k: nat, w: T)
    requires FirstAt(at, s, i, v) && FirstAt(at, s, k, w)
    ensures i == k && v == w
  {
  }

  lemma FirstIsLeftmost<T>(at: string -> Option<T>, s: string, v: T)
    ensures First(at, s) == Some(v) <==> exists k: nat :: FirstAt(at, s, k, v)
  {
    assert s[0..] == s;
    FirstFrom(at, s, 0);
    if First(at, s).Some? {
      var i: nat :| FirstAt(at, s, i, First(at, s).value);
      forall k: nat | FirstAt(at, s, k, v) ensures First(at, s) == Some(v) {
        SameFirst(at, s, i, First(at, s).value, k, v);
      }
    } else {
      assert s[|s|..] == "";
    }
  }

  /** `here` holds of the text from `i` on and a value, and of no earlier place and any value. */
  ghost predicate FirstHere<T(!new)>(here: (string, T) -> bool, s: string, i: nat, v: T) {
    i <= |s| && here(s[i..], v) && forall j: nat, w: T :: j < i ==> !here(s[j..], w)
  }

  lemma FirstExact<T(!new)>(at: string -> Option<T>, here: (string, T) -> bool, s: string, v: T)
    requires forall t, x :: at(t) == Some(x) <==> here(t, x)
    ensures First(at, s) == Some(v) <==> exists i: nat :: FirstHere(here, s, i, v)
  {
    FirstIsLeftmost(at, s, v);
    forall i: nat ensures FirstAt(at, s, i, v) <==> FirstHere(here, s, i, v) {
      assert forall j: nat :: j <= |s| && at(s[j..]).Some? ==> here(s[j..], at(s[j..]).value);
    }
  }

  // ---- runs ----

  predicate Solid(s: string) {
    forall i :: 0 <= i < |s| ==> !ReSpace(s[i])
  }

  predicate Gap(s: string) {
    s != "" && forall i :: 0 <= i < |s| ==> ReSpace(s[i])
  }

  predicate Ended(s: string) { s == "" || ReSpace(s[0]) }

  lemma {:induction false} RunLenIs(s: string)
    ensures Solid(s[..RunLen(s)]) && Ended(s[RunLen(s)..])
  {
    if s != "" && !ReSpace(s[0]) {
      var n := RunLen(s[1..]);
      RunLenIs(s[1..]);
      assert s[..n + 1] == [s[0]] + s[1..][..n] && s[1..][n..] == s[n + 1..];
    }
  }

  lemma {:induction false} RunLenExact(v: string, rest: string)
    requires Solid(v) && Ended(rest)
    ensures RunLen(v + rest) == |v|
  {
    if v == "" {
      assert v + rest == rest;
    } else {
      assert (v + rest)[1..] == v[1..] + rest;
      RunLenExact(v[1..], rest);
    }
  }

  lemma {:induction false} SpaceLenIs(s: string)
    ensures SpaceLen(s) > 0 ==> Gap(s[..SpaceLen(s)])
    ensures SpaceLen(s) < |s| ==> !ReSpace(s[SpaceLen(s)])
  {
    if s != "" && ReSpace(s[0]) {
      var n := SpaceLen(s[1..]);
      SpaceLenIs(s[1..]);
      assert s[..n + 1] == [s[0]] + s[1..][..n];
    }
  }

  lemma {:induction false} SpaceLenExact(gap: string, rest: string)
    requires gap != "" ==> Gap(gap)
    requires rest != "" ==> !ReSpace(rest[0])
    ensures SpaceLen(gap + rest) == |gap|
  {
    if gap == "" {
      assert gap + rest == rest;
    } else {
      assert (gap + rest)[1..] == gap[1..] + rest;
      SpaceLenExact(gap[1..], rest);
    }
  }

  // ---- (?:^|\s)FLAG\s+(\S+) ----

  predicate Spaced(s: string, gap: string, v: string, rest: string) {
    s == gap + v + rest && Gap(gap) && v != "" && Solid(v) && Ended(rest)
  }

  lemma SpacedExact(s: string, v: string)
    ensures SpaceThenRun(s) == Some(v) <==> exists gap, rest :: Spaced(s, gap, v, rest)
  {
    if SpaceThenRun(s) == Some(v) {
      var n := SpaceLen(s);
      var t := s[n..];
      SpaceLenIs(s);
      RunLenIs(t);
      assert s == s[..n] + v + t[|v|..];
      assert Spaced(s, s[..n], v, t[|v|..]);
    }
    forall gap, rest | Spaced(s, gap, v, rest) ensures SpaceThenRun(s) == Some(v) {
      assert s == gap + (v + rest);
      SpaceLenExact(gap, v + rest);
      assert s[|gap|..] == v + rest && (v + rest)[..|v|] == v;
      RunLenExact(v, rest);
    }
  }

  predicate Boundary(t: string, i: nat) {
    i <= |t| && (i == 0 || ReSpace(t[i - 1]))
  }

  /** The flag at the start of the text or after a space, white space, and the value: all up to the next space. */
  ghost predicate FlagAt(t: string, flag: string, i: nat, v: string) {
    Boundary(t, i) && exists gap, rest :: Spaced(gap + v + rest, gap, v, rest) && t[i..] == flag + (gap + v + rest)
  }

  ghost predicate NoFlagBefore(t: string, flag: string, i: nat) {
    forall j: nat, v :: j < i ==> !FlagAt(t, flag, j, v)
  }

  ghost predicate FirstFlag(t: string, flag: string, i: nat, v: string) {
    FlagAt(t, flag, i, v) && NoFlagBefore(t, flag, i)
  }

  lemma FlagHere(t: string, flag: string, i: nat, v: string)
    requires i <= |t|
    ensures FlagAt(t, flag, i, v) <==>
              Boundary(t, i) && StartsWith(t[i..], flag) && SpaceThenRun(t[i..][|flag|..]) == Some(v)
  {
    var s := t[i..];
    if StartsWith(s, flag) {
      var more := s[|flag|..];
      assert s == flag + more;
      SpacedExact(more, v);
      forall gap, rest | s == flag + (gap + v + rest) ensures more == gap + v + rest {
        assert (flag + (gap + v + rest))[|flag|..] == gap + v + rest;
      }
    } else {
      forall gap, rest ensures s != flag + (gap + v + rest) {
        assert (flag + (gap + v + rest))[..|flag|] == flag;
      }
    }
  }

  lemma {:induction false} FlagFrom(t: string, flag: string, i: nat)
    requires flag != "" && i <= |t| && NoFlagBefore(t, flag, i)
    ensures var r := FindFlag(t[i..], flag, Boundary(t, i));
            && (r.Some? ==> exists k: nat :: FirstFlag(t, flag, k, r.value))
            && (r.None? ==> NoFlagBefore(t, flag, |t| + 1))
    decreases |t| - i
  {
    var s := t[i..];
    forall v ensures FlagAt(t, flag, i, v) <==>
                       Boundary(t, i) && StartsWith(s, flag) && SpaceThenRun(s[|flag|..]) == Some(v) {
      FlagHere(t, flag, i, v);
    }
    if Boundary(t, i) && StartsWith(s, flag) && SpaceThenRun(s[|flag|..]).Some? {
      assert FirstFlag(t, flag, i, SpaceThenRun(s[|flag|..]).value);
    } else if i < |t| {
      assert s[1..] == t[i + 1..];
      FlagFrom(t, flag, i + 1);
    }
  }

  /** The search finds a value exactly if that is the value of the first such place. */
  lemma FlagExact(t: string, flag: string, v: string)
    requires flag != ""
    ensures FindFlag(t, flag, true) == Some(v) <==> exists k: nat :: FirstFlag(t, flag, k, v)
  {
    assert t[0..] == t;
    FlagFrom(t, flag, 0);
    if FindFlag(t, flag, true).Some? {
      var w := FindFlag(t, flag, true).value;
      var i: nat :| FirstFlag(t, flag, i, w);
      forall k: nat | FirstFlag(t, flag, k, v) ensures v == w {
        assert !(k < i) && !(i < k);
        FlagHere(t, flag, i, v);
        FlagHere(t, flag, i, w);
      }
    }
  }

  // ---- (?:ip6? saddr (\S+)\s+)?(tcp|udp) dport (\S+) (accept|drop) ----

  predicate NftTail(s: string, proto: string, port: string, verb: string, rest: string) {
    && s == proto + " dport " + (port + " " + verb + rest)
    && proto in {"tcp", "udp"} && port != "" && Solid(port) && verb in {"accept", "drop"}
  }

  predicate NftSource(s: string, source: string, gap: string, tail: string) {
    && (s == "ip saddr " + (source + gap + tail) || s == "ip6 saddr " + (source + gap + tail))
    && source != "" && Solid(source) && Gap(gap)
  }

  /** A rule right here, with or without a source. */
  ghost predicate NftHere(s: string, m: Nftables.NftMatch) {
    exists tail, rest ::
      && NftTail(tail, m.proto, m.port, m.verb, rest)
      && (if m.source == "" then s == tail else exists gap :: NftSource(s, m.source, gap, tail))
  }

  lemma VerbCut(verb: string, rest: string)
    requires verb in {"accept", "drop"}
    ensures var s := " " + verb + rest;
            (StartsWith(s, " accept") <==> verb == "accept") && (StartsWith(s, " drop") <==> verb == "drop")
  {
    var s := " " + verb + rest;
    if verb == "accept" {
      assert s[..7] == " accept" && s[..5][1] == 'a';
    } else {
      assert s[..5] == " drop" && s[1] == 'd';
      assert |s| >= 7 ==> s[..7][1] == 'd';
    }
  }

  lemma PortCut(port: string, verb: string, rest: string)
    requires port != "" && Solid(port) && verb in {"accept", "drop"}
    ensures Nftables.PortAndVerb(port + " " + verb + rest) == Some((port, verb))
  {
    var s := port + " " + verb + rest;
    assert s == port + (" " + verb + rest);
    RunLenExact(port, " " + verb + rest);
    assert s[|port|..] == " " + verb + rest && s[..|port|] == port;
    VerbCut(verb, rest);
  }

  lemma PortFound(s: string)
    requires Nftables.PortAndVerb(s).Some?
    ensures var pv := Nftables.PortAndVerb(s).value;
            pv.0 != "" && Solid(pv.0) && pv.1 in {"accept", "drop"}
            && |pv.0| + 1 + |pv.1| <= |s| && s == pv.0 + " " + pv.1 + s[|pv.0| + 1 + |pv.1|..]
  {
    var (port, verb) := Nftables.PortAndVerb(s).value;
    RunLenIs(s);
    var lead := if StartsWith(s[RunLen(s)..], " accept") then " accept" else " drop";
    assert lead == " " + verb;
    LeadAfter(s, port, verb);
  }

  lemma LeadAfter(s: string, port: string, verb: string)
    requires |port| <= |s| && s[..|port|] == port && StartsWith(s[|port|..], " " + verb)
    ensures |port| + 1 + |verb| <= |s| && s == port + " " + verb + s[|port| + 1 + |verb|..]
  {
    PrefixCut(s[|port|..], " " + verb);
    assert s == port + s[|port|..];
  }

  lemma PrefixCut(s: string, p: string)
    requires StartsWith(s, p)
    ensures s == p + s[|p|..]
  {
  }

  lemma ProtoCut(s: string, proto: string)
    requires proto in {"tcp", "udp"} && StartsWith(s, proto + " dport ")
    ensures |s| >= 10 && s[..3] == proto && s == proto + " dport " + s[10..]
  {
    PrefixCut(s, proto + " dport ");
  }

  lemma TailFound(s: string, source: string) returns (rest: string)
    requires Nftables.TailAt(s, source).Some?
    ensures var m := Nftables.TailAt(s, source).value; m.source == source && NftTail(s, m.proto, m.port, m.verb, rest)
  {
    var proto := if StartsWith(s, "tcp dport ") then "tcp" else "udp";
    assert "tcp dport " == "tcp" + " dport " && "udp dport " == "udp" + " dport ";
    ProtoCut(s, proto);
    PortFound(s[10..]);
    var m := Nftables.TailAt(s, source).value;
    rest := s[10..][|m.port| + 1 + |m.verb|..];
  }

  lemma TailRead(s: string, source: string, m: Nftables.NftMatch, rest: string)
    requires m.source == source && NftTail(s, m.proto, m.port, m.verb, rest)
    ensures Nftables.TailAt(s, source) == Some(m)
  {
    PortCut(m.port, m.verb, rest);
    assert |m.proto + " dport "| == 10;
    assert s[..10] == m.proto + " dport " && s[..3] == m.proto && s[10..] == m.port + " " + m.verb + rest;
  }

  lemma SourceCut(s: string) returns (source: string, gap: string, tail: string)
    requires Nftables.SourceAt(s).Some?
    ensures s == source + gap + tail && source != "" && Solid(source) && Gap(gap)
    ensures Nftables.SourceAt(s) == Nftables.TailAt(tail, source)
  {
    var n := RunLen(s);
    var k := SpaceLen(s[n..]);
    source, gap, tail := s[..n], s[n..][..k], s[n + k..];
    RunLenIs(s);
    SpaceLenIs(s[n..]);
  }

  lemma SourceFound(s: string) returns (gap: string, tail: string, rest: string)
    requires Nftables.SourceAt(s).Some?
    ensures var m := Nftables.SourceAt(s).value;
            && m.source != "" && Solid(m.source) && Gap(gap)
            && s == m.source + gap + tail && NftTail(tail, m.proto, m.port, m.verb, rest)
  {
    var source;
    source, gap, tail := SourceCut(s);
    rest := TailFound(tail, source);
  }

  lemma SourceRead(source: string, gap: string, tail: string, m: Nftables.NftMatch, rest: string)
    requires source != "" && Solid(source) && Gap(gap) && m.source == source
    requires NftTail(tail, m.proto, m.port, m.verb, rest)
    ensures Nftables.SourceAt(source + gap + tail) == Some(m)
  {
    var s := source + gap + tail;
    assert s == source + (gap + tail);
    RunLenExact(source, gap + tail);
    assert tail[0] == m.proto[0];
    SpaceLenExact(gap, tail);
    assert s[|source|..] == gap + tail && s[..|source|] == source && s[|source| + |gap|..] == tail;
    TailRead(tail, source, m, rest);
  }

  lemma WithSourceFound(s: string, lead: string, m: Nftables.NftMatch)
    requires lead in {"ip saddr ", "ip6 saddr "} && StartsWith(s, lead) && Nftables.SourceAt(s[|lead|..]) == Some(m)
    ensures NftHere(s, m)
  {
    var gap, tail, rest := SourceFound(s[|lead|..]);
    PrefixCut(s, lead);
    assert NftSource(s, m.source, gap, tail);
  }

  lemma NftFound(s: string, m: Nftables.NftMatch)
    requires Nftables.NftAt(s) == Some(m)
    ensures NftHere(s, m)
  {
    if StartsWith(s, "ip saddr ") {
      WithSourceFound(s, "ip saddr ", m);
    } else if StartsWith(s, "ip6 saddr ") {
      WithSourceFound(s, "ip6 saddr ", m);
    } else {
      var rest := TailFound(s, "");
    }
  }

  lemma NftRead(s: string, m: Nftables.NftMatch)
    requires NftHere(s, m)
    ensures Nftables.NftAt(s) == Some(m)
  {
    var tail, rest :|
      && NftTail(tail, m.proto, m.port, m.verb, rest)
      && (if m.source == "" then s == tail else exists gap :: NftSource(s, m.source, gap, tail));
    if m.source == "" {
      TailRead(s, "", m, rest);
      assert s[0] == m.proto[0];
      Nftables.NoFamily(s);
    } else {
      var gap :| NftSource(s, m.source, gap, tail);
      var more := m.source + gap + tail;
      SourceRead(m.source, gap, tail, m, rest);
      Nftables.FamilyMatches(more);
      Nftables.Family6Matches(more);
    }
  }

  lemma {:induction false} NftIsFirst(s: string)
    ensures Nftables.FindNft(s) == First(Nftables.NftAt, s)
  {
    if s != "" { NftIsFirst(s[1..]); }
  }

  lemma NftAtExact(s: string, m: Nftables.NftMatch)
    ensures Nftables.NftAt(s) == Some(m) <==> NftHere(s, m)
  {
    if Nftables.NftAt(s) == Some(m) {
      NftFound(s, m);
    } else if NftHere(s, m) {
      NftRead(s, m);
      assert false;
    }
  }

  /** What is read from a line of nft is what the pattern matches at the first place where it matches. */
  lemma NftExact(s: string, m: Nftables.NftMatch)
    ensures Nftables.FindNft(s) == Some(m) <==> exists i: nat :: FirstHere(NftHere, s, i, m)
  {
    NftIsFirst(s);
    forall t, x ensures Nftables.NftAt(t) == Some(x) <==> NftHere(t, x) {
      NftAtExact(t, x);
    }
    FirstExact(Nftables.NftAt, NftHere, s, m);
  }

  // ---- # handle (\d+) ----

  ghost predicate HandleHere(s: string, h: string) {
    exists rest :: HandleText(s, h, rest)
  }

  predicate HandleText(s: string, h: string, rest: string) {
    && s == "# handle " + (h + rest)
    && h != "" && (forall i :: 0 <= i < |h| ==> '0' <= h[i] <= '9')
    && (rest == "" || !('0' <= rest[0] <= '9'))
  }

  lemma {:induction false} DigitLenIs(s: string)
    ensures forall i :: 0 <= i < DigitLen(s) ==> '0' <= s[i] <= '9'
    ensures DigitLen(s) < |s| ==> !('0' <= s[DigitLen(s)] <= '9')
  {
    if s != "" && '0' <= s[0] <= '9' {
      DigitLenIs(s[1..]);
      assert forall i :: 1 <= i < |s| ==> s[i] == s[1..][i - 1];
    }
  }

  lemma {:induction false} DigitLenExact(h: string, rest: string)
    requires (forall i :: 0 <= i < |h| ==> '0' <= h[i] <= '9') && (rest == "" || !('0' <= rest[0] <= '9'))
    ensures DigitLen(h + rest) == |h|
  {
    if h == "" {
      assert h + rest == rest;
    } else {
      assert (h + rest)[1..] == h[1..] + rest;
      DigitLenExact(h[1..], rest);
    }
  }

  function HandleAt(s: string): Option<string> {
    if StartsWith(s, "# handle ") && DigitLen(s[9..]) > 0 then Some(s[9..][..DigitLen(s[9..])]) else None
  }

  lemma HandleAtExact(s: string, h: string)
    ensures HandleAt(s) == Some(h) <==> HandleHere(s, h)
  {
    if HandleAt(s) == Some(h) {
      var t := s[9..];
      DigitLenIs(t);
      assert t == h + t[|h|..] && s == s[..9] + t;
      assert HandleText(s, h, t[|h|..]);
    }
    forall rest | HandleText(s, h, rest) ensures HandleAt(s) == Some(h) {
      DigitLenExact(h, rest);
      assert s[..9] == "# handle " && s[9..] == h + rest && (h + rest)[..|h|] == h;
    }
  }

  lemma {:induction false} HandleIsFirst(s: string)
    ensures Nftables.FindHandle(s) == First(HandleAt, s)
  {
    if s != "" { HandleIsFirst(s[1..]); }
  }

  lemma HandleExact(s: string, h: string)
    ensures Nftables.FindHandle(s) == Some(h) <==> exists i: nat :: FirstHere(HandleHere, s, i, h)
  {
    HandleIsFirst(s);
    forall t, x ensures HandleAt(t) == Some(x) <==> HandleHere(t, x) {
      HandleAtExact(t, x);
    }
    FirstExact(HandleAt, HandleHere, s, h);
  }

  // ---- LEAD([^"]*)" ----

  predicate QuotedText(s: string, lead: string, v: string, rest: string) {
    s == lead + (v + "\"" + rest) && '"' !in v
  }

  ghost predicate QuotedHere(s: string, lead: string, v: string) {
    exists rest :: QuotedText(s, lead, v, rest)
  }

  function QuotedAt(s: string, lead: string): Option<string> {
    if StartsWith(s, lead) && UnquotedLen(s[|lead|..]) < |s| - |lead| then
      Some(s[|lead|..][..UnquotedLen(s[|lead|..])])
    else None
  }

  lemma {:induction false} UnquotedLenIs(s: string)
    ensures '"' !in s[..UnquotedLen(s)]
    ensures UnquotedLen(s) < |s| ==> s[UnquotedLen(s)] == '"'
  {
    if s != "" && s[0] != '"' {
      var n := UnquotedLen(s[1..]);
      UnquotedLenIs(s[1..]);
      assert s[..n + 1] == [s[0]] + s[1..][..n];
    }
  }

  lemma QuotedRead(s: string, lead: string, v: string, rest: string)
    requires QuotedText(s, lead, v, rest)
    ensures QuotedAt(s, lead) == Some(v)
  {
    var more := v + "\"" + rest;
    assert s[..|lead|] == lead && s[|lead|..] == more;
    assert more == v + ("\"" + rest) && more[..|v|] == v;
    UnquotedLenOf(v, "\"" + rest);
  }

  lemma QuotedAtExact(s: string, lead: string, v: string)
    ensures QuotedAt(s, lead) == Some(v) <==> QuotedHere(s, lead, v)
  {
    if QuotedAt(s, lead) == Some(v) {
      var more := s[|lead|..];
      UnquotedLenIs(more);
      PrefixCut(s, lead);
      assert more == v + "\"" + more[|v| + 1..];
      assert QuotedText(s, lead, v, more[|v| + 1..]);
    }
    forall rest | QuotedText(s, lead, v, rest) ensures QuotedAt(s, lead) == Some(v) {
      QuotedRead(s, lead, v, rest);
    }
  }

  lemma {:induction false} QuotedIsFirst(at: string -> Option<string>, s: string, lead: string)
    requires forall t :: at(t) == QuotedAt(t, lead)
    ensures Firewalld.FindQuoted(s, lead) == First(at, s)
  {
    if s != "" { QuotedIsFirst(at, s[1..], lead); }
  }

  ghost predicate FirstQuoted(s: string, lead: string, i: nat, v: string) {
    i <= |s| && QuotedHere(s[i..], lead, v) && forall j: nat, w :: j < i ==> !QuotedHere(s[j..], lead, w)
  }

  lemma QuotedExact(s: string, lead: string, v: string)
    ensures Firewalld.FindQuoted(s, lead) == Some(v) <==> exists i: nat :: FirstQuoted(s, lead, i, v)
  {
    var at := t => QuotedAt(t, lead);
    var here := (t, x) => QuotedHere(t, lead, x);
    QuotedIsFirst(at, s, lead);
    forall t, x ensures at(t) == Some(x) <==> here(t, x) {
      QuotedAtExact(t, lead, x);
    }
    FirstExact(at, here, s, v);
    forall i: nat ensures FirstHere(here, s, i, v) <==> FirstQuoted(s, lead, i, v) {
      assert forall j: nat, w :: j < i <= |s| ==> (here(s[j..], w) <==> QuotedHere(s[j..], lead, w));
    }
  }

  // ---- (accept|reject|drop)\s*$ ----

  predicate ActionText(s: string, word: string, blanks: string) {
    && s == word + blanks && word in {"accept", "reject", "drop"}
    && forall i :: 0 <= i < |blanks| ==> ReSpace(blanks[i])
  }

  ghost predicate ActionHere(s: string, word: string) {
    exists blanks :: ActionText(s, word, blanks)
  }

  function ActionAt(s: string): Option<string> {
    if Firewalld.EndsAfter(s, "accept") then Some("accept")
    else if Firewalld.EndsAfter(s, "reject") then Some("reject")
    else if Firewalld.EndsAfter(s, "drop") then Some("drop")
    else None
  }

  lemma EndsAfterExact(s: string, word: string)
    requires word in {"accept", "reject", "drop"}
    ensures Firewalld.EndsAfter(s, word) <==> ActionHere(s, word)
  {
    if Firewalld.EndsAfter(s, word) {
      PrefixCut(s, word);
      assert ActionText(s, word, s[|word|..]);
    }
    forall blanks | ActionText(s, word, blanks) ensures Firewalld.EndsAfter(s, word) {
      assert s[..|word|] == word && s[|word|..] == blanks;
    }
  }

  lemma OneWord(s: string, v: string, w: string)
    requires ActionHere(s, v) && ActionHere(s, w)
    ensures v == w
  {
    assert s[0] == v[0] && s[0] == w[0];
  }

  lemma ActionAtExact(s: string, word: string)
    ensures ActionAt(s) == Some(word) <==> ActionHere(s, word)
  {
    EndsAfterExact(s, "accept");
    EndsAfterExact(s, "reject");
    EndsAfterExact(s, "drop");
    if ActionHere(s, word) && ActionAt(s).Some? {
      OneWord(s, word, ActionAt(s).value);
    }
  }

  lemma {:induction false} ActionIsFirst(s: string)
    ensures Firewalld.FindAction(s) == First(ActionAt, s)
  {
    if s != "" { ActionIsFirst(s[1..]); }
  }

  lemma ActionExact(s: string, word: string)
    ensures Firewalld.FindAction(s) == Some(word) <==> exists i: nat :: FirstHere(ActionHere, s, i, word)
  {
    ActionIsFirst(s);
    forall t, x ensures ActionAt(t) == Some(x) <==> ActionHere(t, x) {
      ActionAtExact(t, x);
    }
    FirstExact(ActionAt, ActionHere, s, word);
  }
}
