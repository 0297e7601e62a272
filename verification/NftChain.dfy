/**
  Changing the INPUT chain with nft (internal/firewall/firewall.go:78-106 and
  265-298): rules are appended, and removed by the handle found in the listing.
  A line of the chain is what the listing shows of it.
*/
module NftChain {
  import opened Text
  import opened FirewallRules
  import opened Nftables

  predicate HasHandle(l: Listed, h: string) {
    l.Shown? && l.handle == h
  }

  /** No two rules share a handle. */
  predicate DistinctHandles(ls: seq<Listed>) {
    forall i, j :: 0 <= i < j < |ls| && ls[i].Shown? && ls[j].Shown? ==> ls[i].handle != ls[j].handle
  }

  /** A handle the kernel has not given to any rule of the chain. */
  predicate Fresh(ls: seq<Listed>, h: string) {
    h != "" && Digits(h) && forall l :: l in ls ==> !HasHandle(l, h)
  }

  /** Without the line that has this handle. */
  function WithoutHandle(ls: seq<Listed>, h: string): seq<Listed> {
    if ls == [] then []
    else (if HasHandle(ls[0], h) then [] else [ls[0]]) + WithoutHandle(ls[1..], h)
  }

  /** Without the first line that shows this rule. */
  function WithoutFirst(ls: seq<Listed>, rule: Rule): seq<Listed> {
    if ls == [] then []
    else if Shows(ls[0], rule) then ls[1..]
    else [ls[0]] + WithoutFirst(ls[1..], rule)
  }

  function RulesOf(ls: seq<Listed>): multiset<Rule> {
    if ls == [] then multiset{}
    else (if ls[0].Shown? then multiset{ls[0].rule} else multiset{}) + RulesOf(ls[1..])
  }

  predicate ChainOk(ls: seq<Listed>) {
    AllListings(ls) && DistinctHandles(ls)
  }

  lemma TailOk(ls: seq<Listed>)
    requires ChainOk(ls) && ls != []
    ensures ChainOk(ls[1..]) && Listing(ls[0])
  {
  }

  lemma {:induction false} NoSuchHandle(ls: seq<Listed>, h: string)
    requires forall l :: l in ls ==> !HasHandle(l, h)
    ensures WithoutHandle(ls, h) == ls
  {
    if ls != [] {
      assert ls == [ls[0]] + ls[1..];
      NoSuchHandle(ls[1..], h);
    }
  }

  lemma {:induction false} HandleIsListed(ls: seq<Listed>, rule: Rule)
    requires HandleOf(ls, rule) != ""
    ensures exists i :: 0 <= i < |ls| && Shows(ls[i], rule) && HasHandle(ls[i], HandleOf(ls, rule))
  {
    if !Shows(ls[0], rule) {
      HandleIsListed(ls[1..], rule);
      var i :| 0 <= i < |ls[1..]| && Shows(ls[1..][i], rule) && HasHandle(ls[1..][i], HandleOf(ls, rule));
      assert Shows(ls[i + 1], rule) && HasHandle(ls[i + 1], HandleOf(ls, rule));
    }
  }

  /** Deleting by the handle found removes exactly the first line that shows the rule. */
  lemma {:induction false} DeletesTheFirst(ls: seq<Listed>, rule: Rule)
    requires ChainOk(ls) && HandleOf(ls, rule) != ""
    ensures WithoutHandle(ls, HandleOf(ls, rule)) == WithoutFirst(ls, rule)
  {
    TailOk(ls);
    var h := HandleOf(ls, rule);
    if Shows(ls[0], rule) {
      forall l | l in ls[1..] ensures !HasHandle(l, h) {
        var j :| 0 <= j < |ls[1..]| && ls[1..][j] == l;
        assert ls[j + 1] == l;
      }
      NoSuchHandle(ls[1..], h);
    } else {
      HandleIsListed(ls[1..], rule);
      var i :| 0 <= i < |ls[1..]| && HasHandle(ls[1..][i], h);
      assert ls[i + 1] == ls[1..][i];
      DeletesTheFirst(ls[1..], rule);
    }
  }

  lemma {:induction false} WithoutFirstMembers(ls: seq<Listed>, rule: Rule)
    ensures forall l :: l in WithoutFirst(ls, rule) ==> l in ls
  {
    if ls != [] {
      WithoutFirstMembers(ls[1..], rule);
      assert ls == [ls[0]] + ls[1..];
    }
  }

  lemma {:induction false} WithoutFirstOk(ls: seq<Listed>, rule: Rule)
    requires ChainOk(ls)
    ensures ChainOk(WithoutFirst(ls, rule))
  {
    if ls != [] {
      TailOk(ls);
      WithoutFirstOk(ls[1..], rule);
      WithoutFirstMembers(ls[1..], rule);
      var rest := WithoutFirst(ls[1..], rule);
      if !Shows(ls[0], rule) {
        forall j | 0 <= j < |rest| && ls[0].Shown? && rest[j].Shown? ensures ls[0].handle != rest[j].handle {
          assert rest[j] in ls[1..];
          var i :| 0 <= i < |ls[1..]| && ls[1..][i] == rest[j];
          assert ls[i + 1] == rest[j];
        }
      }
    }
  }

  function ChangedBy(ls: seq<Listed>, rule: Rule, remove: bool, handle: string): seq<Listed> {
    if remove then WithoutFirst(ls, rule) else ls + [Shown("\t\t", rule, handle)]
  }

  /** The chain after each of the rules was added or removed. */
  function Changed(ls: seq<Listed>, rs: seq<Rule>, remove: bool, handles: seq<string>): seq<Listed>
    requires |rs| <= |handles|
  {
    if rs == [] then ls
    else
      var n := |rs| - 1;
      ChangedBy(Changed(ls, rs[..n], remove, handles), rs[n], remove, handles[n])
  }

  /** `now` is the chain after the first i of the rules were changed, and the handles of the others are free. */
  predicate UpTo(start: seq<Listed>, rs: seq<Rule>, i: nat, remove: bool, handles: seq<string>, now: seq<Listed>)
    requires i <= |rs| <= |handles|
  {
    && now == Changed(start, rs[..i], remove, handles)
    && forall j :: i <= j < |rs| ==> Fresh(now, handles[j])
  }

  /** Only some of the rules, in order, were changed: none, or those before the one that failed. */
  ghost predicate Partly(start: seq<Listed>, rs: seq<Rule>, remove: bool, handles: seq<string>, now: seq<Listed>)
    requires |rs| <= |handles|
  {
    exists k: nat :: k < |rs| && UpTo(start, rs, k, remove, handles, now)
  }

  // ---- one rule ----

  class Chain {
    var lines: seq<Listed>

    constructor (lines: seq<Listed>)
      requires ChainOk(lines)
      ensures this.lines == lines
    {
      this.lines := lines;
    }

    /** `nft add rule`, which may fail; the kernel gives the rule its handle. */
    method Add(rule: Rule, handle: string) returns (ok: bool)
      requires ChainOk(lines) && Ready(rule) && Fresh(lines, handle)
      modifies this
      ensures ChainOk(lines)
      ensures lines == if ok then old(lines) + [Shown("\t\t", rule, handle)] else old(lines)
    {
      ok := false;
      if * {
        ok := true;
        AddedOk(lines, rule, handle);
        lines := lines + [Shown("\t\t", rule, handle)];
      }
    }

    /** `nft delete rule ... handle h`, which may fail. */
    method DeleteHandle(handle: string) returns (ok: bool)
      modifies this
      ensures lines == if ok then WithoutHandle(old(lines), handle) else old(lines)
    {
      ok := false;
      if * {
        ok := true;
        lines := WithoutHandle(lines, handle);
      }
    }

    method NftRemove(rule: Rule) returns (ok: bool)
      requires ChainOk(lines) && Ready(rule)
      modifies this
      ensures ChainOk(lines)
      ensures ok ==> exists l :: l in old(lines) && Shows(l, rule)
      ensures lines == if ok then WithoutFirst(old(lines), rule) else old(lines)
    {
      var handle := MatchNftHandle(Unlines(ListedTexts(lines)), rule);
      HandleFound(lines, rule);
      if handle == "" {
        return false;
      }
      NoHandleIff(lines, rule);
      DeletesTheFirst(lines, rule);
      WithoutFirstOk(lines, rule);
      ok := DeleteHandle(handle);
    }

    method NftRule(rule: Rule, remove: bool, handle: string) returns (ok: bool)
      requires ChainOk(lines) && Ready(rule) && Fresh(lines, handle)
      modifies this
      ensures ChainOk(lines)
      ensures lines == if ok then ChangedBy(old(lines), rule, remove, handle) else old(lines)
      ensures ok && remove ==> exists l :: l in old(lines) && Shows(l, rule)
    {
      if remove {
        ok := NftRemove(rule);
        return;
      }
      ok := Add(rule, handle);
    }

    /** Both halves of a rule without a protocol, one after the other; the first failure ends it. */
    method MutateRule(rule: Rule, remove: bool, handles: seq<string>) returns (ok: bool)
      requires ChainOk(lines) && |handles| == 2 && handles[0] != handles[1]
      requires Fresh(lines, handles[0]) && Fresh(lines, handles[1])
      modifies this
      ensures ChainOk(lines)
      ensures !ValidRule(rule) ==> !ok && lines == old(lines)
      ensures ok ==> lines == Changed(old(lines), ExpandProto(rule), remove, handles)
      ensures !ok && ValidRule(rule) ==> Partly(old(lines), ExpandProto(rule), remove, handles, lines)
    {
      if !ValidRule(rule) {
        return false;
      }
      ExpandIsReady(rule);
      var rs := ExpandProto(rule);
      for i := 0 to |rs|
        invariant ChainOk(lines) && UpTo(old(lines), rs, i, remove, handles, lines)
      {
        OneMore(old(lines), rs, i, remove, handles, lines);
        ok := NftRule(rs[i], remove, handles[i]);
        if !ok {
          return false;
        }
      }
      assert rs[..|rs|] == rs;
      return true;
    }
  }

  lemma AddedOk(ls: seq<Listed>, rule: Rule, handle: string)
    requires ChainOk(ls) && Ready(rule) && Fresh(ls, handle)
    ensures ChainOk(ls + [Shown("\t\t", rule, handle)])
  {
    assert forall i :: 0 <= i < |ls| ==> ls[i] in ls;
  }

  /** The first line found in the text is the one HandleOf names, also in an empty chain. */
  lemma HandleFound(ls: seq<Listed>, rule: Rule)
    requires AllListings(ls) && Ready(rule)
    ensures FirstHandle(Lines(Unlines(ListedTexts(ls))), rule) == HandleOf(ls, rule)
  {
    if ls != [] {
      HandleIsFirstEqual(ls, rule);
    } else {
      assert NftAt("").None?;
    }
  }

  lemma ChangedSnoc(ls: seq<Listed>, rs: seq<Rule>, i: nat, remove: bool, handles: seq<string>)
    requires i < |rs| <= |handles|
    ensures Changed(ls, rs[..i + 1], remove, handles)
            == ChangedBy(Changed(ls, rs[..i], remove, handles), rs[i], remove, handles[i])
  {
    assert rs[..i + 1][..i] == rs[..i];
  }

  /** The next rule's change leads on; its handle is free for it. */
  lemma OneMore(start: seq<Listed>, rs: seq<Rule>, i: nat, remove: bool, handles: seq<string>, now: seq<Listed>)
    requires i < |rs| <= |handles| && UpTo(start, rs, i, remove, handles, now)
    requires forall j :: i < j < |rs| ==> handles[j] != handles[i]
    ensures Fresh(now, handles[i])
    ensures UpTo(start, rs, i + 1, remove, handles, ChangedBy(now, rs[i], remove, handles[i]))
  {
    ChangedSnoc(start, rs, i, remove, handles);
    forall j | i < j < |rs|
      ensures Fresh(ChangedBy(now, rs[i], remove, handles[i]), handles[j])
    {
      FreshKept(now, rs[i], remove, handles[i], handles[j]);
    }
  }

  lemma FreshKept(ls: seq<Listed>, rule: Rule, remove: bool, handle: string, other: string)
    requires Fresh(ls, other) && other != handle
    ensures Fresh(ChangedBy(ls, rule, remove, handle), other)
  {
    WithoutFirstMembers(ls, rule);
  }

  // ---- removing undoes adding ----

  lemma {:induction false} RulesAppend(a: seq<Listed>, b: seq<Listed>)
    ensures RulesOf(a + b) == RulesOf(a) + RulesOf(b)
  {
    if a == [] {
      assert a + b == b;
    } else {
      assert (a + b)[1..] == a[1..] + b;
      RulesAppend(a[1..], b);
    }
  }

  lemma {:induction false} RulesListed(ls: seq<Listed>, rule: Rule)
    ensures rule in RulesOf(ls) <==> exists l :: l in ls && Shows(l, rule)
  {
    if ls != [] {
      RulesListed(ls[1..], rule);
      assert ls == [ls[0]] + ls[1..];
      if Shows(ls[0], rule) { assert ls[0] in ls; }
    }
  }

  lemma RulesCons(l: Listed, ls: seq<Listed>)
    ensures RulesOf([l] + ls) == (if l.Shown? then multiset{l.rule} else multiset{}) + RulesOf(ls)
  {
    assert ([l] + ls)[1..] == ls;
  }

  /** Removing takes away one equal rule, if there is one. */
  lemma {:induction false} RulesWithoutFirst(ls: seq<Listed>, rule: Rule)
    ensures RulesOf(WithoutFirst(ls, rule)) == RulesOf(ls) - multiset{rule}
  {
    if ls != [] && !Shows(ls[0], rule) {
      RulesWithoutFirst(ls[1..], rule);
      RulesCons(ls[0], WithoutFirst(ls[1..], rule));
    }
  }

  lemma {:induction false} WithoutFirstAppend(a: seq<Listed>, b: seq<Listed>, rule: Rule)
    requires rule !in RulesOf(a)
    ensures WithoutFirst(a + b, rule) == a + WithoutFirst(b, rule)
  {
    if a == [] {
      assert a + b == b;
    } else {
      assert (a + b)[1..] == a[1..] + b;
      WithoutFirstAppend(a[1..], b, rule);
    }
  }

  lemma Combine(all: multiset<Rule>, part: multiset<Rule>, rule: Rule)
    ensures all + part + multiset{rule} == all + (part + multiset{rule})
    ensures all - part - multiset{rule} == all - (part + multiset{rule})
  {
  }

  lemma {:induction false} RulesAfter(ls: seq<Listed>, rs: seq<Rule>, remove: bool, handles: seq<string>)
    requires |rs| <= |handles|
    ensures RulesOf(Changed(ls, rs, remove, handles)) ==
            if remove then RulesOf(ls) - multiset(rs) else RulesOf(ls) + multiset(rs)
  {
    if rs != [] {
      var n := |rs| - 1;
      var before := Changed(ls, rs[..n], remove, handles);
      RulesAfter(ls, rs[..n], remove, handles);
      assert rs == rs[..n] + [rs[n]];
      Combine(RulesOf(ls), multiset(rs[..n]), rs[n]);
      RulesWithoutFirst(before, rs[n]);
      AddedRules(before, rs[n], handles[n]);
    }
  }

  lemma AddedRules(ls: seq<Listed>, rule: Rule, handle: string)
    ensures RulesOf(ls + [Shown("\t\t", rule, handle)]) == RulesOf(ls) + multiset{rule}
  {
    RulesAppend(ls, [Shown("\t\t", rule, handle)]);
  }

  /** Adding a rule and removing it leaves the same rules, as many times each. */
  lemma RemoveUndoesAdd(ls: seq<Listed>, rule: Rule, handles: seq<string>, others: seq<string>)
    requires |handles| == 2 && |others| == 2
    ensures var rs := ExpandProto(rule);
            RulesOf(Changed(Changed(ls, rs, false, handles), rs, true, others)) == RulesOf(ls)
  {
    var rs := ExpandProto(rule);
    RulesAfter(ls, rs, false, handles);
    RulesAfter(Changed(ls, rs, false, handles), rs, true, others);
  }

  lemma {:induction false} WithoutFirstEarlier(a: seq<Listed>, b: seq<Listed>, rule: Rule)
    requires rule in RulesOf(a)
    ensures WithoutFirst(a + b, rule) == WithoutFirst(a, rule) + b
  {
    assert (a + b)[1..] == a[1..] + b;
    if !Shows(a[0], rule) { WithoutFirstEarlier(a[1..], b, rule); }
  }

  /** The very same chain comes back, order included, exactly if the rule was not there before. */
  lemma RemoveRestoresChainIff(ls: seq<Listed>, rule: Rule, handle: string)
    requires Fresh(ls, handle)
    ensures WithoutFirst(ChangedBy(ls, rule, false, handle), rule) == ls <==> rule !in RulesOf(ls)
  {
    var line := Shown("\t\t", rule, handle);
    if rule !in RulesOf(ls) {
      WithoutFirstAppend(ls, [line], rule);
      assert [line][1..] == [] && ls + [] == ls;
    } else {
      WithoutFirstEarlier(ls, [line], rule);
      var back := WithoutFirst(ls, rule) + [line];
      assert back[|back| - 1] == line && HasHandle(line, handle);
    }
  }
}
