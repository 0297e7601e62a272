/** Merging environment overrides into a container's list (internal/apps/override.go:106-152). */
module EnvMerge {
  import opened Wrappers

  // ---- entries ----

  function KeyLen(e: string): (n: nat)
    ensures n <= |e| && '=' !in e[..n] && (n < |e| ==> e[n] == '=')
  {
    if e == "" || e[0] == '=' then 0 else 1 + KeyLen(e[1..])
  }

  /** The text before the first '=', or all of it. */
  function Key(e: string): string { e[..KeyLen(e)] }

  predicate Letter(c: char) { 'a' <= c <= 'z' || 'A' <= c <= 'Z' || c == '_' }

  predicate NameChar(c: char) { Letter(c) || '0' <= c <= '9' }

  /** Unicode category Cc. */
  predicate Control(c: char) { c <= '\U{1F}' || '\U{7F}' <= c <= '\U{9F}' }

  function SplitEntry(e: string): Option<(string, string)> {
    var n := KeyLen(e);
    if n == |e| || n == 0 || !Letter(e[0]) then None
    else if exists i :: 0 <= i < n && !NameChar(e[i]) then None
    else if exists i :: n < i < |e| && Control(e[i]) then None
    else Some((e[..n], e[n + 1..]))
  }

  predicate Valid(e: string) { SplitEntry(e).Some? }

  lemma SplitJoins(e: string)
    requires Valid(e)
    ensures SplitEntry(e).value.0 == Key(e) && SplitEntry(e).value.0 + "=" + SplitEntry(e).value.1 == e
  {
    var n := KeyLen(e);
    assert e == e[..n] + [e[n]] + e[n + 1..];
  }

  // ---- what the merged list should be ----

  function Keys(es: seq<string>): seq<string> {
    if es == [] then [] else Keys(es[..|es| - 1]) + [Key(es[|es| - 1])]
  }

  function ValidOnly(es: seq<string>): seq<string> {
    if es == [] then []
    else ValidOnly(es[..|es| - 1]) + if Valid(es[|es| - 1]) then [es[|es| - 1]] else []
  }

  /** Each key at its first place. */
  function Firsts(ks: seq<string>): seq<string> {
    if ks == [] then []
    else
      var init := Firsts(ks[..|ks| - 1]);
      if ks[|ks| - 1] in init then init else init + [ks[|ks| - 1]]
  }

  function FirstWins(es: seq<string>): map<string, string> {
    if es == [] then map[]
    else
      var m := FirstWins(es[..|es| - 1]);
      if Key(es[|es| - 1]) in m then m else m[Key(es[|es| - 1]) := es[|es| - 1]]
  }

  function LastWins(es: seq<string>): map<string, string> {
    if es == [] then map[] else LastWins(es[..|es| - 1])[Key(es[|es| - 1]) := es[|es| - 1]]
  }

  /** The entry each key stands for: the base's first one, or the last valid override. */
  function Meaning(base: seq<string>, ov: seq<string>): map<string, string> {
    FirstWins(base) + LastWins(ValidOnly(ov))
  }

  /** Base keys in the base's order, then new keys in the order they first appear. */
  function Order(base: seq<string>, ov: seq<string>): seq<string> {
    Firsts(Keys(base) + Keys(ValidOnly(ov)))
  }

  predicate Distinct(ks: seq<string>) {
    forall i, j :: 0 <= i < j < |ks| ==> ks[i] != ks[j]
  }

  /** The list with these keys, in this order, and these entries. */
  ghost predicate Lists(out: seq<string>, ks: seq<string>, m: map<string, string>) {
    && |out| == |ks| && Distinct(ks)
    && (forall k :: k in ks <==> k in m)
    && (forall i :: 0 <= i < |ks| ==> out[i] == m[ks[i]] && Key(out[i]) == ks[i])
  }

  ghost predicate Indexes(idx: map<string, int>, ks: seq<string>) {
    && (forall k :: k in idx <==> k in ks)
    && (forall k :: k in idx ==> 0 <= idx[k] < |ks| && ks[idx[k]] == k)
  }

  /** The list so far and the positions of its keys. */
  ghost predicate Merging(out: seq<string>, idx: map<string, int>, ks: seq<string>, m: map<string, string>) {
    Lists(out, ks, m) && Indexes(idx, ks)
  }

  lemma MergingAppend(out: seq<string>, idx: map<string, int>, ks: seq<string>, m: map<string, string>, e: string)
    requires Merging(out, idx, ks, m) && Key(e) !in idx
    ensures Merging(out + [e], idx[Key(e) := |out|], ks + [Key(e)], m[Key(e) := e])
  {
    var ks' := ks + [Key(e)];
    assert forall k :: k in ks' <==> k in ks || k == Key(e);
  }

  lemma MergingReplace(out: seq<string>, idx: map<string, int>, ks: seq<string>, m: map<string, string>, e: string)
    requires Merging(out, idx, ks, m) && Key(e) in idx
    ensures Merging(out[idx[Key(e)] := e], idx, ks, m[Key(e) := e])
  {
  }

  lemma FirstsSnoc(ks: seq<string>, k: string)
    ensures Firsts(ks + [k]) == if k in Firsts(ks) then Firsts(ks) else Firsts(ks) + [k]
  {
    assert (ks + [k])[..|ks|] == ks;
  }

  lemma KeysSnoc(es: seq<string>, e: string)
    ensures Keys(es + [e]) == Keys(es) + [Key(e)]
    ensures FirstWins(es + [e]) == if Key(e) in FirstWins(es) then FirstWins(es) else FirstWins(es)[Key(e) := e]
    ensures LastWins(es + [e]) == LastWins(es)[Key(e) := e]
    ensures ValidOnly(es + [e]) == ValidOnly(es) + if Valid(e) then [e] else []
  {
    assert (es + [e])[..|es|] == es;
  }

  ghost predicate BaseMerged(out: seq<string>, idx: map<string, int>, base: seq<string>) {
    Merging(out, idx, Firsts(Keys(base)), FirstWins(base))
  }

  lemma BaseStep(out: seq<string>, idx: map<string, int>, es: seq<string>, e: string)
    requires BaseMerged(out, idx, es)
    ensures if Key(e) in idx then BaseMerged(out, idx, es + [e])
            else BaseMerged(out + [e], idx[Key(e) := |out|], es + [e])
  {
    KeysSnoc(es, e);
    FirstsSnoc(Keys(es), Key(e));
    if Key(e) !in idx { MergingAppend(out, idx, Firsts(Keys(es)), FirstWins(es), e); }
  }

  ghost predicate Merged(out: seq<string>, idx: map<string, int>, base: seq<string>, ov: seq<string>) {
    Merging(out, idx, Order(base, ov), Meaning(base, ov))
  }

  lemma NothingOverridden(out: seq<string>, idx: map<string, int>, base: seq<string>)
    requires BaseMerged(out, idx, base)
    ensures Merged(out, idx, base, [])
  {
    assert Keys(base) + [] == Keys(base) && FirstWins(base) + map[] == FirstWins(base);
  }

  lemma MeaningStep(base: seq<string>, ov: seq<string>, e: string)
    ensures Meaning(base, ov + [e]) == if Valid(e) then Meaning(base, ov)[Key(e) := e] else Meaning(base, ov)
  {
    KeysSnoc(ov, e);
    var valid := ValidOnly(ov);
    if Valid(e) {
      KeysSnoc(valid, e);
      AddThenUpdate(FirstWins(base), LastWins(valid), Key(e), e);
    } else {
      assert valid + [] == valid;
    }
  }

  lemma AddThenUpdate(a: map<string, string>, b: map<string, string>, k: string, e: string)
    ensures a + b[k := e] == (a + b)[k := e]
  {
  }

  lemma Regroup(a: seq<string>, b: seq<string>, k: string)
    ensures a + (b + [k]) == a + b + [k]
  {
  }

  lemma OrderStep(base: seq<string>, ov: seq<string>, e: string)
    ensures var ks := Order(base, ov);
            Order(base, ov + [e]) == if Valid(e) && Key(e) !in ks then ks + [Key(e)] else ks
  {
    KeysSnoc(ov, e);
    var valid := ValidOnly(ov);
    if Valid(e) {
      KeysSnoc(valid, e);
      FirstsSnoc(Keys(base) + Keys(valid), Key(e));
      Regroup(Keys(base), Keys(valid), Key(e));
    } else {
      assert valid + [] == valid;
    }
  }

  lemma OverrideStep(out: seq<string>, idx: map<string, int>, base: seq<string>, ov: seq<string>, e: string)
    requires Merged(out, idx, base, ov)
    ensures if !Valid(e) then Merged(out, idx, base, ov + [e])
            else if Key(e) in idx then Merged(out[idx[Key(e)] := e], idx, base, ov + [e])
            else Merged(out + [e], idx[Key(e) := |out|], base, ov + [e])
  {
    var ks, m := Order(base, ov), Meaning(base, ov);
    MeaningStep(base, ov, e);
    OrderStep(base, ov, e);
    if Key(e) in idx {
      MergingReplace(out, idx, ks, m, e);
    } else {
      MergingAppend(out, idx, ks, m, e);
    }
  }

  lemma BaseNext(out: seq<string>, idx: map<string, int>, base: seq<string>, i: nat)
    requires i < |base| && BaseMerged(out, idx, base[..i])
    ensures var k := Key(base[i]);
            if k in idx then BaseMerged(out, idx, base[..i + 1])
            else BaseMerged(out + [base[i]], idx[k := |out|], base[..i + 1])
  {
    assert base[..i + 1] == base[..i] + [base[i]];
    BaseStep(out, idx, base[..i], base[i]);
  }

  lemma InvalidNext(out: seq<string>, idx: map<string, int>, base: seq<string>, ov: seq<string>, i: nat)
    requires i < |ov| && Merged(out, idx, base, ov[..i]) && !Valid(ov[i])
    ensures Merged(out, idx, base, ov[..i + 1])
  {
    assert ov[..i + 1] == ov[..i] + [ov[i]];
    OverrideStep(out, idx, base, ov[..i], ov[i]);
  }

  /** A valid entry keeps its key's place, or is added at the end. */
  lemma EntryNext(out: seq<string>, idx: map<string, int>, base: seq<string>, ov: seq<string>, i: nat)
    requires i < |ov| && Merged(out, idx, base, ov[..i]) && Valid(ov[i])
    ensures var (k, v) := SplitEntry(ov[i]).value;
            if k in idx then
              0 <= idx[k] < |out| && Merged(out[idx[k] := k + "=" + v], idx, base, ov[..i + 1])
            else Merged(out + [k + "=" + v], idx[k := |out|], base, ov[..i + 1])
  {
    assert ov[..i + 1] == ov[..i] + [ov[i]];
    OverrideStep(out, idx, base, ov[..i], ov[i]);
    SplitJoins(ov[i]);
  }

  method MergeEnv(base: seq<string>, ov: seq<string>) returns (out: seq<string>)
    ensures Lists(out, Order(base, ov), Meaning(base, ov))
  {
    var idx: map<string, int> := map[];
    out := [];
    for i := 0 to |base|
      invariant BaseMerged(out, idx, base[..i])
    {
      BaseNext(out, idx, base, i);
      var k := Key(base[i]);
      if k in idx {
        continue;
      }
      idx := idx[k := |out|];
      out := out + [base[i]];
    }
    assert base[..|base|] == base;
    NothingOverridden(out, idx, base);
    for i := 0 to |ov|
      invariant Merged(out, idx, base, ov[..i])
    {
      var entry := SplitEntry(ov[i]);
      if entry.None? {
        InvalidNext(out, idx, base, ov, i);
        continue;
      }
      EntryNext(out, idx, base, ov, i);
      var (k, v) := entry.value;
      if k in idx {
        out := out[idx[k] := k + "=" + v];
      } else {
        idx := idx[k := |out|];
        out := out + [k + "=" + v];
      }
    }
    assert ov[..|ov|] == ov;
  }

  // ---- what that list means ----

  /** There is only one such list. */
  lemma ListIsUnique(out: seq<string>, out': seq<string>, ks: seq<string>, m: map<string, string>)
    requires Lists(out, ks, m) && Lists(out', ks, m)
    ensures out == out'
  {
    assert forall i :: 0 <= i < |ks| ==> ks[i] in ks;
  }

  lemma ListsInit(out: seq<string>, ks: seq<string>, m: map<string, string>)
    requires Lists(out, ks, m) && out != []
    ensures var n := |out| - 1;
            && ks[n] in m && m[ks[n]] == out[n] && Key(out[n]) == ks[n]
            && Lists(out[..n], ks[..n], m - {ks[n]})
  {
    var n := |out| - 1;
    var init, k := ks[..n], ks[n];
    assert ks == init + [k];
    assert k in ks && k !in init;
    assert forall x :: x in ks <==> x in init || x == k;
  }

  lemma PutBack(m: map<string, string>, k: string)
    requires k in m
    ensures k !in m - {k} && (m - {k})[k := m[k]] == m
  {
  }

  /** Read as an environment, first entry wins, the list says exactly what it should. */
  lemma {:induction false} ListMeans(out: seq<string>, ks: seq<string>, m: map<string, string>)
    requires Lists(out, ks, m)
    ensures FirstWins(out) == m && Keys(out) == ks
  {
    if out == [] {
      assert m == map[];
    } else {
      var n := |out| - 1;
      ListsInit(out, ks, m);
      assert out[..n] + [out[n]] == out && ks[..n] + [ks[n]] == ks;
      KeysSnoc(out[..n], out[n]);
      ListMeans(out[..n], ks[..n], m - {ks[n]});
      PutBack(m, ks[n]);
    }
  }

  lemma {:induction false} FirstsOfDistinct(ks: seq<string>)
    requires Distinct(ks)
    ensures Firsts(ks) == ks
  {
    if ks != [] {
      var n := |ks| - 1;
      FirstsOfDistinct(ks[..n]);
      assert ks == ks[..n] + [ks[n]];
    }
  }

  lemma {:induction false} FirstsAbsorb(ks: seq<string>, more: seq<string>)
    requires forall k :: k in more ==> k in Firsts(ks)
    ensures Firsts(ks + more) == Firsts(ks)
  {
    if more == [] {
      assert ks + more == ks;
    } else {
      var n := |more| - 1;
      FirstsAbsorb(ks, more[..n]);
      assert ks + more == ks + more[..n] + [more[n]];
      FirstsSnoc(ks + more[..n], more[n]);
      assert more[n] in more;
    }
  }

  lemma {:induction false} LastWinsKeys(es: seq<string>)
    ensures forall k :: k in Keys(es) <==> k in LastWins(es)
  {
    if es != [] {
      var n := |es| - 1;
      LastWinsKeys(es[..n]);
      assert es == es[..n] + [es[n]];
      KeysSnoc(es[..n], es[n]);
    }
  }

  /** Merging the same overrides into the result changes nothing. */
  lemma MergeIsIdempotent(base: seq<string>, ov: seq<string>, out: seq<string>, again: seq<string>)
    requires Lists(out, Order(base, ov), Meaning(base, ov))
    requires Lists(again, Order(out, ov), Meaning(out, ov))
    ensures again == out
  {
    var ks, m := Order(base, ov), Meaning(base, ov);
    var valid := ValidOnly(ov);
    ListMeans(out, ks, m);
    assert m + LastWins(valid) == m;
    LastWinsKeys(valid);
    FirstsOfDistinct(ks);
    FirstsAbsorb(ks, Keys(valid));
    ListIsUnique(again, out, ks, m);
  }

  lemma {:induction false} FirstsPrefix(ks: seq<string>, more: seq<string>)
    ensures Firsts(ks) <= Firsts(ks + more)
  {
    if more == [] {
      assert ks + more == ks;
    } else {
      var n := |more| - 1;
      FirstsPrefix(ks, more[..n]);
      assert ks + more == ks + more[..n] + [more[n]];
      FirstsSnoc(ks + more[..n], more[n]);
    }
  }

  lemma NothingValid(base: seq<string>, ov: seq<string>)
    requires ValidOnly(ov) == []
    ensures Order(base, ov) == Firsts(Keys(base)) && Meaning(base, ov) == FirstWins(base)
  {
    assert Keys(base) + [] == Keys(base) && FirstWins(base) + map[] == FirstWins(base);
  }

  /** The base's keys come first, in the base's order; with no valid override only its duplicates go. */
  lemma BaseOrderKept(base: seq<string>, ov: seq<string>, out: seq<string>)
    requires Lists(out, Order(base, ov), Meaning(base, ov))
    ensures Firsts(Keys(base)) <= Keys(out)
    ensures ValidOnly(ov) == [] ==> Keys(out) == Firsts(Keys(base)) && FirstWins(out) == FirstWins(base)
  {
    ListMeans(out, Order(base, ov), Meaning(base, ov));
    FirstsPrefix(Keys(base), Keys(ValidOnly(ov)));
    if ValidOnly(ov) == [] { NothingValid(base, ov); }
  }
}
