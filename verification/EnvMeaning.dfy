/**
  What a merged environment says, on the two lists themselves
  (internal/apps/override.go:85-132): which override entries count, which entry
  each key ends up with, and in which order the keys come.
*/
module EnvMeaning {
  import opened Wrappers
  import opened EnvMerge

  predicate Starts(c: char) {
    'a' <= c <= 'z' || 'A' <= c <= 'Z' || c == '_'
  }

  /** A name, an equals sign and a value without control characters. */
  predicate IsEntry(e: string, k: string, v: string) {
    && e == k + "=" + v && k != "" && Starts(k[0])
    && (forall i :: 0 <= i < |k| ==> Starts(k[i]) || '0' <= k[i] <= '9')
    && (forall i :: 0 <= i < |v| ==> '\U{20}' <= v[i] <= '\U{7E}' || v[i] >= '\U{A0}')
  }

  lemma {:induction false} KeyLenOf(k: string, rest: string)
    requires '=' !in k
    ensures KeyLen(k + "=" + rest) == |k| && KeyLen(k) == |k|
  {
    if k == "" {
      assert k + "=" + rest == "=" + rest;
    } else {
      assert (k + "=" + rest)[1..] == k[1..] + "=" + rest;
      KeyLenOf(k[1..], rest);
    }
  }

  lemma EntryIsValid(e: string, k: string, v: string)
    requires IsEntry(e, k, v)
    ensures SplitEntry(e) == Some((k, v)) && Key(e) == k
  {
    KeyLenOf(k, v);
    assert e[..|k|] == k && e[|k| + 1..] == v && e[0] == k[0];
    assert forall i :: 0 <= i < |k| ==> e[i] == k[i];
    assert forall i :: |k| < i < |e| ==> e[i] == v[i - |k| - 1];
  }

  /** An override counts exactly if it is such an entry; it is then cut at its first equals sign. */
  lemma EntriesExact(e: string, k: string, v: string)
    ensures SplitEntry(e) == Some((k, v)) <==> IsEntry(e, k, v)
  {
    if SplitEntry(e) == Some((k, v)) {
      SplitJoins(e);
      var n := KeyLen(e);
      assert forall i :: 0 <= i < |k| ==> k[i] == e[i];
      assert forall i :: 0 <= i < |v| ==> v[i] == e[n + 1 + i];
    } else if IsEntry(e, k, v) {
      EntryIsValid(e, k, v);
    }
  }

  /** The key of any entry is the text before its first equals sign, or all of it. */
  lemma KeyExact(e: string, k: string)
    ensures Key(e) == k <==> '=' !in k && (e == k || exists v :: e == k + "=" + v)
  {
    var n := KeyLen(e);
    if Key(e) == k {
      assert n < |e| ==> e == k + "=" + e[n + 1..];
    }
    if '=' !in k {
      KeyLenOf(k, "");
      forall v | e == k + "=" + v ensures Key(e) == k {
        KeyLenOf(k, v);
      }
    }
  }

  // ---- which entry a key has ----

  /** `i` is the last place of a counting override for the key. */
  predicate LastOverride(ov: seq<string>, k: string, i: nat) {
    i < |ov| && Valid(ov[i]) && Key(ov[i]) == k && forall j :: i < j < |ov| && Valid(ov[j]) ==> Key(ov[j]) != k
  }

  predicate NoOverride(ov: seq<string>, k: string) {
    forall j :: 0 <= j < |ov| && Valid(ov[j]) ==> Key(ov[j]) != k
  }

  /** `i` is the first place of the key in the base. */
  predicate FirstInBase(base: seq<string>, k: string, i: nat) {
    i < |base| && Key(base[i]) == k && forall j :: 0 <= j < i ==> Key(base[j]) != k
  }

  predicate NotInBase(base: seq<string>, k: string) {
    forall j :: 0 <= j < |base| ==> Key(base[j]) != k
  }

  lemma OverrideMore(ov: seq<string>, e: string, k: string)
    ensures var more := ov + [e];
            && (NoOverride(more, k) <==> NoOverride(ov, k) && !(Valid(e) && Key(e) == k))
            && (Valid(e) && Key(e) == k ==> LastOverride(more, k, |ov|))
    ensures !(Valid(e) && Key(e) == k) ==> forall i: nat :: LastOverride(ov, k, i) ==> LastOverride(ov + [e], k, i)
  {
    var more := ov + [e];
    assert more[|ov|] == e && forall i :: 0 <= i < |ov| ==> more[i] == ov[i];
  }

  lemma BaseMore(base: seq<string>, e: string, k: string)
    ensures var more := base + [e];
            && (NotInBase(more, k) <==> NotInBase(base, k) && Key(e) != k)
            && (NotInBase(base, k) && Key(e) == k ==> FirstInBase(more, k, |base|))
    ensures forall i: nat :: FirstInBase(base, k, i) ==> FirstInBase(base + [e], k, i)
  {
    var more := base + [e];
    assert more[|base|] == e && forall i :: 0 <= i < |base| ==> more[i] == base[i];
  }

  /** The last counting override of a key, if it has one, is what the overrides say about it. */
  lemma {:induction false} OverridesExact(ov: seq<string>, k: string) returns (i: nat)
    ensures k in LastWins(ValidOnly(ov)) <==> !NoOverride(ov, k)
    ensures k in LastWins(ValidOnly(ov)) ==> LastOverride(ov, k, i) && LastWins(ValidOnly(ov))[k] == ov[i]
  {
    i := 0;
    if ov != [] {
      var n := |ov| - 1;
      var init, e := ov[..n], ov[n];
      assert ov == init + [e];
      i := OverridesExact(init, k);
      OverrideMore(init, e, k);
      KeysSnoc(init, e);
      if Valid(e) {
        KeysSnoc(ValidOnly(init), e);
        if Key(e) == k { i := n; }
      } else {
        assert ValidOnly(init) + [] == ValidOnly(init);
      }
    }
  }

  /** And the first entry of the base with the key is what the base says. */
  lemma {:induction false} BaseExact(base: seq<string>, k: string) returns (i: nat)
    ensures k in FirstWins(base) <==> !NotInBase(base, k)
    ensures k in FirstWins(base) ==> FirstInBase(base, k, i) && FirstWins(base)[k] == base[i]
  {
    i := 0;
    if base != [] {
      var n := |base| - 1;
      var init, e := base[..n], base[n];
      assert base == init + [e];
      i := BaseExact(init, k);
      BaseMore(init, e, k);
      KeysSnoc(init, e);
      if NotInBase(init, k) { i := n; }
    }
  }

  /** The merged list has the entry of a key's last counting override, or else of the key's first place in the base. */
  ghost predicate Has(base: seq<string>, ov: seq<string>, k: string, e: string) {
    || (exists i: nat :: LastOverride(ov, k, i) && ov[i] == e)
    || (NoOverride(ov, k) && exists i: nat :: FirstInBase(base, k, i) && base[i] == e)
  }

  lemma OneLast(ov: seq<string>, k: string, i: nat)
    requires LastOverride(ov, k, i)
    ensures !NoOverride(ov, k) && forall j: nat :: LastOverride(ov, k, j) ==> j == i
  {
  }

  lemma OneFirst(base: seq<string>, k: string, i: nat)
    requires FirstInBase(base, k, i)
    ensures !NotInBase(base, k) && forall j: nat :: FirstInBase(base, k, j) ==> j == i
  {
  }

  lemma MeaningExact(base: seq<string>, ov: seq<string>, k: string, e: string)
    ensures k in Meaning(base, ov) && Meaning(base, ov)[k] == e <==> Has(base, ov, k, e)
  {
    var i := OverridesExact(ov, k);
    var j := BaseExact(base, k);
    if k in LastWins(ValidOnly(ov)) {
      OneLast(ov, k, i);
    } else if k in FirstWins(base) {
      OneFirst(base, k, j);
    }
  }

  lemma ListedEntries(out: seq<string>, ks: seq<string>, m: map<string, string>, e: string)
    requires Lists(out, ks, m)
    ensures e in out <==> Key(e) in m && m[Key(e)] == e
    ensures forall i, j :: 0 <= i < j < |out| ==> Key(out[i]) != Key(out[j])
  {
    if Key(e) in m && m[Key(e)] == e {
      var i :| 0 <= i < |ks| && ks[i] == Key(e);
      assert out[i] == e;
    }
  }

  /** Exactly these entries are in the merged list, and no key twice. */
  lemma MergedEntries(base: seq<string>, ov: seq<string>, out: seq<string>, e: string)
    requires Lists(out, Order(base, ov), Meaning(base, ov))
    ensures e in out <==> Has(base, ov, Key(e), e)
    ensures forall i, j :: 0 <= i < j < |out| ==> Key(out[i]) != Key(out[j])
  {
    ListedEntries(out, Order(base, ov), Meaning(base, ov), e);
    MeaningExact(base, ov, Key(e), e);
  }

  // ---- the order ----

  /** The first `a` comes before any `b`. */
  predicate Sooner(ks: seq<string>, a: string, b: string) {
    exists p :: 0 <= p < |ks| && ks[p] == a && b !in ks[..p + 1]
  }

  lemma SoonerGrows(ks: seq<string>, k: string, a: string, b: string)
    requires Sooner(ks, a, b)
    ensures Sooner(ks + [k], a, b)
  {
    var p :| 0 <= p < |ks| && ks[p] == a && b !in ks[..p + 1];
    assert (ks + [k])[..p + 1] == ks[..p + 1] && (ks + [k])[p] == a;
  }

  lemma SoonerThanNew(ks: seq<string>, k: string, a: string)
    requires a in ks && k !in ks
    ensures Sooner(ks + [k], a, k)
  {
    var p :| 0 <= p < |ks| && ks[p] == a;
    assert (ks + [k])[..p + 1] == ks[..p + 1] && (ks + [k])[p] == a;
  }

  lemma {:induction false} FirstsExact(ks: seq<string>)
    ensures forall k :: k in Firsts(ks) <==> k in ks
    ensures forall i, j :: 0 <= i < j < |Firsts(ks)| ==> Sooner(ks, Firsts(ks)[i], Firsts(ks)[j])
  {
    if ks != [] {
      var n := |ks| - 1;
      var init, k := ks[..n], ks[n];
      assert ks == init + [k];
      FirstsExact(init);
      FirstsSnoc(init, k);
      var old' := Firsts(init);
      forall i, j | 0 <= i < j < |Firsts(ks)| ensures Sooner(ks, Firsts(ks)[i], Firsts(ks)[j]) {
        if j < |old'| {
          SoonerGrows(init, k, old'[i], old'[j]);
        } else {
          assert old'[i] in init;
          SoonerThanNew(init, k, old'[i]);
        }
      }
    }
  }

  /** Key by key: all of the base's keys, and then those of the counting overrides. */
  predicate KeysOf(es: seq<string>, ks: seq<string>) {
    |ks| == |es| && forall i :: 0 <= i < |es| ==> ks[i] == Key(es[i])
  }

  lemma {:induction false} KeysAreKeys(es: seq<string>)
    ensures KeysOf(es, Keys(es))
  {
    if es != [] { KeysAreKeys(es[..|es| - 1]); }
  }

  /** The merged list's keys come in the order in which the base and then the counting overrides first have them. */
  lemma MergedOrder(base: seq<string>, ov: seq<string>, out: seq<string>, ks: seq<string>, more: seq<string>)
    requires Lists(out, Order(base, ov), Meaning(base, ov))
    requires KeysOf(base, ks) && KeysOf(ValidOnly(ov), more)
    ensures forall i, j :: 0 <= i < j < |out| ==> Sooner(ks + more, Key(out[i]), Key(out[j]))
  {
    KeysAreKeys(base);
    KeysAreKeys(ValidOnly(ov));
    assert ks == Keys(base) && more == Keys(ValidOnly(ov));
    FirstsExact(Keys(base) + Keys(ValidOnly(ov)));
  }

  /** The counting overrides: each override, in order, if it is an entry. */
  lemma {:induction false} ValidOnlyExact(a: seq<string>, b: seq<string>)
    ensures ValidOnly(a + b) == ValidOnly(a) + ValidOnly(b)
    ensures forall e :: ValidOnly([e]) == if exists k, v :: IsEntry(e, k, v) then [e] else []
  {
    forall e ensures ValidOnly([e]) == if exists k, v :: IsEntry(e, k, v) then [e] else [] {
      OneValid(e);
    }
    if b == [] {
      assert a + b == a;
    } else {
      var n := |b| - 1;
      ValidOnlyExact(a, b[..n]);
      assert (a + b)[..|a + b| - 1] == a + b[..n];
    }
  }

  lemma OneValid(e: string)
    ensures ValidOnly([e]) == if exists k, v :: IsEntry(e, k, v) then [e] else []
  {
    assert [e][..0] == [];
    if Valid(e) {
      EntriesExact(e, SplitEntry(e).value.0, SplitEntry(e).value.1);
    }
    forall k, v | IsEntry(e, k, v) ensures Valid(e) {
      EntriesExact(e, k, v);
    }
  }
}
