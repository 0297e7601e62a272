/**
  The signed query as text (internal/notify/sms.go:160-166 and 199-226): which
  characters stand for themselves, what the others become, what stands between
  the parts, and which order the keys are in.
*/
module CanonicalText {
  import opened CanonicalQuery

  function Ascii(s: string): Bytes {
    seq(|s|, i requires 0 <= i < |s| => (s[i] as int) % 256)
  }

  const HEX := "0123456789ABCDEF"

  predicate StandsForItself(ch: char) {
    'A' <= ch <= 'Z' || 'a' <= ch <= 'z' || '0' <= ch <= '9' || ch in "-_.~"
  }

  lemma StandsIsUnreserved(c: Byte)
    ensures StandsForItself(c as char) <==> Unreserved(c)
  {
  }

  lemma HexDigits(n: nat)
    requires n < 16
    ensures HEX[n] as int == Hex(n) && HEX[n] as int < 256
  {
  }

  lemma OneByte(c: Byte)
    ensures Encode([c]) == EncodeByte(c)
  {
    assert [c][1..] == [];
  }

  lemma AsciiTriple(h: char, l: char)
    requires h as int < 256 && l as int < 256
    ensures Ascii(['%', h, l]) == [37, h as int, l as int]
  {
  }

  /** One byte: itself, or a percent sign and two upper-case hexadecimal digits. */
  lemma ByteAsText(c: Byte)
    ensures Encode([c]) == if StandsForItself(c as char) then [c] else Ascii(['%', HEX[c / 16], HEX[c % 16]])
  {
    StandsIsUnreserved(c);
    OneByte(c);
    var h, l := c / 16, c % 16;
    HexDigits(h);
    HexDigits(l);
    AsciiTriple(HEX[h], HEX[l]);
  }

  /** And a text is encoded byte by byte. */
  lemma {:induction false} EncodeJoins(s: Bytes, t: Bytes)
    ensures Encode(s + t) == Encode(s) + Encode(t)
  {
    if s == [] {
      assert s + t == t;
    } else {
      assert (s + t)[1..] == s[1..] + t;
      EncodeJoins(s[1..], t);
    }
  }

  // ---- byte order ----

  /** The first `k` bytes agree, and then `a` ends or has the smaller byte. */
  predicate Before(a: Bytes, b: Bytes, k: nat) {
    k <= |a| && k < |b| && a[..k] == b[..k] && (k == |a| || a[k] < b[k])
  }

  lemma BeforeCons(x: Byte, a: Bytes, b: Bytes, k: nat)
    ensures Before([x] + a, [x] + b, k + 1) <==> Before(a, b, k)
  {
    if k <= |a| && k < |b| {
      assert ([x] + a)[..k + 1] == [x] + a[..k] && ([x] + b)[..k + 1] == [x] + b[..k];
      assert a[..k] == ([x] + a)[..k + 1][1..] && b[..k] == ([x] + b)[..k + 1][1..];
    }
  }

  lemma SameFirst(a: Bytes, b: Bytes)
    ensures forall k: nat :: k > 0 && Before(a, b, k) ==> a[0] == b[0]
  {
    forall k: nat | k > 0 && Before(a, b, k) ensures a[0] == b[0] {
      assert a[..k][0] == a[0] && b[..k][0] == b[0];
    }
  }

  lemma {:induction false} LessIsBefore(a: Bytes, b: Bytes)
    ensures Less(a, b) <==> exists k: nat :: Before(a, b, k)
  {
    if a == [] || b == [] || a[0] != b[0] {
      if Less(a, b) { assert Before(a, b, 0); }
      SameFirst(a, b);
    } else {
      var x, s, t := a[0], a[1..], b[1..];
      assert a == [x] + s && b == [x] + t;
      LessIsBefore(s, t);
      forall k: nat ensures Before(a, b, k + 1) <==> Before(s, t, k) { BeforeCons(x, s, t, k); }
      if Less(a, b) {
        var k: nat :| Before(s, t, k);
        assert Before(a, b, k + 1);
      }
      forall k: nat | Before(a, b, k) ensures Less(a, b) {
        assert Before(s, t, k - 1);
      }
    }
  }

  // ---- the query ----

  ghost predicate Precedes(a: Bytes, b: Bytes) {
    exists k: nat :: Before(a, b, k)
  }

  ghost predicate InByteOrder(ks: seq<Bytes>) {
    forall i, j :: 0 <= i < j < |ks| ==> Precedes(ks[i], ks[j])
  }

  ghost predicate Keys(ks: seq<Bytes>, m: map<Bytes, Bytes>) {
    forall k :: k in ks <==> k in m
  }

  ghost predicate EntriesAs(ks: seq<Bytes>, ps: seq<Bytes>, m: map<Bytes, Bytes>)
    requires Keys(ks, m)
  {
    |ps| == |ks| && forall i :: 0 <= i < |ks| ==> ps[i] == Encode(ks[i]) + Ascii("=") + Encode(m[ks[i]])
  }

  /** Every key of the map once, any two in byte order, and each entry as `key=value`. */
  ghost predicate Entries(ks: seq<Bytes>, ps: seq<Bytes>, m: map<Bytes, Bytes>) {
    InByteOrder(ks) && Keys(ks, m) && EntriesAs(ks, ps, m)
  }

  lemma {:induction false} PartAt(ks: seq<Bytes>, m: map<Bytes, Bytes>, i: nat)
    requires i < |ks| && forall k :: k in ks ==> k in m
    ensures |Parts(ks, m)| == |ks| && Parts(ks, m)[i] == Encode(ks[i]) + Ascii("=") + Encode(m[ks[i]])
  {
    assert Ascii("=") == [EQ];
    if |ks| > 1 {
      PartAt(ks[1..], m, if i > 0 then i - 1 else 0);
    }
  }

  lemma PartsAre(ks: seq<Bytes>, m: map<Bytes, Bytes>)
    requires Keys(ks, m)
    ensures EntriesAs(ks, Parts(ks, m), m)
  {
    if ks != [] { PartAt(ks, m, 0); }
    forall i | 0 <= i < |ks| ensures Parts(ks, m)[i] == Encode(ks[i]) + Ascii("=") + Encode(m[ks[i]]) {
      PartAt(ks, m, i);
    }
  }

  lemma SortedIsInByteOrder(ks: seq<Bytes>)
    ensures Sorted(ks) <==> InByteOrder(ks)
  {
    forall i, j | 0 <= i < j < |ks| ensures Less(ks[i], ks[j]) <==> Precedes(ks[i], ks[j]) {
      LessIsBefore(ks[i], ks[j]);
    }
  }

  lemma KeysAre(ks: seq<Bytes>, m: map<Bytes, Bytes>)
    ensures Elems(ks) == m.Keys <==> Keys(ks, m)
  {
    assert forall k :: k in ks <==> k in Elems(ks);
  }

  /** A query for a map is its entries, joined. */
  lemma QueryHasEntries(q: Bytes, m: map<Bytes, Bytes>) returns (ks: seq<Bytes>, ps: seq<Bytes>)
    requires IsQuery(q, m)
    ensures Entries(ks, ps, m) && q == Join(ps)
  {
    ks :| Sorted(ks) && Elems(ks) == m.Keys && q == QueryOf(ks, m);
    KeysAre(ks, m);
    SortedIsInByteOrder(ks);
    PartsAre(ks, m);
    ps := Parts(ks, m);
  }

  lemma SameEntries(ks: seq<Bytes>, ps: seq<Bytes>, qs: seq<Bytes>, m: map<Bytes, Bytes>)
    requires Keys(ks, m) && EntriesAs(ks, ps, m) && EntriesAs(ks, qs, m)
    ensures ps == qs
  {
  }

  /** And the entries of a map, joined, are a query for it. */
  lemma EntriesAreQuery(ks: seq<Bytes>, ps: seq<Bytes>, m: map<Bytes, Bytes>)
    requires Entries(ks, ps, m)
    ensures IsQuery(Join(ps), m)
  {
    KeysAre(ks, m);
    SortedIsInByteOrder(ks);
    PartsAre(ks, m);
    SameEntries(ks, ps, Parts(ks, m), m);
    assert Join(ps) == QueryOf(ks, m);
  }

  /** Joining puts one ampersand between any two parts, and nothing else. */
  lemma {:induction false} JoinsWithAmpersand(ps: seq<Bytes>, rest: seq<Bytes>)
    requires ps != [] && rest != []
    ensures Join(ps + rest) == Join(ps) + Ascii("&") + Join(rest)
    ensures Join([ps[0]]) == ps[0] && Join([]) == []
  {
    assert Ascii("&") == [AMP];
    assert (ps + rest)[1..] == ps[1..] + rest;
    if |ps| == 1 {
      assert ps[1..] + rest == rest;
    } else {
      JoinsWithAmpersand(ps[1..], rest);
    }
  }

  /** The two texts around a query: what is signed, and what is posted. */
  lemma WireTexts(q: Bytes, signature: Bytes)
    ensures StringToSign(q) == Ascii("POST&%2F&") + Encode(q)
    ensures Form(q, signature) == q + Ascii("&Signature=") + Encode(signature)
  {
    assert Ascii("POST&%2F&") == POST;
    assert Ascii("&Signature=") == [AMP] + SIGNATURE + [EQ];
  }
}
