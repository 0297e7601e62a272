/**
  The signed query string of the SMS gateway (internal/notify/sms.go:160-166 and 199-226):
  percent-encoding as in sections 2.1 and 2.3 of RFC 3986, keys in byte order.
*/
module CanonicalQuery {
  import opened Wrappers

  type Byte = x: int | 0 <= x < 256
  type Bytes = seq<Byte>

  const PERCENT: Byte := 37
  const AMP: Byte := 38
  const EQ: Byte := 61

  // ---- percent-encoding ----

  /** RFC 3986, section 2.3: letters, digits, '-', '.', '_' and '~'. */
  predicate Unreserved(c: int) {
    65 <= c <= 90 || 97 <= c <= 122 || 48 <= c <= 57 || c == 45 || c == 46 || c == 95 || c == 126
  }

  function Hex(n: int): Byte
    requires 0 <= n < 16
  {
    if n < 10 then 48 + n else 55 + n
  }

  predicate UpperHex(c: int) {
    48 <= c <= 57 || 65 <= c <= 70
  }

  function HexValue(c: int): int
    requires UpperHex(c)
  {
    if c <= 57 then c - 48 else c - 55
  }

  function EncodeByte(c: Byte): Bytes {
    if Unreserved(c) then [c] else [PERCENT, Hex(c / 16), Hex(c % 16)]
  }

  function Encode(s: Bytes): Bytes {
    if s == [] then [] else EncodeByte(s[0]) + Encode(s[1..])
  }

  lemma {:induction false} EncodeSnoc(s: Bytes, c: Byte)
    ensures Encode(s + [c]) == Encode(s) + EncodeByte(c)
  {
    if s == [] {
      assert s + [c] == [c];
    } else {
      assert (s + [c])[1..] == s[1..] + [c];
      EncodeSnoc(s[1..], c);
    }
  }

  method PercentEncode(s: Bytes) returns (out: Bytes)
    ensures out == Encode(s)
  {
    out := [];
    for i := 0 to |s|
      invariant out == Encode(s[..i])
    {
      assert s[..i + 1] == s[..i] + [s[i]];
      EncodeSnoc(s[..i], s[i]);
      var c := s[i];
      if Unreserved(c) {
        out := out + [c];
      } else {
        out := out + [PERCENT, Hex(c / 16), Hex(c % 16)];
      }
    }
    assert s[..|s|] == s;
  }

  /** Only unreserved bytes and triples `%HH` with upper-case digits (RFC 3986, section 2.1). */
  predicate Escaped(t: Bytes) {
    || t == []
    || (Unreserved(t[0]) && Escaped(t[1..]))
    || (t[0] == PERCENT && |t| >= 3 && UpperHex(t[1]) && UpperHex(t[2]) && Escaped(t[3..]))
  }

  function Decode(t: Bytes): Option<Bytes> {
    if t == [] then Some([])
    else if t[0] != PERCENT then
      match Decode(t[1..])
      case None => None
      case Some(r) => Some([t[0]] + r)
    else if |t| < 3 || !UpperHex(t[1]) || !UpperHex(t[2]) then None
    else
      match Decode(t[3..])
      case None => None
      case Some(r) => Some([(HexValue(t[1]) * 16 + HexValue(t[2])) as Byte] + r)
  }

  lemma HexRoundTrip(c: Byte)
    ensures UpperHex(Hex(c / 16)) && UpperHex(Hex(c % 16))
    ensures HexValue(Hex(c / 16)) * 16 + HexValue(Hex(c % 16)) == c
  {
    assert c == (c / 16) * 16 + c % 16;
  }

  lemma {:induction false} EncodeIsEscaped(s: Bytes)
    ensures Escaped(Encode(s))
    ensures AMP !in Encode(s) && EQ !in Encode(s)
  {
    if s != [] {
      EncodeIsEscaped(s[1..]);
      HexRoundTrip(s[0]);
      var head, rest := EncodeByte(s[0]), Encode(s[1..]);
      assert (head + rest)[|head|..] == rest;
    }
  }

  lemma {:induction false} DecodeEncode(s: Bytes)
    ensures Decode(Encode(s)) == Some(s)
  {
    if s != [] {
      DecodeEncode(s[1..]);
      HexRoundTrip(s[0]);
      var head, rest := EncodeByte(s[0]), Encode(s[1..]);
      assert (head + rest)[|head|..] == rest;
      assert [s[0]] + s[1..] == s;
    }
  }

  // ---- byte order ----

  predicate Less(a: Bytes, b: Bytes) {
    b != [] && (a == [] || a[0] < b[0] || (a[0] == b[0] && Less(a[1..], b[1..])))
  }

  lemma {:induction false} LessTrans(a: Bytes, b: Bytes, c: Bytes)
    requires Less(a, b) && Less(b, c)
    ensures Less(a, c)
  {
    if a != [] && a[0] == b[0] == c[0] { LessTrans(a[1..], b[1..], c[1..]); }
  }

  lemma {:induction false} LessTotal(a: Bytes, b: Bytes)
    ensures a == b || Less(a, b) || Less(b, a)
    ensures !(Less(a, b) && Less(b, a)) && !Less(a, a)
  {
    if a != [] {
      LessTotal(a[1..], a[1..]);
      if b != [] {
        LessTotal(a[1..], b[1..]);
        assert a == [a[0]] + a[1..] && b == [b[0]] + b[1..];
      }
    }
  }

  predicate Sorted(ks: seq<Bytes>) {
    forall i, j :: 0 <= i < j < |ks| ==> Less(ks[i], ks[j])
  }

  function Elems(ks: seq<Bytes>): set<Bytes> {
    set k | k in ks
  }

  /** A set has only one enumeration in order: the order keys are collected in does not matter. */
  lemma {:induction false} SortedIsUnique(a: seq<Bytes>, b: seq<Bytes>)
    requires Sorted(a) && Sorted(b) && Elems(a) == Elems(b)
    ensures a == b
  {
    if a == [] {
      NoElems(b);
    } else {
      assert a[0] in Elems(a);
      SameHead(a, b);
      SameTail(a, b);
      SortedIsUnique(a[1..], b[1..]);
      assert a == [a[0]] + a[1..] && b == [b[0]] + b[1..];
    }
  }

  lemma NoElems(ks: seq<Bytes>)
    ensures Elems(ks) == {} <==> ks == []
  {
    if ks != [] { assert ks[0] in Elems(ks); }
  }

  lemma SameHead(a: seq<Bytes>, b: seq<Bytes>)
    requires Sorted(a) && Sorted(b) && Elems(a) == Elems(b) && a != [] && b != []
    ensures a[0] == b[0]
  {
    assert a[0] in Elems(b) && b[0] in Elems(a);
    var i :| 0 <= i < |b| && b[i] == a[0];
    var j :| 0 <= j < |a| && a[j] == b[0];
    LessTotal(a[0], b[0]);
  }

  lemma SameTail(a: seq<Bytes>, b: seq<Bytes>)
    requires Sorted(a) && Sorted(b) && Elems(a) == Elems(b) && a != [] && b != [] && a[0] == b[0]
    ensures Elems(a[1..]) == Elems(b[1..]) && Sorted(a[1..]) && Sorted(b[1..])
  {
    TailElems(a);
    TailElems(b);
  }

  lemma TailElems(a: seq<Bytes>)
    requires Sorted(a) && a != []
    ensures Elems(a[1..]) == Elems(a) - {a[0]}
  {
    forall k | k in Elems(a[1..]) ensures k in Elems(a) && k != a[0] {
      var i :| 0 <= i < |a| - 1 && a[1..][i] == k;
      assert Less(a[0], a[i + 1]);
      LessTotal(a[0], a[0]);
    }
    forall k | k in Elems(a) && k != a[0] ensures k in Elems(a[1..]) {
      var i :| 0 <= i < |a| && a[i] == k;
      assert a[1..][i - 1] == k;
    }
  }

  // ---- sorting ----

  function Insert(ks: seq<Bytes>, k: Bytes): seq<Bytes> {
    if ks == [] then [k]
    else if Less(k, ks[0]) then [k] + ks
    else [ks[0]] + Insert(ks[1..], k)
  }

  lemma {:induction false} InsertSorts(ks: seq<Bytes>, k: Bytes)
    requires Sorted(ks) && k !in ks
    ensures Sorted(Insert(ks, k)) && Elems(Insert(ks, k)) == Elems(ks) + {k}
  {
    if ks == [] {
    } else if Less(k, ks[0]) {
      forall j | 0 <= j < |ks| ensures Less(k, ks[j]) {
        if j > 0 { LessTrans(k, ks[0], ks[j]); }
      }
      assert Elems([k] + ks) == Elems(ks) + {k};
    } else {
      LessTotal(k, ks[0]);
      InsertSorts(ks[1..], k);
      var rest := Insert(ks[1..], k);
      TailElems(ks);
      forall j | 0 <= j < |rest| ensures Less(ks[0], rest[j]) {
        assert rest[j] in Elems(rest);
        if rest[j] != k {
          var i :| 0 <= i < |ks| - 1 && ks[1..][i] == rest[j];
          assert Less(ks[0], ks[i + 1]);
        }
      }
      assert Elems([ks[0]] + rest) == {ks[0]} + Elems(rest);
      assert ks[0] in Elems(ks);
    }
  }

  function Sort(ks: seq<Bytes>): seq<Bytes> {
    if ks == [] then [] else Insert(Sort(ks[1..]), ks[0])
  }

  predicate Distinct(ks: seq<Bytes>) {
    forall i, j :: 0 <= i < j < |ks| ==> ks[i] != ks[j]
  }

  lemma {:induction false} SortSorts(ks: seq<Bytes>)
    requires Distinct(ks)
    ensures Sorted(Sort(ks)) && Elems(Sort(ks)) == Elems(ks)
  {
    if ks != [] {
      SortSorts(ks[1..]);
      assert forall j :: 0 <= j < |ks[1..]| ==> ks[1..][j] == ks[j + 1];
      assert ks[0] !in Elems(Sort(ks[1..]));
      InsertSorts(Sort(ks[1..]), ks[0]);
      assert ks == [ks[0]] + ks[1..];
    }
  }

  // ---- the query ----

  function Part(k: Bytes, v: Bytes): Bytes {
    Encode(k) + [EQ] + Encode(v)
  }

  function Parts(ks: seq<Bytes>, m: map<Bytes, Bytes>): seq<Bytes>
    requires forall k :: k in ks ==> k in m
  {
    if ks == [] then [] else [Part(ks[0], m[ks[0]])] + Parts(ks[1..], m)
  }

  function Join(ps: seq<Bytes>): Bytes {
    if ps == [] then []
    else if |ps| == 1 then ps[0]
    else ps[0] + [AMP] + Join(ps[1..])
  }

  /** A query for the map: its entries in key order. */
  ghost predicate IsQuery(q: Bytes, m: map<Bytes, Bytes>) {
    exists ks :: Sorted(ks) && Elems(ks) == m.Keys && q == QueryOf(ks, m)
  }

  function QueryOf(ks: seq<Bytes>, m: map<Bytes, Bytes>): Bytes
    requires Elems(ks) == m.Keys
  {
    assert forall k :: k in ks ==> k in Elems(ks);
    Join(Parts(ks, m))
  }

  /** Every map has exactly one query. */
  lemma QueryIsUnique(q: Bytes, q': Bytes, m: map<Bytes, Bytes>)
    requires IsQuery(q, m) && IsQuery(q', m)
    ensures q == q'
  {
    var ks :| Sorted(ks) && Elems(ks) == m.Keys && q == QueryOf(ks, m);
    var ks' :| Sorted(ks') && Elems(ks') == m.Keys && q' == QueryOf(ks', m);
    SortedIsUnique(ks, ks');
  }

  lemma {:induction false} PartsSnoc(ks: seq<Bytes>, k: Bytes, m: map<Bytes, Bytes>)
    requires k in m && forall x :: x in ks ==> x in m
    ensures Parts(ks + [k], m) == Parts(ks, m) + [Part(k, m[k])]
  {
    if ks == [] {
      assert ks + [k] == [k];
    } else {
      assert (ks + [k])[1..] == ks[1..] + [k];
      PartsSnoc(ks[1..], k, m);
    }
  }

  method CollectKeys(m: map<Bytes, Bytes>) returns (keys: seq<Bytes>)
    ensures Distinct(keys) && Elems(keys) == m.Keys
  {
    keys := [];
    var rest := m.Keys;
    while rest != {}
      invariant Distinct(keys) && Elems(keys) !! rest && Elems(keys) + rest == m.Keys
      decreases |rest|
    {
      var k :| k in rest;
      assert k !in keys by {
        assert k !in Elems(keys);
      }
      assert Elems(keys + [k]) == Elems(keys) + {k};
      keys := keys + [k];
      rest := rest - {k};
    }
  }

  method EncodeParts(keys: seq<Bytes>, m: map<Bytes, Bytes>) returns (parts: seq<Bytes>)
    requires forall k :: k in keys ==> k in m
    ensures parts == Parts(keys, m)
  {
    parts := [];
    for i := 0 to |keys|
      invariant parts == Parts(keys[..i], m)
    {
      assert keys[..i + 1] == keys[..i] + [keys[i]];
      PartsSnoc(keys[..i], keys[i], m);
      var k := PercentEncode(keys[i]);
      var v := PercentEncode(m[keys[i]]);
      parts := parts + [k + [EQ] + v];
    }
    assert keys[..|keys|] == keys;
  }

  method Canonical(m: map<Bytes, Bytes>) returns (q: Bytes)
    ensures IsQuery(q, m)
  {
    var keys := CollectKeys(m);
    SortSorts(keys);
    keys := Sort(keys);
    assert forall k :: k in keys ==> k in Elems(keys);
    var parts := EncodeParts(keys, m);
    q := Join(parts);
    assert q == QueryOf(keys, m);
  }

  // ---- decoding ----

  function CutLen(s: Bytes, c: Byte): (n: nat)
    ensures n <= |s| && (n < |s| ==> s[n] == c)
  {
    if s == [] || s[0] == c then 0 else 1 + CutLen(s[1..], c)
  }

  lemma {:induction false} CutAt(a: Bytes, c: Byte, b: Bytes)
    requires c !in a
    ensures CutLen(a + [c] + b, c) == |a| && CutLen(a, c) == |a|
  {
    if a == [] {
      assert a + [c] + b == [c] + b;
    } else {
      assert (a + [c] + b)[1..] == a[1..] + [c] + b;
      CutAt(a[1..], c, b);
    }
  }

  function Split(s: Bytes): seq<Bytes> {
    var n := CutLen(s, AMP);
    if n == |s| then [s] else [s[..n]] + Split(s[n + 1..])
  }

  predicate NoAmp(ps: seq<Bytes>) {
    forall i :: 0 <= i < |ps| ==> AMP !in ps[i]
  }

  lemma SplitCons(p: Bytes, s: Bytes)
    requires AMP !in p
    ensures Split(p + [AMP] + s) == [p] + Split(s)
    ensures Split(p) == [p]
  {
    var t := p + [AMP] + s;
    CutAt(p, AMP, s);
    assert t[..|p|] == p && t[|p| + 1..] == s;
  }

  lemma {:induction false} SplitJoin(ps: seq<Bytes>)
    requires ps != [] && NoAmp(ps)
    ensures Split(Join(ps)) == ps
  {
    if |ps| == 1 {
      SplitCons(ps[0], []);
    } else {
      SplitJoin(ps[1..]);
      SplitCons(ps[0], Join(ps[1..]));
      assert ps == [ps[0]] + ps[1..];
    }
  }

  function DecodePart(p: Bytes): Option<(Bytes, Bytes)> {
    var n := CutLen(p, EQ);
    if n == |p| then None
    else
      var k, v := Decode(p[..n]), Decode(p[n + 1..]);
      if k.None? || v.None? then None else Some((k.value, v.value))
  }

  function DecodeParts(ps: seq<Bytes>): Option<map<Bytes, Bytes>> {
    if ps == [] then Some(map[])
    else
      var p, rest := DecodePart(ps[0]), DecodeParts(ps[1..]);
      if p.None? || rest.None? then None else Some(rest.value[p.value.0 := p.value.1])
  }

  function DecodeQuery(q: Bytes): Option<map<Bytes, Bytes>> {
    if q == [] then Some(map[]) else DecodeParts(Split(q))
  }

  lemma PartDecodes(k: Bytes, v: Bytes)
    ensures DecodePart(Part(k, v)) == Some((k, v)) && AMP !in Part(k, v)
  {
    EncodeIsEscaped(k);
    EncodeIsEscaped(v);
    DecodeEncode(k);
    DecodeEncode(v);
    CutAt(Encode(k), EQ, Encode(v));
    var p := Part(k, v);
    assert p[..|Encode(k)|] == Encode(k) && p[|Encode(k)| + 1..] == Encode(v);
  }

  function Restrict(ks: seq<Bytes>, m: map<Bytes, Bytes>): map<Bytes, Bytes>
    requires forall k :: k in ks ==> k in m
  {
    map k | k in ks :: m[k]
  }

  lemma RestrictCons(ks: seq<Bytes>, m: map<Bytes, Bytes>)
    requires ks != [] && forall k :: k in ks ==> k in m
    ensures Restrict(ks[1..], m)[ks[0] := m[ks[0]]] == Restrict(ks, m)
  {
    assert ks == [ks[0]] + ks[1..];
  }

  lemma {:induction false} PartsDecode(ks: seq<Bytes>, m: map<Bytes, Bytes>)
    requires forall k :: k in ks ==> k in m
    ensures DecodeParts(Parts(ks, m)) == Some(Restrict(ks, m))
  {
    if ks != [] {
      PartsDecode(ks[1..], m);
      PartDecodes(ks[0], m[ks[0]]);
      assert Parts(ks, m)[1..] == Parts(ks[1..], m);
      RestrictCons(ks, m);
    }
  }

  lemma {:induction false} PartsHaveNoAmp(ks: seq<Bytes>, m: map<Bytes, Bytes>)
    requires forall k :: k in ks ==> k in m
    ensures NoAmp(Parts(ks, m)) && |Parts(ks, m)| == |ks|
  {
    if ks != [] {
      PartsHaveNoAmp(ks[1..], m);
      PartDecodes(ks[0], m[ks[0]]);
    }
  }

  lemma QueryParts(q: Bytes, m: map<Bytes, Bytes>) returns (ps: seq<Bytes>)
    requires IsQuery(q, m)
    ensures q == Join(ps) && NoAmp(ps) && DecodeParts(ps) == Some(m)
    ensures ps == [] <==> m.Keys == {}
    ensures ps != [] ==> ps[0] != []
  {
    var ks :| Sorted(ks) && Elems(ks) == m.Keys && q == QueryOf(ks, m);
    assert forall k :: k in ks <==> k in Elems(ks);
    NoElems(ks);
    PartsDecode(ks, m);
    PartsHaveNoAmp(ks, m);
    assert Restrict(ks, m) == m;
    ps := Parts(ks, m);
  }

  /** The query decodes back to the map it was built from. */
  lemma QueryDecodes(q: Bytes, m: map<Bytes, Bytes>)
    requires IsQuery(q, m)
    ensures DecodeQuery(q) == Some(m)
  {
    var ps := QueryParts(q, m);
    if ps == [] {
      assert m == map[];
    } else {
      SplitJoin(ps);
    }
  }

  // ---- the string to sign and the form ----

  const POST: Bytes := [80, 79, 83, 84, AMP, PERCENT, 50, 70, AMP]

  function StringToSign(q: Bytes): Bytes {
    POST + Encode(q)
  }

  /** Two requests are signed alike only if they carry the same parameters. */
  lemma SigningIsInjective(q: Bytes, q': Bytes, m: map<Bytes, Bytes>, m': map<Bytes, Bytes>)
    requires IsQuery(q, m) && IsQuery(q', m')
    ensures StringToSign(q) == StringToSign(q') <==> m == m'
  {
    QueryDecodes(q, m);
    QueryDecodes(q', m');
    DecodeEncode(q);
    DecodeEncode(q');
    if StringToSign(q) == StringToSign(q') {
      assert StringToSign(q)[|POST|..] == Encode(q) && StringToSign(q')[|POST|..] == Encode(q');
    }
    if m == m' { QueryIsUnique(q, q', m); }
  }

  const SIGNATURE: Bytes := [83, 105, 103, 110, 97, 116, 117, 114, 101]

  /** The body that is posted. */
  function Form(q: Bytes, signature: Bytes): Bytes {
    q + [AMP] + SIGNATURE + [EQ] + Encode(signature)
  }

  lemma {:induction false} JoinSnoc(ps: seq<Bytes>, p: Bytes)
    requires ps != []
    ensures Join(ps + [p]) == Join(ps) + [AMP] + p
  {
    if |ps| == 1 {
      assert (ps + [p])[1..] == [p];
    } else {
      assert (ps + [p])[1..] == ps[1..] + [p];
      JoinSnoc(ps[1..], p);
      assert ps[0] + [AMP] + (Join(ps[1..]) + [AMP] + p) == ps[0] + [AMP] + Join(ps[1..]) + [AMP] + p;
    }
  }

  lemma UpdatesCommute(m: map<Bytes, Bytes>, a: (Bytes, Bytes), b: (Bytes, Bytes))
    requires a.0 != b.0
    ensures m[a.0 := a.1][b.0 := b.1] == m[b.0 := b.1][a.0 := a.1]
  {
  }

  lemma {:induction false} DecodeSnoc(ps: seq<Bytes>, p: Bytes)
    requires DecodePart(p).Some? && DecodeParts(ps).Some?
    requires DecodePart(p).value.0 !in DecodeParts(ps).value
    ensures DecodeParts(ps + [p]) == Some(DecodeParts(ps).value[DecodePart(p).value.0 := DecodePart(p).value.1])
  {
    if ps == [] {
      assert ps + [p] == [p];
    } else {
      assert (ps + [p])[1..] == ps[1..] + [p];
      DecodeSnoc(ps[1..], p);
      UpdatesCommute(DecodeParts(ps[1..]).value, DecodePart(ps[0]).value, DecodePart(p).value);
    }
  }

  lemma SignatureName()
    ensures Encode(SIGNATURE) == SIGNATURE
  {
    EncodePlain(SIGNATURE);
  }

  lemma {:induction false} EncodePlain(s: Bytes)
    requires forall i :: 0 <= i < |s| ==> Unreserved(s[i])
    ensures Encode(s) == s
  {
    if s != [] { EncodePlain(s[1..]); }
  }

  /** The posted form decodes to the parameters and the signature. */
  lemma FormDecodes(q: Bytes, m: map<Bytes, Bytes>, signature: Bytes)
    requires IsQuery(q, m) && m != map[] && SIGNATURE !in m
    ensures DecodeQuery(Form(q, signature)) == Some(m[SIGNATURE := signature])
  {
    var ps := QueryParts(q, m);
    assert m.Keys != {};
    SignatureName();
    PartDecodes(SIGNATURE, signature);
    FormOfParts(ps, m, Part(SIGNATURE, signature), SIGNATURE, signature);
    FormText(q, SIGNATURE, Encode(signature));
  }

  lemma FormText(q: Bytes, name: Bytes, value: Bytes)
    ensures q + [AMP] + name + [EQ] + value == q + [AMP] + (name + [EQ] + value)
  {
  }

  lemma FormOfParts(ps: seq<Bytes>, m: map<Bytes, Bytes>, p: Bytes, name: Bytes, value: Bytes)
    requires ps != [] && DecodeParts(ps) == Some(m) && DecodePart(p) == Some((name, value))
    requires name !in m && AMP !in p && NoAmp(ps)
    ensures DecodeQuery(Join(ps) + [AMP] + p) == Some(m[name := value])
  {
    JoinSnoc(ps, p);
    SplitJoin(ps + [p]);
    DecodeSnoc(ps, p);
  }
}
