/**
  Making room for a new key (internal/auth/ratelimit.go:44-62): passes over the
  map, in any order, until it is below its cap or a pass finds no victim.
*/
module Eviction {
  import opened FailureLog

  const MAX_KEYS: nat := 4096

  function LastTime(fails: Times, key: Key): int {
    var ts := Of(fails, key);
    if |ts| > 0 then ts[|ts| - 1] else 0
  }

  /** The range loop of evictIfNeeded over the keys in `order`; "" stands for no victim yet. */
  function Scan(order: seq<Key>, fails: Times): (Key, int) {
    if order == [] then ("", 0)
    else
      var (victim, oldest) := Scan(order[..|order| - 1], fails);
      var k := order[|order| - 1];
      if victim == "" || LastTime(fails, k) < oldest then (k, LastTime(fails, k)) else (victim, oldest)
  }

  /** `order` lists the tracked keys, each once: what one range loop over the map does. */
  ghost predicate Enumerates(order: seq<Key>, fails: Times) {
    && (forall k {:trigger k in order} :: k in order <==> k in fails)
    && Distinct(order)
  }

  predicate Distinct(order: seq<Key>) {
    forall i, j :: 0 <= i < j < |order| ==> order[i] != order[j]
  }

  /** Some order of visiting the tracked keys ends the scan with this victim. */
  ghost predicate ScannedTo(fails: Times, victim: Key) {
    exists order :: Enumerates(order, fails) && Scan(order, fails).0 == victim
  }

  predicate NotLater(fails: Times, g: Key, k: Key) {
    LastTime(fails, g) <= LastTime(fails, k)
  }

  predicate Least(fails: Times, victim: Key) {
    victim in fails && forall k {:trigger NotLater(fails, victim, k)} :: k in fails ==> NotLater(fails, victim, k)
  }

  predicate EmptyKeyIsOldest(fails: Times) {
    "" in fails && forall k {:trigger NotLater(fails, k, "")} :: k in fails && k != "" ==> !NotLater(fails, k, "")
  }

  /** As long as the empty key is not strictly older than all the others seen, the scan keeps the minimum. */
  lemma {:induction false} ScanInvariant(order: seq<Key>, fails: Times, w: Key)
    requires w != "" && ("" in order ==> LastTime(fails, w) <= LastTime(fails, ""))
    ensures Scan(order, fails).0 != "" ==>
              Scan(order, fails).0 in order && Scan(order, fails).1 == LastTime(fails, Scan(order, fails).0)
    ensures w in order ==> Scan(order, fails).0 != "" && Scan(order, fails).1 <= LastTime(fails, w)
  {
    if order != [] {
      var init, k := order[..|order| - 1], order[|order| - 1];
      assert order == init + [k];
      ScanInvariant(init, fails, w);
    }
  }

  lemma ScanFindsLeast(order: seq<Key>, fails: Times)
    requires fails != map[] && Enumerates(order, fails) && !EmptyKeyIsOldest(fails)
    ensures Scan(order, fails).0 != "" && Least(fails, Scan(order, fails).0)
  {
    var w := LeastKey(fails, fails.Keys);
    if w == "" {
      var k :| k in fails && k != "" && LastTime(fails, k) <= LastTime(fails, "");
      w := k;
    }
    ScanInvariant(order, fails, w);
  }

  lemma {:induction false} LeastKey(fails: Times, keys: set<Key>) returns (w: Key)
    requires keys != {}
    ensures w in keys && forall k :: k in keys ==> LastTime(fails, w) <= LastTime(fails, k)
  {
    var k :| k in keys;
    w := k;
    if keys != {k} {
      assert keys - {k} != {} by { assert keys == (keys - {k}) + {k}; }
      var v := LeastKey(fails, keys - {k});
      if LastTime(fails, v) < LastTime(fails, k) { w := v; }
    }
  }

  lemma {:induction false} SomeOrder(keys: set<Key>) returns (order: seq<Key>)
    ensures forall k :: k in order <==> k in keys
    ensures Distinct(order)
  {
    if keys == {} {
      order := [];
    } else {
      var k :| k in keys;
      var rest := SomeOrder(keys - {k});
      order := rest + [k];
    }
  }

  /**
    When the loop evicts what its comment says, whatever order the map is
    visited in: exactly when the empty key is not tracked as the strictly
    oldest. Otherwise some order ends with "" and evicts nothing.
  */
  lemma EvictionIsLeastIff(fails: Times)
    requires fails != map[]
    ensures (forall order :: Enumerates(order, fails) ==>
               Scan(order, fails).0 != "" && Least(fails, Scan(order, fails).0))
            <==> !EmptyKeyIsOldest(fails)
  {
    if !EmptyKeyIsOldest(fails) {
      forall order | Enumerates(order, fails)
        ensures Scan(order, fails).0 != "" && Least(fails, Scan(order, fails).0)
      {
        ScanFindsLeast(order, fails);
      }
    } else {
      var order := BadOrder(fails);
    }
  }

  /** Any key at all if the empty key is strictly the oldest, otherwise a least key. */
  ghost predicate CanEnd(fails: Times, victim: Key) {
    if EmptyKeyIsOldest(fails) then victim in fails else victim != "" && Least(fails, victim)
  }

  /** Which keys a pass can end with, over all orders the map may be visited in; "" is no victim. */
  lemma PassEndsIff(fails: Times, victim: Key)
    requires fails != map[]
    ensures ScannedTo(fails, victim) <==> CanEnd(fails, victim)
  {
    if ScannedTo(fails, victim) {
      var order :| Enumerates(order, fails) && Scan(order, fails).0 == victim;
      if EmptyKeyIsOldest(fails) { ScanMember(order, fails); } else { ScanFindsLeast(order, fails); }
    }
    if CanEnd(fails, victim) {
      var order;
      if !EmptyKeyIsOldest(fails) {
        order := LeastFirst(fails, victim);
      } else if victim == "" {
        order := BadOrder(fails);
      } else {
        order := EmptyBefore(fails, victim);
      }
    }
  }

  lemma LeastFirst(fails: Times, victim: Key) returns (order: seq<Key>)
    requires victim != "" && Least(fails, victim)
    ensures Enumerates(order, fails) && Scan(order, fails).0 == victim
  {
    var others := SomeOrder(fails.Keys - {victim});
    order := [victim] + others;
    assert [victim][..0] == [] && Scan([victim], fails) == (victim, LastTime(fails, victim));
    ScanStays([victim], others, fails, victim);
    assert forall k :: k in order <==> k == victim || k in others;
  }

  lemma {:induction false} ScanStays(order: seq<Key>, rest: seq<Key>, fails: Times, victim: Key)
    requires Scan(order, fails) == (victim, LastTime(fails, victim)) && victim != ""
    requires forall k :: k in rest ==> NotLater(fails, victim, k)
    ensures Scan(order + rest, fails) == (victim, LastTime(fails, victim))
  {
    if rest == [] {
      assert order + rest == order;
    } else {
      var init, k := rest[..|rest| - 1], rest[|rest| - 1];
      assert (order + rest)[..|order + rest| - 1] == order + init;
      assert k in rest && NotLater(fails, victim, k);
      ScanStays(order, init, fails, victim);
    }
  }

  /** Visited after keys that all failed later, the empty key takes their place. */
  lemma EmptyTakesOver(others: seq<Key>, fails: Times)
    requires "" !in others && forall k :: k in others ==> !NotLater(fails, k, "")
    ensures Scan(others + [""], fails) == ("", LastTime(fails, ""))
  {
    assert (others + [""])[..|others|] == others;
    if others != [] {
      ScanWithoutEmpty(others, fails);
    }
  }

  lemma EnumeratesSnoc(order: seq<Key>, fails: Times, k: Key)
    requires k in fails && Enumerates(order, fails - {k})
    ensures Enumerates(order + [k], fails)
  {
    assert forall x {:trigger x in order + [k]} :: x in order + [k] <==> x in order || x == k;
    forall i | 0 <= i < |order| ensures order[i] != k {
      assert order[i] in order;
    }
  }

  /** The key visited after the empty key takes its place, whatever it is. */
  lemma EmptyBefore(fails: Times, victim: Key) returns (order: seq<Key>)
    requires EmptyKeyIsOldest(fails) && victim in fails && victim != ""
    ensures Enumerates(order, fails) && Scan(order, fails).0 == victim
  {
    var others := SomeOrder(fails.Keys - {"", victim});
    assert Enumerates(others, (fails - {victim}) - {""});
    EnumeratesSnoc(others, fails - {victim}, "");
    EnumeratesSnoc(others + [""], fails, victim);
    EmptyTakesOver(others, fails);
    order := others + [""] + [victim];
    assert order[..|others| + 1] == others + [""];
  }

  lemma {:induction false} ScanMember(order: seq<Key>, fails: Times)
    ensures Scan(order, fails).0 != "" ==> Scan(order, fails).0 in order
  {
    if order != [] {
      ScanMember(order[..|order| - 1], fails);
    }
  }

  lemma BadOrder(fails: Times) returns (order: seq<Key>)
    requires EmptyKeyIsOldest(fails)
    ensures Enumerates(order, fails) && Scan(order, fails).0 == ""
  {
    var others := SomeOrder(fails.Keys - {""});
    assert Enumerates(others, fails - {""});
    EnumeratesSnoc(others, fails, "");
    EmptyTakesOver(others, fails);
    order := others + [""];
  }

  lemma {:induction false} ScanWithoutEmpty(order: seq<Key>, fails: Times)
    requires order != [] && "" !in order
    ensures Scan(order, fails).0 in order && Scan(order, fails).1 == LastTime(fails, Scan(order, fails).0)
  {
    var init, k := order[..|order| - 1], order[|order| - 1];
    if init != [] {
      ScanWithoutEmpty(init, fails);
    }
  }

  // ---- the eviction loop ----

  /** All of `gone` last failed no later than anything kept. */
  ghost predicate OldestGone(fails: Times, gone: set<Key>) {
    gone <= fails.Keys &&
    forall g: Key, k: Key {:trigger NotLater(fails, g, k)} ::
      g in gone && k in fails && k !in gone ==> NotLater(fails, g, k)
  }

  lemma SmallerCount(fails: Times, victim: Key)
    ensures victim in fails ==> |fails - {victim}| == |fails| - 1
  {
    assert (fails - {victim}).Keys == fails.Keys - {victim};
  }

  ghost predicate Victim(fails: Times, victim: Key): (b: bool)
    ensures b ==> |fails - {victim}| < |fails|
  {
    SmallerCount(fails, victim);
    |fails| >= MAX_KEYS && victim != "" && CanEnd(fails, victim)
  }

  /** Below the cap, or a pass can find no victim. */
  ghost predicate Stops(fails: Times) {
    |fails| < MAX_KEYS || CanEnd(fails, "")
  }

  /** What the loop may leave: each pass over what is there finds the next victim. */
  ghost predicate Evicts(fails: Times, left: Times)
    decreases |fails|
  {
    || (left == fails && Stops(fails))
    || (exists victim :: Victim(fails, victim) && Evicts(fails - {victim}, left))
  }

  lemma MinusTwice(m: Times, k: Key, gone: set<Key>)
    ensures (m - {k}) - gone == m - (gone + {k})
    ensures (m - gone) - {k} == m - (gone + {k})
  {
  }

  /** Evicting a least key first keeps the evicted keys the oldest ones. */
  lemma OldestFirst(fails: Times, victim: Key, gone: set<Key>)
    requires Least(fails, victim) && OldestGone(fails - {victim}, gone)
    ensures OldestGone(fails, gone + {victim})
  {
    var rest := fails - {victim};
    forall g: Key, k: Key | g in gone + {victim} && k in fails && k !in gone + {victim}
      ensures NotLater(fails, g, k)
    {
      assert k in rest && Of(rest, k) == Of(fails, k);
      if g != victim {
        assert NotLater(rest, g, k) && Of(rest, g) == Of(fails, g);
      }
    }
  }

  /** The keys gone, how many, and, without an empty key, that they failed longest ago. */
  ghost predicate Evicted(fails: Times, left: Times, gone: set<Key>) {
    && left == fails - gone && gone <= fails.Keys
    && |left| == |fails| - |gone|
    && (|fails| < MAX_KEYS ==> gone == {})
    && (|fails| >= MAX_KEYS ==> |left| >= MAX_KEYS - 1)
    && ("" !in fails ==> OldestGone(fails, gone) && |left| < MAX_KEYS)
  }

  lemma EvictedNone(fails: Times)
    requires Stops(fails)
    ensures Evicted(fails, fails, {})
  {
    assert fails - {} == fails;
  }

  lemma EvictedFirst(fails: Times, victim: Key, left: Times, gone: set<Key>)
    requires Victim(fails, victim) && Evicted(fails - {victim}, left, gone)
    ensures Evicted(fails, left, gone + {victim})
  {
    MinusTwice(fails, victim, gone);
    SmallerCount(fails, victim);
    assert victim !in gone;
    assert |gone + {victim}| == |gone| + 1;
    if "" !in fails {
      OldestFirst(fails, victim, gone);
    }
  }

  /** What the loop leaves lacks only victims, and as many as there had to be. */
  lemma {:induction false} EvictsFacts(fails: Times, left: Times) returns (gone: set<Key>)
    requires Evicts(fails, left)
    ensures Evicted(fails, left, gone)
    decreases |fails|
  {
    if left == fails && Stops(fails) {
      gone := {};
      EvictedNone(fails);
    } else {
      var victim :| Victim(fails, victim) && Evicts(fails - {victim}, left);
      gone := EvictsFacts(fails - {victim}, left);
      EvictedFirst(fails, victim, left, gone);
      gone := gone + {victim};
    }
  }

  // ---- a failure ----

  /** The keys a failure may evict from the pruned table `kept`. */
  ghost predicate MakesRoom(kept: Times, key: Key, gone: set<Key>) {
    gone <= kept.Keys && if key in kept then gone == {} else Evicts(kept, kept - gone)
  }

  /** Without an empty key a failure evicts only keys that failed longest ago, and the table stays within its cap. */
  lemma FailKeepsCap(fails: Times, key: Key, now: int, cut: int, gone: set<Key>)
    requires "" !in fails && MakesRoom(PruneKey(fails, key, cut), key, gone)
    ensures OldestGone(PruneKey(fails, key, cut), gone)
    ensures key != "" && |fails| <= MAX_KEYS ==>
              var after := FailKey(fails, key, now, cut, gone);
              |after| <= MAX_KEYS && "" !in after
  {
    var kept := PruneKey(fails, key, cut);
    PruneSize(fails, key, cut);
    RoomSize(kept, key, gone);
    PushSize(kept - gone, key, now);
  }

  lemma RoomSize(kept: Times, key: Key, gone: set<Key>)
    requires "" !in kept && MakesRoom(kept, key, gone)
    ensures OldestGone(kept, gone)
    ensures if key in kept then kept - gone == kept else |kept - gone| < MAX_KEYS
  {
    if key in kept {
      assert kept - {} == kept;
    } else {
      var g := EvictsFacts(kept, kept - gone);
      SameGone(kept, g, gone);
    }
  }

  lemma SameGone(m: Times, a: set<Key>, b: set<Key>)
    requires a <= m.Keys && b <= m.Keys && m - a == m - b
    ensures a == b
  {
    assert (m - a).Keys == m.Keys - a && (m - b).Keys == m.Keys - b;
    forall k | k in m.Keys
      ensures k in a <==> k in b
    {
      assert k in a <==> k !in m - a;
    }
  }

  lemma PruneSize(fails: Times, key: Key, cut: int)
    ensures PruneKey(fails, key, cut).Keys <= fails.Keys
    ensures |PruneKey(fails, key, cut)| <= |fails|
  {
    var t := PruneKey(fails, key, cut);
    assert t.Keys <= fails.Keys;
    Subset(t.Keys, fails.Keys);
  }

  lemma {:induction false} Subset<T>(a: set<T>, b: set<T>)
    requires a <= b
    ensures |a| <= |b|
  {
    if a != {} {
      var x :| x in a;
      Subset(a - {x}, b - {x});
    }
  }

  lemma PushSize(left: Times, key: Key, now: int)
    ensures |Push(left, key, now)| == if key in left then |left| else |left| + 1
    ensures Push(left, key, now).Keys == left.Keys + {key}
  {
    var t := Push(left, key, now);
    assert t.Keys == left.Keys + {key};
    if key in left { assert t.Keys == left.Keys; }
  }

  // ---- the same about the failures themselves ----

  /** As the limiter keeps them: no empty list, and each list in order. */
  predicate InOrderTable(fails: Times) {
    forall k :: k in fails ==> fails[k] != [] && Sorted(fails[k])
  }

  /** Some failure of k is no earlier than any of g. */
  predicate FailedLaterThan(fails: Times, k: Key, g: Key)
    requires k in fails && g in fails
  {
    exists j :: 0 <= j < |fails[k]| && forall i :: 0 <= i < |fails[g]| ==> fails[g][i] <= fails[k][j]
  }

  lemma LastIsLatest(ts: seq<int>, i: nat)
    requires Sorted(ts) && i < |ts|
    ensures ts[i] <= ts[|ts| - 1]
  {
    if i < |ts| - 1 { assert InOrder(ts, i, |ts| - 1); }
  }

  /** What the comparison of last entries means. */
  lemma NotLaterMeans(fails: Times, g: Key, k: Key)
    requires InOrderTable(fails) && g in fails && k in fails
    ensures NotLater(fails, g, k) <==> FailedLaterThan(fails, k, g)
  {
    var a, b := fails[g], fails[k];
    forall i | 0 <= i < |a|
      ensures a[i] <= a[|a| - 1]
    {
      LastIsLatest(a, i);
    }
    forall j | 0 <= j < |b|
      ensures b[j] <= b[|b| - 1]
    {
      LastIsLatest(b, j);
    }
    if NotLater(fails, g, k) {
      assert forall i :: 0 <= i < |a| ==> a[i] <= b[|b| - 1];
    }
  }

  /**
    Without an empty key a pass over the map, in any order, ends with a key no
    failure of which is later than all failures of another: the one that failed
    least recently.
  */
  lemma VictimFailedFirst(fails: Times, victim: Key, k: Key)
    requires InOrderTable(fails) && "" !in fails && ScannedTo(fails, victim) && k in fails
    ensures victim in fails
    ensures FailedLaterThan(fails, k, victim)
  {
    PassEndsIff(fails, victim);
    assert NotLater(fails, victim, k);
    NotLaterMeans(fails, victim, k);
  }

  /** And so do all the keys a failure of a new key evicts, compared with those that stay. */
  lemma GoneFailedFirst(fails: Times, gone: set<Key>, g: Key, k: Key)
    requires InOrderTable(fails) && "" !in fails && gone <= fails.Keys && Evicts(fails, fails - gone)
    requires g in gone && k in fails && k !in gone
    ensures FailedLaterThan(fails, k, g)
  {
    var g' := EvictsFacts(fails, fails - gone);
    SameGone(fails, g', gone);
    assert NotLater(fails, g, k);
    NotLaterMeans(fails, g, k);
  }

  /** A failure evicts only keys that failed least recently, from any table that goes with its log. */
  lemma FailEvictsFirst(fails: Times, log: Times, now: int, window: nat, key: Key, gone: set<Key>, g: Key, k: Key)
    requires Refines(fails, log, now, window) && "" !in fails
    requires var kept := PruneKey(fails, key, now - window);
             MakesRoom(kept, key, gone) && g in gone && k in kept && k !in gone
    ensures var kept := PruneKey(fails, key, now - window);
            g in kept && FailedLaterThan(kept, k, g)
  {
    var kept := PruneKey(fails, key, now - window);
    PruneRefines(fails, log, now, window, key);
    RefinesInOrder(kept, log, now, window);
    PruneSize(fails, key, now - window);
    assert key !in kept && "" !in kept;
    GoneFailedFirst(kept, gone, g, k);
  }

  /** The table of a limiter is of that kind. */
  lemma RefinesInOrder(fails: Times, log: Times, clock: int, window: nat)
    requires Refines(fails, log, clock, window)
    ensures InOrderTable(fails)
  {
    forall k | k in fails
      ensures fails[k] != [] && Sorted(fails[k])
    {
      assert KeyOk(fails, log, clock, window, k);
    }
  }
}
