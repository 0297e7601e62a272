/**
  The failures the login limiter keeps (internal/auth/ratelimit.go:27-98) against
  an unpruned log of them. Times are whole seconds; `window` is the window in
  seconds.
*/
module FailureLog {
  type Key = string

  type Times = map<Key, seq<int>>

  function Of(m: Times, key: Key): seq<int> {
    if key in m then m[key] else []
  }

  /** The entries after `cut`, in order. */
  function Pruned(ts: seq<int>, cut: int): seq<int> {
    if ts == [] then []
    else (if ts[0] > cut then [ts[0]] else []) + Pruned(ts[1..], cut)
  }

  predicate Sorted(ts: seq<int>) {
    forall i, j :: 0 <= i < j < |ts| ==> InOrder(ts, i, j)
  }

  predicate InOrder(ts: seq<int>, i: nat, j: nat)
    requires i < j < |ts|
  {
    ts[i] <= ts[j]
  }

  lemma SortedTail(ts: seq<int>)
    requires Sorted(ts) && ts != []
    ensures Sorted(ts[1..]) && forall t :: t in ts[1..] ==> ts[0] <= t
  {
    forall i, j | 0 <= i < j < |ts[1..]|
      ensures InOrder(ts[1..], i, j)
    {
      assert InOrder(ts, i + 1, j + 1);
    }
    forall t | t in ts[1..]
      ensures ts[0] <= t
    {
      var j :| 0 < j < |ts| && ts[j] == t;
      assert InOrder(ts, 0, j);
    }
  }

  lemma PrunedSorted(t: int, rest: seq<int>, tail: seq<int>)
    requires Sorted(tail) && (forall x :: x in tail ==> x in rest) && (forall x :: x in rest ==> t <= x)
    ensures Sorted([t] + tail)
  {
    forall i, j | 0 <= i < j < |[t] + tail|
      ensures InOrder([t] + tail, i, j)
    {
      assert tail[j - 1] in tail;
      assert i > 0 ==> InOrder(tail, i - 1, j - 1);
    }
  }

  lemma PrunedCons(ts: seq<int>, cut: int)
    requires ts != []
    ensures var tail := Pruned(ts[1..], cut); Pruned(ts, cut) == if ts[0] > cut then [ts[0]] + tail else tail
  {
    var tail := Pruned(ts[1..], cut);
    assert [] + tail == tail;
  }

  lemma {:induction false} PrunedMembers(ts: seq<int>, cut: int)
    ensures forall t :: t in Pruned(ts, cut) <==> t in ts && t > cut
    ensures |Pruned(ts, cut)| <= |ts|
  {
    if ts != [] {
      PrunedMembers(ts[1..], cut);
      PrunedCons(ts, cut);
      assert ts == [ts[0]] + ts[1..];
    }
  }

  lemma {:induction false} PrunedIsSorted(ts: seq<int>, cut: int)
    requires Sorted(ts)
    ensures Sorted(Pruned(ts, cut))
  {
    if ts != [] {
      SortedTail(ts);
      PrunedIsSorted(ts[1..], cut);
      PrunedMembers(ts[1..], cut);
      PrunedSorted(ts[0], ts[1..], Pruned(ts[1..], cut));
      PrunedCons(ts, cut);
    }
  }

  /** What is kept are the entries after the cut, in order. */
  lemma PrunedExact(ts: seq<int>, cut: int)
    ensures forall t :: t in Pruned(ts, cut) <==> t in ts && t > cut
    ensures Sorted(ts) ==> Sorted(Pruned(ts, cut))
    ensures |Pruned(ts, cut)| <= |ts|
  {
    PrunedMembers(ts, cut);
    if Sorted(ts) { PrunedIsSorted(ts, cut); }
  }

  /** Failures in the same second are kept apart. */
  lemma {:induction false} PrunedCounts(ts: seq<int>, cut: int, t: int)
    ensures multiset(Pruned(ts, cut))[t] == if t > cut then multiset(ts)[t] else 0
  {
    if ts != [] {
      PrunedCounts(ts[1..], cut, t);
      assert ts == [ts[0]] + ts[1..];
    }
  }

  lemma {:induction false} PrunedConcat(a: seq<int>, b: seq<int>, cut: int)
    ensures Pruned(a + b, cut) == Pruned(a, cut) + Pruned(b, cut)
  {
    if a == [] {
      assert a + b == b;
    } else {
      assert (a + b)[1..] == a[1..] + b;
      PrunedConcat(a[1..], b, cut);
    }
  }

  lemma {:induction false} PrunedTwice(ts: seq<int>, cut: int, later: int)
    requires cut <= later
    ensures Pruned(Pruned(ts, cut), later) == Pruned(ts, later)
    ensures |Pruned(ts, later)| <= |Pruned(ts, cut)|
  {
    if ts != [] {
      var rest := Pruned(ts[1..], cut);
      PrunedTwice(ts[1..], cut, later);
      PrunedConcat(if ts[0] > cut then [ts[0]] else [], rest, later);
    }
  }

  // ---- the operations on values ----

  function PruneKey(fails: Times, key: Key, cut: int): Times {
    var kept := Pruned(Of(fails, key), cut);
    if kept == [] then fails - {key} else fails[key := kept]
  }

  function Push(fails: Times, key: Key, now: int): Times {
    fails[key := Of(fails, key) + [now]]
  }

  /** A failure; `gone` are the keys evicted on the way. */
  function FailKey(fails: Times, key: Key, now: int, cut: int, gone: set<Key>): Times {
    Push(PruneKey(fails, key, cut) - gone, key, now)
  }

  function LogFail(log: Times, key: Key, now: int, gone: set<Key>): Times {
    Push(log - gone, key, now)
  }

  lemma LogFailAt(log: Times, key: Key, now: int, gone: set<Key>, k: Key)
    requires key !in gone
    ensures Of(LogFail(log, key, now, gone), k) ==
            if k == key then Of(log, k) + [now] else if k in gone then [] else Of(log, k)
  {
  }

  // ---- one key: its table entry against its log ----

  predicate Tidy(ts: seq<int>, clock: int) {
    Sorted(ts) && forall i :: 0 <= i < |ts| ==> ts[i] <= clock
  }

  /** Both lists are sorted, not ahead of the clock, and give the same entries inside the window. */
  predicate Pair(f: seq<int>, g: seq<int>, clock: int, window: nat) {
    Agree(f, g, clock - window) && Tidy(f, clock) && Tidy(g, clock)
  }

  predicate Agree(f: seq<int>, g: seq<int>, cut: int) {
    Pruned(f, cut) == Pruned(g, cut)
  }

  lemma AgreeLater(f: seq<int>, g: seq<int>, cut: int, later: int)
    requires Agree(f, g, cut) && cut <= later
    ensures Agree(f, g, later)
  {
    PrunedTwice(f, cut, later);
    PrunedTwice(g, cut, later);
  }

  lemma TidyLater(ts: seq<int>, clock: int, now: int)
    requires Tidy(ts, clock) && clock <= now
    ensures Tidy(ts, now) && Tidy(ts + [now], now)
  {
    var more := ts + [now];
    forall i, j | 0 <= i < j < |more|
      ensures InOrder(more, i, j)
    {
      if j < |ts| { assert InOrder(ts, i, j); }
    }
  }

  lemma AgreePushed(f: seq<int>, g: seq<int>, cut: int, now: int)
    requires Agree(f, g, cut)
    ensures Agree(f + [now], g + [now], cut)
  {
    PrunedConcat(f, [now], cut);
    PrunedConcat(g, [now], cut);
  }

  lemma AgreePruned(f: seq<int>, g: seq<int>, cut: int)
    requires Agree(f, g, cut)
    ensures Agree(Pruned(f, cut), g, cut)
  {
    PrunedTwice(f, cut, cut);
  }

  lemma PairLater(f: seq<int>, g: seq<int>, clock: int, now: int, window: nat)
    requires Pair(f, g, clock, window) && clock <= now
    ensures Pair(f, g, now, window)
  {
    AgreeLater(f, g, clock - window, now - window);
    TidyLater(f, clock, now);
    TidyLater(g, clock, now);
  }

  lemma TidyPruned(ts: seq<int>, clock: int, cut: int)
    requires Tidy(ts, clock)
    ensures Tidy(Pruned(ts, cut), clock)
  {
    var kept := Pruned(ts, cut);
    PrunedExact(ts, cut);
    forall i | 0 <= i < |kept| ensures kept[i] <= clock {
      var t := kept[i];
      assert t in kept && t in ts;
      var j :| 0 <= j < |ts| && ts[j] == t;
    }
  }

  lemma PairPruned(f: seq<int>, g: seq<int>, now: int, window: nat)
    requires Pair(f, g, now, window)
    ensures Pair(Pruned(f, now - window), g, now, window)
  {
    AgreePruned(f, g, now - window);
    TidyPruned(f, now, now - window);
  }

  lemma PairPushed(f: seq<int>, g: seq<int>, now: int, window: nat)
    requires Pair(f, g, now, window)
    ensures Pair(f + [now], g + [now], now, window)
  {
    AgreePushed(f, g, now - window, now);
    TidyLater(f, now, now);
    TidyLater(g, now, now);
  }

  // ---- the whole table against the log ----

  predicate KeyOk(fails: Times, log: Times, clock: int, window: nat, k: Key) {
    (k in fails ==> fails[k] != []) && Pair(Of(fails, k), Of(log, k), clock, window)
  }

  ghost predicate Refines(fails: Times, log: Times, clock: int, window: nat) {
    forall k: Key :: KeyOk(fails, log, clock, window, k)
  }

  lemma Later(fails: Times, log: Times, clock: int, now: int, window: nat)
    requires Refines(fails, log, clock, window) && clock <= now
    ensures Refines(fails, log, now, window)
  {
    forall k: Key
      ensures KeyOk(fails, log, now, window, k)
    {
      assert KeyOk(fails, log, clock, window, k);
      PairLater(Of(fails, k), Of(log, k), clock, now, window);
    }
  }

  lemma PruneRefines(fails: Times, log: Times, now: int, window: nat, key: Key)
    requires Refines(fails, log, now, window)
    ensures Refines(PruneKey(fails, key, now - window), log, now, window)
    ensures Pruned(Of(fails, key), now - window) == Pruned(Of(log, key), now - window)
  {
    var t := PruneKey(fails, key, now - window);
    forall k: Key
      ensures KeyOk(t, log, now, window, k)
    {
      assert KeyOk(fails, log, now, window, k);
      if k == key {
        PairPruned(Of(fails, k), Of(log, k), now, window);
        assert Of(t, k) == Pruned(Of(fails, k), now - window);
      } else {
        assert Of(t, k) == Of(fails, k);
      }
    }
    assert KeyOk(fails, log, now, window, key);
  }

  lemma OfDropped(m: Times, gone: set<Key>, k: Key)
    ensures Of(m - gone, k) == if k in gone then [] else Of(m, k)
  {
  }

  lemma DropRefines(fails: Times, log: Times, now: int, window: nat, gone: set<Key>)
    requires Refines(fails, log, now, window)
    ensures Refines(fails - gone, log - gone, now, window)
  {
    forall k: Key
      ensures KeyOk(fails - gone, log - gone, now, window, k)
    {
      assert KeyOk(fails, log, now, window, k);
      OfDropped(fails, gone, k);
      OfDropped(log, gone, k);
    }
  }

  lemma PushRefines(fails: Times, log: Times, now: int, window: nat, key: Key)
    requires Refines(fails, log, now, window)
    ensures Refines(Push(fails, key, now), Push(log, key, now), now, window)
  {
    var f, g := Push(fails, key, now), Push(log, key, now);
    forall k: Key
      ensures KeyOk(f, g, now, window, k)
    {
      assert KeyOk(fails, log, now, window, k);
      if k == key {
        PairPushed(Of(fails, k), Of(log, k), now, window);
      }
    }
  }

  /** A failure with any evictions of other keys is the same failure in the log. */
  lemma FailRefines(fails: Times, log: Times, now: int, window: nat, key: Key, gone: set<Key>)
    requires Refines(fails, log, now, window)
    ensures Refines(FailKey(fails, key, now, now - window, gone), LogFail(log, key, now, gone), now, window)
  {
    var p := PruneKey(fails, key, now - window);
    PruneRefines(fails, log, now, window, key);
    DropRefines(p, log, now, window, gone);
    PushRefines(p - gone, log - gone, now, window, key);
  }
}
