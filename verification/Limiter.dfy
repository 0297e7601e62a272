/**
  The sliding-window login limiter (internal/auth/ratelimit.go): the table it
  keeps against an unpruned log of failures. The clock is passed in and does not
  run backwards.
*/
module Limiter {
  import opened FailureLog
  import opened Eviction

  class LoginLimiter {
    var fails: Times
    const maxFail: int
    const window: nat
    ghost var log: Times      // every failure since the key's last Reset or eviction
    ghost var clock: int

    ghost predicate Valid()
      reads this
    {
      Refines(fails, log, clock, window)
    }

    constructor (maxFail: int, window: nat, ghost clock: int)
      ensures this.maxFail == maxFail && this.window == window && this.clock == clock
      ensures fails == map[] && log == map[] && Valid()
    {
      this.maxFail, this.window, this.clock := maxFail, window, clock;
      fails, log := map[], map[];
    }

    method Prune(key: Key, cut: int) returns (n: nat)
      modifies this`fails
      ensures fails == PruneKey(old(fails), key, cut)
      ensures n == |Pruned(Of(old(fails), key), cut)|
    {
      var times := if key in fails then fails[key] else [];
      var kept := [];
      var i := 0;
      while i < |times|
        invariant 0 <= i <= |times|
        invariant kept == Pruned(times[..i], cut) && fails == old(fails)
      {
        assert times[..i + 1] == times[..i] + [times[i]];
        PrunedConcat(times[..i], [times[i]], cut);
        if times[i] > cut {
          kept := kept + [times[i]];
        }
        i := i + 1;
      }
      assert times[..i] == times;
      assert times == Of(old(fails), key);
      if |kept| == 0 {
        fails := fails - {key};
        return 0;
      }
      fails := fails[key := kept];
      n := |kept|;
    }

    /** One pass over the map, in whatever order it is visited. */
    method FindVictim() returns (victim: Key)
      ensures ScannedTo(fails, victim)
    {
      victim := "";
      ghost var order: seq<Key> := [];
      var oldest := 0;
      var rest := fails.Keys;
      while rest != {}
        invariant rest <= fails.Keys
        invariant forall k :: k in order <==> k in fails && k !in rest
        invariant forall i, j :: 0 <= i < j < |order| ==> order[i] != order[j]
        invariant (victim, oldest) == Scan(order, fails)
        decreases |rest|
      {
        var k :| k in rest;
        var ts := fails[k];
        var last := if |ts| > 0 then ts[|ts| - 1] else 0;
        assert (order + [k])[..|order|] == order;
        if victim == "" || last < oldest {
          victim, oldest := k, last;
        }
        order := order + [k];
        rest := rest - {k};
      }
    }

    method EvictIfNeeded() returns (ghost gone: set<Key>)
      modifies this`fails
      ensures gone <= old(fails).Keys && fails == old(fails) - gone
      ensures Evicts(old(fails), fails)
    {
      gone := {};
      while |fails| >= MAX_KEYS
        invariant gone <= old(fails).Keys && fails == old(fails) - gone
        invariant forall left :: Evicts(fails, left) ==> Evicts(old(fails), left)
        decreases |fails|
      {
        var victim := FindVictim();
        PassEndsIff(fails, victim);
        if victim == "" {
          break;
        }
        assert Victim(fails, victim);
        MinusTwice(old(fails), victim, gone);
        fails := fails - {victim};
        gone := gone + {victim};
      }
    }

    method Allow(key: Key, now: int) returns (ok: bool)
      requires Valid() && clock <= now
      modifies this
      ensures Valid() && clock == now && log == old(log)
      ensures ok <==> |Pruned(Of(log, key), now - window)| < maxFail
      ensures fails == PruneKey(old(fails), key, now - window)
    {
      Later(fails, log, clock, now, window);
      PruneRefines(fails, log, now, window, key);
      var n := Prune(key, now - window);
      clock := now;
      ok := n < maxFail;
    }

    /** The count is that of the unpruned log, whatever was pruned or evicted before. */
    method FailCount(key: Key, now: int) returns (n: nat)
      requires Valid() && clock <= now
      modifies this
      ensures Valid() && clock == now && log == old(log)
      ensures n == |Pruned(Of(log, key), now - window)|
      ensures fails == PruneKey(old(fails), key, now - window)
    {
      Later(fails, log, clock, now, window);
      PruneRefines(fails, log, now, window, key);
      n := Prune(key, now - window);
      clock := now;
    }

    /** The first half of Fail: prune the key, and make room if nothing of it is left. */
    method MakeRoom(key: Key, cut: int) returns (ghost gone: set<Key>)
      modifies this`fails
      ensures fails == PruneKey(old(fails), key, cut) - gone
      ensures MakesRoom(PruneKey(old(fails), key, cut), key, gone)
    {
      gone := {};
      var n := Prune(key, cut);
      if n == 0 {
        gone := EvictIfNeeded();
      }
    }

    /** Fail on the table alone. */
    method Record(key: Key, now: int) returns (ghost gone: set<Key>)
      modifies this`fails
      ensures fails == FailKey(old(fails), key, now, now - window, gone)
      ensures MakesRoom(PruneKey(old(fails), key, now - window), key, gone)
    {
      gone := MakeRoom(key, now - window);
      fails := Push(fails, key, now);
    }

    /** The log of a failure that changed the table as Record does. */
    ghost method LogFailure(before: Times, key: Key, now: int, gone: set<Key>)
      requires Refines(before, log, clock, window) && clock <= now
      requires fails == FailKey(before, key, now, now - window, gone)
      modifies this`log, this`clock
      ensures Valid() && clock == now
      ensures log == LogFail(old(log), key, now, gone)
    {
      Later(before, log, clock, now, window);
      FailRefines(before, log, now, window, key, gone);
      log := LogFail(log, key, now, gone);
      clock := now;
    }

    /** The failure is added to the log; evicted keys start a new log. */
    method Fail(key: Key, now: int) returns (ghost gone: set<Key>)
      requires Valid() && clock <= now
      modifies this
      ensures Valid() && clock == now
      ensures log == LogFail(old(log), key, now, gone)
      ensures fails == FailKey(old(fails), key, now, now - window, gone)
      ensures MakesRoom(PruneKey(old(fails), key, now - window), key, gone)
    {
      gone := Record(key, now);
      LogFailure(old(fails), key, now, gone);
    }

    method Reset(key: Key)
      requires Valid()
      modifies this
      ensures Valid() && clock == old(clock)
      ensures fails == old(fails) - {key} && log == old(log) - {key}
    {
      DropRefines(fails, log, clock, window, {key});
      fails := fails - {key};
      log := log - {key};
    }
  }
}
