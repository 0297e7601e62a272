/**
  Schema migration (internal/store/store.go:54-101). The version is read once,
  at the start; each pending file and its version number are one transaction.
  A call may be cut short at any transaction, by an error or a crash, and is
  then simply made again.
*/
module Migrate {
  import opened Wrappers

  /** A file of the migrations directory; without a number in its name it is passed over. */
  datatype Migration = Migration(name: string, version: Option<int>)

  /** The stored version, and the scripts whose effect is in the schema, in the order they were run. */
  datatype Db = Db(version: int, applied: seq<Migration>)

  predicate IsPending(m: Migration, version: int) {
    m.version.Some? && m.version.value > version
  }

  function Pending(files: seq<Migration>, version: int): (r: seq<Migration>)
    ensures |r| <= |files|
    ensures forall i :: 0 <= i < |r| ==> IsPending(r[i], version)
  {
    if files == [] then []
    else (if IsPending(files[0], version) then [files[0]] else []) + Pending(files[1..], version)
  }

  lemma {:induction false} PendingSnoc(files: seq<Migration>, m: Migration, version: int)
    ensures Pending(files + [m], version) == Pending(files, version) + if IsPending(m, version) then [m] else []
  {
    if files == [] {
      assert files + [m] == [m];
    } else {
      assert (files + [m])[1..] == files[1..] + [m];
      PendingSnoc(files[1..], m, version);
    }
  }

  lemma {:induction false} PendingExact(files: seq<Migration>, version: int, m: Migration)
    ensures m in Pending(files, version) <==> m in files && IsPending(m, version)
  {
    if files != [] {
      PendingExact(files[1..], version, m);
      assert files == [files[0]] + files[1..];
    }
  }

  lemma {:induction false} PendingPrefix(files: seq<Migration>, i: nat, version: int)
    requires i <= |files|
    ensures Pending(files[..i], version) <= Pending(files, version)
    decreases |files| - i
  {
    if i == |files| {
      assert files[..i] == files;
    } else {
      PendingPrefix(files, i + 1, version);
      assert files[..i + 1] == files[..i] + [files[i]];
      PendingSnoc(files[..i], files[i], version);
    }
  }

  lemma PendingNext(files: seq<Migration>, i: nat, version: int)
    requires i < |files|
    ensures Pending(files[..i + 1], version)
            == Pending(files[..i], version) + if IsPending(files[i], version) then [files[i]] else []
    ensures var done := |Pending(files[..i], version)|;
            && done <= |Pending(files, version)| && Pending(files, version)[..done] == Pending(files[..i], version)
            && (IsPending(files[i], version) ==> done < |Pending(files, version)|)
  {
    assert files[..i + 1] == files[..i] + [files[i]];
    PendingSnoc(files[..i], files[i], version);
    PendingPrefix(files, i, version);
    PendingPrefix(files, i + 1, version);
  }

  /** One call that gets through at most `stop` transactions. */
  function Attempt(db: Db, files: seq<Migration>, stop: nat): (r: Db) {
    var pending := Pending(files, db.version);
    var n := if stop < |pending| then stop else |pending|;
    Db(if n == 0 then db.version else pending[n - 1].version.value, db.applied + pending[..n])
  }

  lemma AttemptSkips(db: Db, files: seq<Migration>, i: nat, stop: nat)
    requires i < |files| && !IsPending(files[i], db.version)
    ensures Pending(files[..i + 1], db.version) == Pending(files[..i], db.version)
    ensures Attempt(db, files[..i + 1], stop) == Attempt(db, files[..i], stop)
  {
    PendingNext(files, i, db.version);
  }

  lemma AttemptApplies(db: Db, files: seq<Migration>, i: nat, stop: nat)
    requires i < |files| && IsPending(files[i], db.version) && |Pending(files[..i], db.version)| < stop
    ensures |Pending(files[..i + 1], db.version)| == |Pending(files[..i], db.version)| + 1
    ensures Attempt(db, files[..i + 1], stop)
            == Db(files[i].version.value, Attempt(db, files[..i], stop).applied + [files[i]])
  {
    PendingNext(files, i, db.version);
  }

  lemma AttemptStops(db: Db, files: seq<Migration>, i: nat, stop: nat)
    requires i < |files| && IsPending(files[i], db.version) && |Pending(files[..i], db.version)| == stop
    ensures stop < |Pending(files, db.version)| && Attempt(db, files, stop) == Attempt(db, files[..i], stop)
  {
    PendingNext(files, i, db.version);
  }

  class Store {
    var version: int
    var applied: seq<Migration>

    constructor (version: int)
      ensures this.version == version && applied == []
    {
      this.version, applied := version, [];
    }

    /** `stop` is the number of transactions that commit before one fails or the process dies. */
    method Migrate(files: seq<Migration>, stop: nat) returns (ok: bool)
      modifies this
      ensures Db(version, applied) == Attempt(old(Db(version, applied)), files, stop)
      ensures ok <==> stop >= |Pending(files, old(version))|
    {
      var start := version;
      ghost var before := Db(version, applied);
      var committed := 0;
      var i := 0;
      while i < |files|
        invariant 0 <= i <= |files|
        invariant committed == |Pending(files[..i], start)| <= stop
        invariant Db(version, applied) == Attempt(before, files[..i], stop)
      {
        var m := files[i];
        i := i + 1;
        if m.version.None? {
          AttemptSkips(before, files, i - 1, stop);
          continue;
        }
        if m.version.value <= start {
          AttemptSkips(before, files, i - 1, stop);
          continue;
        }
        if committed == stop {
          AttemptStops(before, files, i - 1, stop);
          return false;
        }
        AttemptApplies(before, files, i - 1, stop);
        applied := applied + [m];
        version := m.version.value;
        committed := committed + 1;
      }
      assert files[..i] == files;
      return true;
    }
  }

  // ---- runs ----

  function Attempts(db: Db, files: seq<Migration>, stops: seq<nat>): Db
    decreases |stops|
  {
    if stops == [] then db else Attempts(Attempt(db, files, stops[0]), files, stops[1..])
  }

  /** Any number of attempts cut short anywhere, and then one that is not. */
  function Finished(db: Db, files: seq<Migration>, stops: seq<nat>): Db {
    Attempt(Attempts(db, files, stops), files, |files|)
  }

  predicate Ascending(ms: seq<Migration>) {
    && (forall i :: 0 <= i < |ms| ==> ms[i].version.Some?)
    && (forall i :: 0 < i < |ms| ==> ms[i - 1].version.value < ms[i].version.value)
  }

  predicate Increasing(ms: seq<Migration>)
    requires forall i :: 0 <= i < |ms| ==> ms[i].version.Some?
  {
    forall i, j :: 0 <= i < j < |ms| ==> ms[i].version.value < ms[j].version.value
  }

  lemma {:induction false} AscendingIsIncreasing(ms: seq<Migration>)
    requires Ascending(ms)
    ensures Increasing(ms)
  {
    if |ms| > 1 {
      var n := |ms| - 1;
      AscendingIsIncreasing(ms[..n]);
      assert ms[n - 1].version.value < ms[n].version.value;
    }
  }

  function VersionAt(files: seq<Migration>, version: int, k: nat): int
    requires k <= |Pending(files, version)|
  {
    if k == 0 then version else Pending(files, version)[k - 1].version.value
  }

  lemma {:induction false} PendingTwice(files: seq<Migration>, v: int, w: int)
    requires v <= w
    ensures Pending(files, w) == Pending(Pending(files, v), w)
  {
    if files != [] {
      PendingTwice(files[1..], v, w);
      PendingCons(files[0], Pending(files[1..], v), w);
    }
  }

  lemma PendingCons(m: Migration, ms: seq<Migration>, w: int)
    ensures Pending([m] + ms, w) == (if IsPending(m, w) then [m] else []) + Pending(ms, w)
    ensures [] + ms == ms
  {
    assert ([m] + ms)[1..] == ms;
  }

  lemma {:induction false} PendingAll(ms: seq<Migration>, w: int)
    requires forall i :: 0 <= i < |ms| ==> IsPending(ms[i], w)
    ensures Pending(ms, w) == ms
  {
    if ms != [] {
      PendingAll(ms[1..], w);
      assert ms == [ms[0]] + ms[1..];
    }
  }

  lemma {:induction false} PendingNone(ms: seq<Migration>, rest: seq<Migration>, w: int)
    requires forall i :: 0 <= i < |ms| ==> !IsPending(ms[i], w)
    ensures Pending(ms + rest, w) == Pending(rest, w)
  {
    if ms == [] {
      assert ms + rest == rest;
    } else {
      assert (ms + rest)[1..] == ms[1..] + rest;
      PendingNone(ms[1..], rest, w);
    }
  }

  lemma PendingFrom(ms: seq<Migration>, k: nat, w: int)
    requires k <= |ms|
    requires forall i :: 0 <= i < |ms| ==> (IsPending(ms[i], w) <==> k <= i)
    ensures Pending(ms, w) == ms[k..]
  {
    assert ms[..k] + ms[k..] == ms;
    PendingNone(ms[..k], ms[k..], w);
    PendingAll(ms[k..], w);
  }

  /** With ascending numbers, what is pending after the first k is the rest. */
  lemma PendingAfter(files: seq<Migration>, v: int, k: nat)
    requires Ascending(Pending(files, v)) && k <= |Pending(files, v)|
    ensures Pending(files, VersionAt(files, v, k)) == Pending(files, v)[k..]
  {
    var ms := Pending(files, v);
    var w := VersionAt(files, v, k);
    AscendingIsIncreasing(ms);
    forall i | 0 <= i < |ms| ensures IsPending(ms[i], w) <==> k <= i {
      assert IsPending(ms[i], v);
    }
    assert k > 0 ==> IsPending(ms[k - 1], v);
    PendingTwice(files, v, w);
    PendingFrom(ms, k, w);
  }

  /** What holds between attempts: some prefix has been applied and the stored version is its last. */
  predicate Between(db: Db, start: Db, files: seq<Migration>, k: nat) {
    && k <= |Pending(files, start.version)|
    && db.applied == start.applied + Pending(files, start.version)[..k]
    && db.version == VersionAt(files, start.version, k)
  }

  lemma AttemptAdvances(db: Db, start: Db, files: seq<Migration>, k: nat, stop: nat) returns (k': nat)
    requires Ascending(Pending(files, start.version)) && Between(db, start, files, k)
    ensures k <= k' && Between(Attempt(db, files, stop), start, files, k')
    ensures stop >= |Pending(files, start.version)| ==> k' == |Pending(files, start.version)|
  {
    var ms := Pending(files, start.version);
    var n := if stop < |ms| - k then stop else |ms| - k;
    k' := k + n;
    PendingAfter(files, start.version, k);
    AttemptOf(db, files, stop, ms[k..], n);
    TakeMore(start.applied, ms, k, n);
    assert n > 0 ==> ms[k..][n - 1] == ms[k' - 1];
  }

  lemma AttemptOf(db: Db, files: seq<Migration>, stop: nat, rest: seq<Migration>, n: nat)
    requires rest == Pending(files, db.version) && n == if stop < |rest| then stop else |rest|
    ensures Attempt(db, files, stop).applied == db.applied + rest[..n]
    ensures n > 0 ==> rest[n - 1].version.Some?
    ensures Attempt(db, files, stop).version == if n == 0 then db.version else rest[n - 1].version.value
  {
  }

  lemma TakeMore(before: seq<Migration>, ms: seq<Migration>, k: nat, n: nat)
    requires k + n <= |ms|
    ensures before + ms[..k] + ms[k..][..n] == before + ms[..k + n]
  {
  }

  lemma {:induction false} AttemptsAdvance(db: Db, start: Db, files: seq<Migration>, k: nat, stops: seq<nat>)
      returns (k': nat)
    requires Ascending(Pending(files, start.version)) && Between(db, start, files, k)
    ensures k <= k' && Between(Attempts(db, files, stops), start, files, k')
    decreases |stops|
  {
    if stops == [] {
      k' := k;
    } else {
      var mid := AttemptAdvances(db, start, files, k, stops[0]);
      k' := AttemptsAdvance(Attempt(db, files, stops[0]), start, files, mid, stops[1..]);
    }
  }

  /** The stored version is as high as any number, and not made up. */
  predicate Highest(version: int, start: int, files: seq<Migration>) {
    && (forall i :: 0 <= i < |files| ==> !IsPending(files[i], version))
    && (version == start || exists i :: 0 <= i < |files| && files[i].version == Some(version))
  }

  /** Every pending migration once, in file order, and the stored version ends as the highest number. */
  predicate ExactlyOnce(db: Db, start: Db, files: seq<Migration>) {
    db.applied == start.applied + Pending(files, start.version) && Highest(db.version, start.version, files)
  }

  lemma EndIsHighest(start: int, files: seq<Migration>)
    requires Ascending(Pending(files, start))
    ensures Highest(VersionAt(files, start, |Pending(files, start)|), start, files)
  {
    var ms := Pending(files, start);
    var n := |ms|;
    AscendingIsIncreasing(ms);
    forall i | 0 <= i < |files| ensures !IsPending(files[i], VersionAt(files, start, n)) {
      PendingExact(files, start, files[i]);
      if IsPending(files[i], start) {
        var j :| 0 <= j < n && ms[j] == files[i];
      }
    }
    if n > 0 {
      PendingExact(files, start, ms[n - 1]);
      var i :| 0 <= i < |files| && files[i] == ms[n - 1];
      assert files[i].version == Some(VersionAt(files, start, n));
    }
  }

  lemma AscendingIsEnough(start: Db, files: seq<Migration>, stops: seq<nat>)
    requires Ascending(Pending(files, start.version))
    ensures ExactlyOnce(Finished(start, files, stops), start, files)
  {
    var ms := Pending(files, start.version);
    assert start.applied + ms[..0] == start.applied;
    var k := AttemptsAdvance(start, start, files, 0, stops);
    var n := AttemptAdvances(Attempts(start, files, stops), start, files, k, |files|);
    assert ms[..|ms|] == ms;
    EndIsHighest(start.version, files);
  }

  /** Two neighbours out of order: stopping between them loses the second. */
  lemma OutOfOrderLoses(start: Db, files: seq<Migration>, i: nat)
    requires var ms := Pending(files, start.version);
             i + 1 < |ms| && ms[i + 1].version.value <= ms[i].version.value
    ensures Finished(start, files, [i + 1]).applied != start.applied + Pending(files, start.version)
  {
    var ms := Pending(files, start.version);
    var mid := Attempt(start, files, i + 1);
    assert Attempts(start, files, [i + 1]) == mid by {
      assert [i + 1][1..] == [];
    }
    var rest := Pending(files, mid.version);
    var end := Finished(start, files, [i + 1]);
    assert rest[..|rest|] == rest;
    assert end.applied == start.applied + ms[..i + 1] + rest;
    var n := |start.applied| + i + 1;
    if |rest| > 0 {
      assert end.applied[n] == rest[0] && IsPending(rest[0], mid.version);
      assert (start.applied + ms)[n] == ms[i + 1];
    }
  }

  /**
    Restarting after any interruptions ends with each pending migration applied exactly once, in order,
    and the highest version stored, if and only if the pending files' numbers strictly ascend in file order.
  */
  lemma RestartsAreExactIff(start: Db, files: seq<Migration>)
    ensures (forall stops: seq<nat> :: ExactlyOnce(Finished(start, files, stops), start, files))
            <==> Ascending(Pending(files, start.version))
  {
    var ms := Pending(files, start.version);
    if Ascending(ms) {
      forall stops: seq<nat> ensures ExactlyOnce(Finished(start, files, stops), start, files) {
        AscendingIsEnough(start, files, stops);
      }
    } else {
      assert forall i :: 0 <= i < |ms| ==> IsPending(ms[i], start.version);
      var i :| 0 < i < |ms| && ms[i].version.value <= ms[i - 1].version.value;
      OutOfOrderLoses(start, files, i - 1);
      var stops: seq<nat> := [i];
      assert !ExactlyOnce(Finished(start, files, stops), start, files);
    }
  }

  // ---- the same on the files themselves ----

  predicate InOrder(files: seq<Migration>, start: int) {
    forall i, j :: 0 <= i < j < |files| ==> Follows(files[i], files[j], start)
  }

  predicate Follows(a: Migration, b: Migration, start: int) {
    a.version.Some? && b.version.Some? && a.version.value > start && b.version.value > start ==>
      a.version.value < b.version.value
  }

  lemma InOrderCons(files: seq<Migration>, start: int)
    requires files != []
    ensures InOrder(files, start) <==>
              InOrder(files[1..], start) && forall m :: m in files[1..] ==> Follows(files[0], m, start)
  {
    var rest := files[1..];
    assert forall i :: 0 <= i < |rest| ==> rest[i] == files[i + 1];
    if InOrder(rest, start) && forall m :: m in rest ==> Follows(files[0], m, start) {
      forall i, j | 0 <= i < j < |files| ensures Follows(files[i], files[j], start) {
        assert files[j] == rest[j - 1];
        if i > 0 { assert files[i] == rest[i - 1]; }
      }
    }
  }

  lemma AscendingTail(m: Migration, ms: seq<Migration>)
    requires m.version.Some? && (forall i :: 0 <= i < |ms| ==> ms[i].version.Some?) && Ascending([m] + ms)
    ensures Ascending(ms) && forall k :: 0 <= k < |ms| ==> m.version.value < ms[k].version.value
  {
    var all := [m] + ms;
    AscendingIsIncreasing(all);
    assert forall i :: 0 <= i < |ms| ==> all[i + 1] == ms[i];
    forall k | 0 <= k < |ms| ensures m.version.value < ms[k].version.value {
      assert all[0].version.value < all[k + 1].version.value;
    }
    forall i | 0 < i < |ms| ensures ms[i - 1].version.value < ms[i].version.value {
      assert all[i].version.value < all[i + 1].version.value;
    }
  }

  lemma AscendingMore(m: Migration, ms: seq<Migration>)
    requires m.version.Some? && Ascending(ms)
    requires |ms| > 0 ==> m.version.value < ms[0].version.value
    ensures Ascending([m] + ms)
  {
    var all := [m] + ms;
    forall i | 0 < i < |all| ensures all[i - 1].version.value < all[i].version.value {
      if i > 1 { assert all[i] == ms[i - 1] && all[i - 1] == ms[i - 2]; }
    }
  }

  /** A pending file in front of the others: the condition goes on to it. */
  lemma InOrderStep(files: seq<Migration>, start: int)
    requires files != [] && IsPending(files[0], start)
    requires var rest := Pending(files[1..], start); Ascending(rest) <==> InOrder(files[1..], start)
    ensures Ascending(Pending(files, start)) <==> InOrder(files, start)
  {
    var m, rest := files[0], Pending(files[1..], start);
    InOrderCons(files, start);
    if Ascending([m] + rest) {
      AscendingTail(m, rest);
      forall x | x in files[1..] ensures Follows(m, x, start) {
        PendingExact(files[1..], start, x);
      }
    } else if Ascending(rest) {
      assert rest != [] && !(m.version.value < rest[0].version.value) by {
        if rest == [] || m.version.value < rest[0].version.value { AscendingMore(m, rest); }
      }
      PendingExact(files[1..], start, rest[0]);
      assert !Follows(m, rest[0], start);
    }
  }

  /** The order of the files themselves: any two with numbers above the stored version come in rising order. */
  lemma {:induction false} AscendingIffInOrder(files: seq<Migration>, start: int)
    ensures Ascending(Pending(files, start)) <==> InOrder(files, start)
  {
    if files != [] {
      AscendingIffInOrder(files[1..], start);
      if IsPending(files[0], start) {
        InOrderStep(files, start);
      } else {
        InOrderCons(files, start);
        assert [] + Pending(files[1..], start) == Pending(files[1..], start);
      }
    }
  }

  /**
    If so, any interruptions and a last call that is not interrupted leave: what
    was applied before, then every file whose number is above the version at the
    start, and no other, in strictly rising order; and a stored version that no
    file's number exceeds, which is the old one or some file's number.
  */
  lemma RestartsApplyEachOnce(start: Db, files: seq<Migration>, stops: seq<nat>) returns (added: seq<Migration>)
    requires forall i, j :: 0 <= i < j < |files| ==>
               (files[i].version.Some? && files[j].version.Some?
                && files[i].version.value > start.version && files[j].version.value > start.version ==>
                  files[i].version.value < files[j].version.value)
    ensures Finished(start, files, stops).applied == start.applied + added
    ensures forall m :: m in added <==> m in files && m.version.Some? && m.version.value > start.version
    ensures forall i, j :: 0 <= i < j < |added| ==> added[i].version.value < added[j].version.value
    ensures var v := Finished(start, files, stops).version;
            && (forall m :: m in files && m.version.Some? ==> m.version.value <= v)
            && (v == start.version || exists m :: m in files && m.version == Some(v))
  {
    assert InOrder(files, start.version);
    AscendingIffInOrder(files, start.version);
    AscendingIsEnough(start, files, stops);
    added := Pending(files, start.version);
    AscendingIsIncreasing(added);
    forall m ensures m in added <==> m in files && m.version.Some? && m.version.value > start.version {
      PendingExact(files, start.version, m);
    }
    var v := Finished(start, files, stops).version;
    forall m | m in files && m.version.Some? ensures m.version.value <= v {
      var i :| 0 <= i < |files| && files[i] == m;
      assert !IsPending(files[i], v);
    }
  }
}
