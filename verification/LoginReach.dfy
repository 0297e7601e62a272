/**
  The bound on login failures is reached, for every limit and every number of
  overlapping requests (internal/auth/handler.go:64-112; the panel runs with a
  limit of 5 in 300 seconds, internal/panel/panel.go:61). All of it happens
  within one second: maxFail - 1 requests one after the other, then all slots
  pass both Allow calls before any of them fails.
*/
module LoginReach {
  import opened Wrappers
  import opened FailureLog
  import opened Login

  predicate AllAt(ts: seq<int>, now: int) {
    forall i :: 0 <= i < |ts| ==> ts[i] == now
  }

  /** Table and log agree, and every failure in them is of this second. */
  ghost predicate Recent(s: State) {
    s.fails == s.log && forall k :: k in s.log ==> s.log[k] != [] && AllAt(s.log[k], s.now)
  }

  lemma {:induction false} NothingPruned(ts: seq<int>, now: int, cut: int)
    requires AllAt(ts, now) && cut < now
    ensures Pruned(ts, cut) == ts
  {
    if ts != [] {
      NothingPruned(ts[1..], now, cut);
      assert ts == [ts[0]] + ts[1..];
    }
  }

  lemma PruneChangesNothing(p: Params, s: State, key: Key)
    requires Recent(s) && p.window > 0
    ensures AfterPrune(p, s, key) == s && Count(p, s, key) == |Of(s.log, key)|
    ensures PruneKey(s.fails, key, s.now - p.window) == s.fails
  {
    NothingPruned(Of(s.log, key), s.now, s.now - p.window);
  }

  function Pushed(s: State, key: Key): State {
    s.(fails := Push(s.log, key, s.now), log := Push(s.log, key, s.now))
  }

  lemma FailPushes(p: Params, s: State, key: Key)
    requires Recent(s) && p.window > 0
    ensures AfterFail(p, s, key, {}) == Pushed(s, key) && Recent(Pushed(s, key))
    ensures forall k: Key :: |Of(Pushed(s, key).log, k)| == |Of(s.log, k)| + if k == key then 1 else 0
  {
    PruneChangesNothing(p, s, key);
    assert s.fails - {} == s.fails;
  }

  // ---- one request ----

  function Left(pc: Pc): nat {
    match pc
    case AskUser => 5
    case AskIp => 4
    case CountUser => 3
    case CountIp => 2
    case Captcha => 1
    case Password => 1
    case _ => 0
  }

  /** Both keys of the request are still allowed. */
  predicate Allowed(p: Params, s: State, r: Request) {
    |Of(s.log, r.user)| < p.maxFail && |Of(s.log, r.ip)| < p.maxFail
  }

  /** One step with everything wrong brings an allowed request nearer to its failure and changes nothing else. */
  lemma Nearer(p: Params, s: State, i: nat) returns (pc: Pc)
    requires Recent(s) && p.window > 0 && InFlight(s, i) && Left(s.slots[i].value.pc) > 0
    requires Allowed(p, s, s.slots[i].value)
    ensures Enabled(p, s, Advance(i, false, {}))
    ensures Step(p, s, Advance(i, false, {})) == Put(s, i, Some(s.slots[i].value.(pc := pc)))
    ensures Left(pc) < Left(s.slots[i].value.pc) && (Left(pc) == 0 ==> pc.FailUser?)
  {
    var r := s.slots[i].value;
    PruneChangesNothing(p, s, r.user);
    PruneChangesNothing(p, s, r.ip);
    var t := Step(p, s, Advance(i, false, {}));
    pc := t.slots[i].value.pc;
  }

  lemma {:induction false} ToItsFailure(p: Params, s: State, i: nat) returns (es: seq<Event>)
    requires Recent(s) && p.window > 0 && InFlight(s, i) && Allowed(p, s, s.slots[i].value)
    requires Left(s.slots[i].value.pc) > 0
    ensures Run(p, s, es, Put(s, i, Some(s.slots[i].value.(pc := FailUser))))
    decreases Left(s.slots[i].value.pc)
  {
    var r := s.slots[i].value;
    var pc := Nearer(p, s, i);
    var t := Put(s, i, Some(r.(pc := pc)));
    var rest: seq<Event> := [];
    if Left(pc) > 0 {
      rest := ToItsFailure(p, t, i);
    }
    es := [Advance(i, false, {})] + rest;
    assert es[1..] == rest;
    assert Put(t, i, Some(r.(pc := FailUser))) == Put(s, i, Some(r.(pc := FailUser)));
  }

  lemma Enter(p: Params, s: State, i: nat, user: Key, ip: Key) returns (es: seq<Event>)
    requires Recent(s) && p.window > 0 && i < |s.slots| && s.slots[i].None? && (p.distinct ==> user != ip)
    requires Allowed(p, s, Request(user, ip, AskUser))
    ensures Run(p, s, es, Put(s, i, Some(Request(user, ip, FailUser))))
  {
    var t := Put(s, i, Some(Request(user, ip, AskUser)));
    var rest := ToItsFailure(p, t, i);
    es := [Arrive(i, user, ip)] + rest;
    assert es[1..] == rest;
    assert Put(t, i, Some(Request(user, ip, FailUser))) == Put(s, i, Some(Request(user, ip, FailUser)));
  }

  lemma Leave(p: Params, s: State, i: nat) returns (es: seq<Event>, t: State)
    requires Recent(s) && p.window > 0 && InFlight(s, i) && s.slots[i].value.pc.FailUser?
    ensures Run(p, s, es, t) && Recent(t) && t.slots == s.slots[i := None] && t.now == s.now
    ensures var r := s.slots[i].value;
            forall k: Key :: |Of(t.log, k)| ==
              |Of(s.log, k)| + (if k == r.user then 1 else 0) + (if k == r.ip then 1 else 0)
  {
    var r := s.slots[i].value;
    var e := Advance(i, false, {});
    FailPushes(p, s, r.user);
    var s1 := Put(Pushed(s, r.user), i, Some(r.(pc := FailIp)));
    FailPushes(p, s1, r.ip);
    t := Put(Pushed(s1, r.ip), i, None);
    es := [e, e];
    assert Step(p, s, e) == s1 && Step(p, s1, e) == t;
    assert es[1..] == [e] && [e][1..] == [] && Run(p, t, [], t) && Run(p, s1, [e], t);
    assert t.slots == s.slots[i := None];
  }

  // ---- one after the other ----

  const NAME := "A"
  const ADDRESS := "b"

  /** m requests, one after the other, leave m failures of the name and of the address. */
  lemma {:induction false} Warm(p: Params, k: nat, now: int, m: nat) returns (es: seq<Event>, t: State)
    requires k > 0 && p.window > 0 && m < p.maxFail
    ensures Run(p, Init(k, now), es, t) && Recent(t) && t.slots == Init(k, now).slots && t.now == now
    ensures |Of(t.log, NAME)| == m && |Of(t.log, ADDRESS)| == m
  {
    if m == 0 {
      es, t := [], Init(k, now);
    } else {
      var fs, s := Warm(p, k, now, m - 1);
      var enter := Enter(p, s, 0, NAME, ADDRESS);
      var s1 := Put(s, 0, Some(Request(NAME, ADDRESS, FailUser)));
      var leave, u := Leave(p, s1, 0);
      RunJoin(p, Init(k, now), fs, s, enter, s1);
      RunJoin(p, Init(k, now), fs + enter, s1, leave, u);
      es, t := fs + enter + leave, u;
      assert s1.slots[0 := None] == s.slots;
    }
  }

  // ---- all at once ----

  /** The first j slots hold a request about to fail, the others are empty. */
  function Filled(k: nat, j: nat, ip: Key): seq<Option<Request>> {
    seq(k, x => if x < j then Some(Request(NAME, ip, FailUser)) else None)
  }

  lemma {:induction false} EnterAll(p: Params, s: State, j: nat, ip: Key) returns (es: seq<Event>)
    requires Recent(s) && p.window > 0 && j <= |s.slots| && s.slots == Filled(|s.slots|, 0, ip)
    requires (p.distinct ==> ip != NAME) && Allowed(p, s, Request(NAME, ip, AskUser))
    ensures Run(p, s, es, s.(slots := Filled(|s.slots|, j, ip)))
  {
    if j == 0 {
      es := [];
    } else {
      var fs := EnterAll(p, s, j - 1, ip);
      var t := s.(slots := Filled(|s.slots|, j - 1, ip));
      var enter := Enter(p, t, j - 1, NAME, ip);
      assert t.slots[j - 1 := Some(Request(NAME, ip, FailUser))] == Filled(|s.slots|, j, ip);
      RunJoin(p, s, fs, t, enter, s.(slots := Filled(|s.slots|, j, ip)));
      es := fs + enter;
    }
  }

  /** Failures of the name that one of these requests records. */
  function Each(ip: Key): nat { if ip == NAME then 2 else 1 }

  lemma LeaveOne(p: Params, s: State, j: nat, ip: Key) returns (es: seq<Event>, t: State)
    requires Recent(s) && p.window > 0 && 0 < j <= |s.slots| && s.slots == Filled(|s.slots|, j, ip)
    ensures Run(p, s, es, t) && Recent(t) && t.now == s.now && t.slots == Filled(|s.slots|, j - 1, ip)
    ensures |Of(t.log, NAME)| == |Of(s.log, NAME)| + Each(ip)
  {
    es, t := Leave(p, s, j - 1);
    assert s.slots[j - 1 := None] == Filled(|s.slots|, j - 1, ip);
  }

  lemma {:induction false} LeaveAll(p: Params, s: State, j: nat, ip: Key) returns (es: seq<Event>, t: State)
    requires Recent(s) && p.window > 0 && j <= |s.slots| && s.slots == Filled(|s.slots|, j, ip)
    ensures Run(p, s, es, t) && Recent(t) && t.now == s.now
    ensures |Of(t.log, NAME)| == |Of(s.log, NAME)| + j * Each(ip)
    decreases j
  {
    if j == 0 {
      es, t := [], s;
    } else {
      var leave, u := LeaveOne(p, s, j, ip);
      var rest;
      rest, t := LeaveAll(p, u, j - 1, ip);
      RunJoin(p, s, leave, u, rest, t);
      es := leave + rest;
      assert j * Each(ip) == (j - 1) * Each(ip) + Each(ip);
    }
  }

  /** All slots pass both Allow calls, and then all fail. */
  lemma AllAtOnce(p: Params, s: State, ip: Key) returns (es: seq<Event>, t: State)
    requires Recent(s) && p.window > 0 && s.slots == Filled(|s.slots|, 0, ip)
    requires (p.distinct ==> ip != NAME) && Allowed(p, s, Request(NAME, ip, AskUser))
    ensures Run(p, s, es, t) && Recent(t) && t.now == s.now
    ensures |Of(t.log, NAME)| == |Of(s.log, NAME)| + |s.slots| * Each(ip)
  {
    var k := |s.slots|;
    var enter := EnterAll(p, s, k, ip);
    var full := s.(slots := Filled(k, k, ip));
    var leave;
    leave, t := LeaveAll(p, full, k, ip);
    RunJoin(p, s, enter, full, leave, t);
    es := enter + leave;
  }

  lemma {:induction false} AllWithin(ts: seq<int>, now: int, window: nat)
    requires AllAt(ts, now) && window > 0
    ensures Within(ts, now, window) == |ts|
  {
    if ts != [] { AllWithin(ts[1..], now, window); }
  }

  // ---- results ----

  /** Some run of k overlapping requests has exactly as many failures of one key in one window as the bound allows. */
  lemma BoundIsReached(p: Params, k: nat, now: int) returns (es: seq<Event>, t: State)
    requires p.maxFail > 0 && k > 0 && p.window > 0
    ensures Run(p, Init(k, now), es, t)
    ensures Within(Of(t.log, NAME), now, p.window) == p.maxFail - 1 + (if p.distinct then k else 2 * k)
  {
    var ip := if p.distinct then ADDRESS else NAME;
    var warm, s := Warm(p, k, now, p.maxFail - 1);
    assert s.slots == Filled(k, 0, ip);
    var all;
    all, t := AllAtOnce(p, s, ip);
    RunJoin(p, Init(k, now), warm, s, all, t);
    es := warm + all;
    AllWithin(Of(t.log, NAME), now, p.window);
  }

  /** No run of k overlapping requests exceeds maxFail + k - 1 failures of a key in a window. */
  ghost predicate BoundHolds(p: Params, k: nat, now: int) {
    forall es, t, key: Key, e: int ::
      Run(p, Init(k, now), es, t) ==> Within(Of(t.log, key), e, p.window) <= p.maxFail + k - 1
  }

  /** That bound holds exactly if no user name is taken that equals the request's own address as text. */
  lemma BoundHoldsIffDistinct(p: Params, k: nat, now: int)
    requires p.maxFail > 0 && k > 0 && p.window > 0
    ensures BoundHolds(p, k, now) <==> p.distinct
  {
    if p.distinct {
      forall es, t, key: Key, e: int | Run(p, Init(k, now), es, t)
        ensures Within(Of(t.log, key), e, p.window) <= p.maxFail + k - 1
      {
        FailuresPerWindow(p, k, now, es, t, key, e);
      }
    } else {
      var es, t := BoundIsReached(p, k, now);
      assert Within(Of(t.log, NAME), now, p.window) > p.maxFail + k - 1;
    }
  }

  /** Where the texts may be equal, the doubled bound is reached, for every limit and every overlap. */
  lemma SameTextExceedsLimit(p: Params, k: nat, now: int)
    requires p.maxFail > 0 && k > 0 && p.window > 0 && !p.distinct
    ensures exists es, t ::
              Run(p, Init(k, now), es, t) && Within(Of(t.log, NAME), now, p.window) == p.maxFail + 2 * k - 1
  {
    var es, t := BoundIsReached(p, k, now);
  }
}
