/**
  Overlapping login requests against one limiter (internal/auth/handler.go).

  Each slot holds one request in flight; with K slots at most K overlap. The
  steps are the calls into the limiter, in the order Login makes them; whether
  captcha and password are right, and whether the session can be issued, is
  free. Keys evicted by a Fail are free too, so the result covers every
  eviction.
*/
module Login {
  import opened Wrappers
  import opened FailureLog

  const CAPTCHA_THRESHOLD: nat := 2

  datatype Pc =
    | AskUser | AskIp | CountUser | CountIp | Captcha | Password
    | FailUser | FailIp | ResetUser | ResetIp

  datatype Request = Request(user: Key, ip: Key, pc: Pc)

  datatype State = State(fails: Times, log: Times, now: int, slots: seq<Option<Request>>)

  datatype Event =
    | Tick(seconds: nat)
    | Arrive(slot: nat, user: Key, ip: Key)
    | Advance(slot: nat, right: bool, gone: set<Key>)

  datatype Params = Params(maxFail: nat, window: nat, distinct: bool)

  function Init(k: nat, now: int): State {
    State(map[], map[], now, seq(k, _ => None))
  }

  predicate InFlight(s: State, i: nat) {
    i < |s.slots| && s.slots[i].Some?
  }

  predicate Enabled(p: Params, s: State, e: Event) {
    match e
    case Tick(_) => true
    case Arrive(i, user, ip) => i < |s.slots| && s.slots[i].None? && (p.distinct ==> user != ip)
    case Advance(i, _, gone) =>
      InFlight(s, i) &&
      var r := s.slots[i].value;
      var left := PruneKey(s.fails, if r.pc.FailUser? then r.user else r.ip, s.now - p.window);
      // only a Fail of a key with nothing left in the window evicts, and never that key
      (if r.pc.FailUser? then (r.user in left ==> gone == {}) && r.user !in gone
       else if r.pc.FailIp? then (r.ip in left ==> gone == {}) && r.ip !in gone
       else gone == {})
  }

  function Put(s: State, i: nat, r: Option<Request>): State
    requires i < |s.slots|
  {
    s.(slots := s.slots[i := r])
  }

  /** prune, as Allow and FailCount run it: the count and the pruned table. */
  function Count(p: Params, s: State, key: Key): nat {
    |Pruned(Of(s.fails, key), s.now - p.window)|
  }

  function AfterPrune(p: Params, s: State, key: Key): State {
    s.(fails := PruneKey(s.fails, key, s.now - p.window))
  }

  function AfterFail(p: Params, s: State, key: Key, gone: set<Key>): State {
    s.(fails := FailKey(s.fails, key, s.now, s.now - p.window, gone), log := LogFail(s.log, key, s.now, gone))
  }

  function AfterReset(s: State, key: Key): State {
    s.(fails := s.fails - {key}, log := s.log - {key})
  }

  function AdvanceStep(p: Params, s: State, i: nat, right: bool, gone: set<Key>): State
    requires InFlight(s, i)
  {
    var r := s.slots[i].value;
    match r.pc
    case AskUser =>
      Put(AfterPrune(p, s, r.user), i, if Count(p, s, r.user) < p.maxFail then Some(r.(pc := AskIp)) else None)
    case AskIp =>
      Put(AfterPrune(p, s, r.ip), i, if Count(p, s, r.ip) < p.maxFail then Some(r.(pc := CountUser)) else None)
    case CountUser =>
      Put(AfterPrune(p, s, r.user), i,
          Some(r.(pc := if Count(p, s, r.user) >= CAPTCHA_THRESHOLD then Captcha else CountIp)))
    case CountIp =>
      Put(AfterPrune(p, s, r.ip), i,
          Some(r.(pc := if Count(p, s, r.ip) >= CAPTCHA_THRESHOLD then Captcha else Password)))
    case Captcha => Put(s, i, Some(r.(pc := if right then Password else FailUser)))
    case Password => Put(s, i, Some(r.(pc := if right then ResetUser else FailUser)))
    case FailUser => Put(AfterFail(p, s, r.user, gone), i, Some(r.(pc := FailIp)))
    case FailIp => Put(AfterFail(p, s, r.ip, gone), i, None)
    case ResetUser =>
      // `right` here says that the session could be issued; Reset runs only then
      if right then Put(AfterReset(s, r.user), i, Some(r.(pc := ResetIp))) else Put(s, i, None)
    case ResetIp => Put(AfterReset(s, r.ip), i, None)
  }

  function Step(p: Params, s: State, e: Event): State
    requires Enabled(p, s, e)
  {
    match e
    case Tick(d) => s.(now := s.now + d)
    case Arrive(i, user, ip) => Put(s, i, Some(Request(user, ip, AskUser)))
    case Advance(i, right, gone) => AdvanceStep(p, s, i, right, gone)
  }

  ghost predicate Run(p: Params, s: State, es: seq<Event>, t: State)
    decreases |es|
  {
    if es == [] then s == t
    else Enabled(p, s, es[0]) && Run(p, Step(p, s, es[0]), es[1..], t)
  }

  // ---- how many failures are still on their way ----

  /** Failures on `key` that a request past its Allow may still record. */
  function Owes(r: Option<Request>, key: Key): nat {
    match r
    case None => 0
    case Some(q) =>
      (if q.user == key && !q.pc.AskUser? && !q.pc.FailIp? && !q.pc.ResetUser? && !q.pc.ResetIp? then 1 else 0) +
      (if q.ip == key && !q.pc.AskUser? && !q.pc.AskIp? && !q.pc.ResetUser? && !q.pc.ResetIp? then 1 else 0)
  }

  function Owed(slots: seq<Option<Request>>, key: Key): nat {
    if slots == [] then 0 else Owes(slots[0], key) + Owed(slots[1..], key)
  }

  predicate TextsOk(p: Params, r: Option<Request>) {
    p.distinct && r.Some? ==> r.value.user != r.value.ip
  }

  predicate AllTextsOk(p: Params, slots: seq<Option<Request>>) {
    forall i :: 0 <= i < |slots| ==> TextsOk(p, slots[i])
  }

  /** The most that n requests can owe on one key: one failure each, or two where both texts may agree. */
  function MostOwed(p: Params, n: nat): nat {
    if p.distinct then n else n + n
  }

  function Most(p: Params, n: nat): int {
    p.maxFail - 1 + MostOwed(p, n)
  }

  lemma {:induction false} OwedUpdate(slots: seq<Option<Request>>, i: nat, r: Option<Request>, key: Key)
    requires i < |slots|
    ensures Owed(slots[i := r], key) == Owed(slots, key) - Owes(slots[i], key) + Owes(r, key)
  {
    if i == 0 {
      assert slots[i := r][1..] == slots[1..];
    } else {
      assert slots[i := r][1..] == slots[1..][i - 1 := r];
      OwedUpdate(slots[1..], i - 1, r, key);
    }
  }

  lemma {:induction false} OwedIsBounded(p: Params, slots: seq<Option<Request>>, key: Key)
    requires AllTextsOk(p, slots)
    ensures Owed(slots, key) <= MostOwed(p, |slots|)
  {
    if slots != [] {
      assert forall i :: 0 <= i < |slots[1..]| ==> slots[1..][i] == slots[i + 1];
      assert TextsOk(p, slots[0]);
      OwedIsBounded(p, slots[1..], key);
    }
  }

  // ---- the bound ----

  /** The failures of `ts` in the interval (e - window, e]. */
  function Within(ts: seq<int>, e: int, window: nat): nat {
    if ts == [] then 0
    else (if e - window < ts[0] <= e then 1 else 0) + Within(ts[1..], e, window)
  }

  lemma {:induction false} WithinPush(ts: seq<int>, t: int, e: int, window: nat)
    ensures Within(ts + [t], e, window) == Within(ts, e, window) + if e - window < t <= e then 1 else 0
  {
    if ts == [] {
      assert ts + [t] == [t] && [t][1..] == [];
    } else {
      assert (ts + [t])[1..] == ts[1..] + [t];
      WithinPush(ts[1..], t, e, window);
    }
  }

  lemma {:induction false} WithinOfLate(ts: seq<int>, e: int, window: nat, cut: int)
    requires cut <= e - window
    ensures Within(ts, e, window) <= |Pruned(ts, cut)|
  {
    if ts != [] {
      WithinOfLate(ts[1..], e, window, cut);
    }
  }

  /** No interval as long as the window holds more than `most` of `ts`. */
  ghost predicate Bounded(ts: seq<int>, window: nat, most: int) {
    forall e :: Within(ts, e, window) <= most
  }

  /** What is in the window now, with what is still on its way, and what was in any window before. */
  ghost predicate Books(ts: seq<int>, owed: nat, now: int, window: nat, most: int) {
    |Pruned(ts, now - window)| + owed <= most && Bounded(ts, window, most)
  }

  ghost predicate KeyInv(p: Params, s: State, key: Key) {
    Books(Of(s.log, key), Owed(s.slots, key), s.now, p.window, Most(p, |s.slots|))
  }

  ghost predicate Inv(p: Params, s: State) {
    && Refines(s.fails, s.log, s.now, p.window)
    && AllTextsOk(p, s.slots)
    && forall key: Key :: KeyInv(p, s, key)
  }

  lemma TickKeeps(p: Params, s: State, d: nat)
    requires |s.slots| > 0 && p.maxFail > 0 && Inv(p, s)
    ensures Inv(p, s.(now := s.now + d))
  {
    var t := s.(now := s.now + d);
    Later(s.fails, s.log, s.now, t.now, p.window);
    forall key: Key
      ensures KeyInv(p, t, key)
    {
      assert KeyInv(p, s, key);
      PrunedTwice(Of(s.log, key), s.now - p.window, t.now - p.window);
    }
  }

  /** A request moves without touching the log: what it owes may not grow, unless it was just allowed. */
  lemma MoveKeeps(p: Params, s: State, t: State, i: nat, r: Option<Request>)
    requires p.maxFail > 0 && i < |s.slots| && Inv(p, s)
    requires t.slots == s.slots[i := r] && t.log == s.log && t.now == s.now
    requires Refines(t.fails, t.log, t.now, p.window)
    requires TextsOk(p, r)
    requires forall key: Key :: Owes(r, key) > Owes(s.slots[i], key) ==>
               |Pruned(Of(s.log, key), s.now - p.window)| < p.maxFail
    ensures Inv(p, t)
  {
    forall key: Key
      ensures KeyInv(p, t, key)
    {
      assert KeyInv(p, s, key);
      OwedUpdate(s.slots, i, r, key);
      OwedIsBounded(p, t.slots, key);
    }
  }

  lemma CountIsLogged(p: Params, s: State, key: Key)
    requires Refines(s.fails, s.log, s.now, p.window)
    ensures Count(p, s, key) == |Pruned(Of(s.log, key), s.now - p.window)|
    ensures Refines(AfterPrune(p, s, key).fails, s.log, s.now, p.window)
  {
    PruneRefines(s.fails, s.log, s.now, p.window, key);
  }

  /** One key's books when a failure is recorded now and one fewer is owed. */
  lemma PushKeeps(ts: seq<int>, owed: nat, now: int, window: nat, most: int)
    requires Books(ts, owed + 1, now, window, most)
    ensures Books(ts + [now], owed, now, window, most)
  {
    PrunedConcat(ts, [now], now - window);
    forall e
      ensures Within(ts + [now], e, window) <= most
    {
      WithinPush(ts, now, e, window);
      if e - window < now <= e {
        WithinOfLate(ts, e, window, now - window);
      }
    }
  }

  lemma EmptyKeeps(owed: nat, now: int, window: nat, most: int)
    requires owed <= most
    ensures Books([], owed, now, window, most)
  {
  }

  lemma FailKeeps(p: Params, s: State, i: nat, key: Key, gone: set<Key>, r: Option<Request>)
    requires p.maxFail > 0 && InFlight(s, i) && Inv(p, s) && key !in gone
    requires TextsOk(p, r)
    requires Owes(r, key) + 1 == Owes(s.slots[i], key)
    requires forall k: Key :: k != key ==> Owes(r, k) <= Owes(s.slots[i], k)
    ensures Inv(p, Put(AfterFail(p, s, key, gone), i, r))
  {
    var t := Put(AfterFail(p, s, key, gone), i, r);
    var most := Most(p, |s.slots|);
    FailRefines(s.fails, s.log, s.now, p.window, key, gone);
    forall k: Key
      ensures KeyInv(p, t, k)
    {
      assert KeyInv(p, s, k);
      OwedUpdate(s.slots, i, r, k);
      OwedIsBounded(p, t.slots, k);
      LogFailAt(s.log, key, s.now, gone, k);
      if k == key {
        PushKeeps(Of(s.log, k), Owed(t.slots, k), s.now, p.window, most);
      } else if k in gone {
        EmptyKeeps(Owed(t.slots, k), s.now, p.window, most);
      }
    }
  }

  lemma ResetKeeps(p: Params, s: State, i: nat, key: Key, r: Option<Request>)
    requires p.maxFail > 0 && InFlight(s, i) && Inv(p, s)
    requires TextsOk(p, r)
    requires forall k: Key :: Owes(r, k) <= Owes(s.slots[i], k)
    ensures Inv(p, Put(AfterReset(s, key), i, r))
  {
    var t := Put(AfterReset(s, key), i, r);
    DropRefines(s.fails, s.log, s.now, p.window, {key});
    forall k: Key
      ensures KeyInv(p, t, k)
    {
      assert KeyInv(p, s, k);
      OwedUpdate(s.slots, i, r, k);
      OwedIsBounded(p, t.slots, k);
      if k == key {
        EmptyKeeps(Owed(t.slots, k), s.now, p.window, Most(p, |s.slots|));
        assert Of(t.log, k) == [];
      } else {
        assert Of(t.log, k) == Of(s.log, k);
      }
    }
  }

  /** Requests that only look: Allow, FailCount, captcha, password. */
  lemma LookKeeps(p: Params, s: State, i: nat, right: bool)
    requires p.maxFail > 0 && Inv(p, s) && InFlight(s, i)
    requires var pc := s.slots[i].value.pc; !pc.FailUser? && !pc.FailIp? && !pc.ResetUser? && !pc.ResetIp?
    ensures Inv(p, AdvanceStep(p, s, i, right, {}))
  {
    var r := s.slots[i].value;
    var t := AdvanceStep(p, s, i, right, {});
    CountIsLogged(p, s, r.user);
    CountIsLogged(p, s, r.ip);
    MoveKeeps(p, s, t, i, t.slots[i]);
  }

  lemma AdvanceKeeps(p: Params, s: State, i: nat, right: bool, gone: set<Key>)
    requires p.maxFail > 0 && Inv(p, s) && Enabled(p, s, Advance(i, right, gone))
    ensures Inv(p, AdvanceStep(p, s, i, right, gone))
  {
    var r := s.slots[i].value;
    match r.pc {
      case FailUser => FailKeeps(p, s, i, r.user, gone, Some(r.(pc := FailIp)));
      case FailIp => FailKeeps(p, s, i, r.ip, gone, None);
      case ResetUser =>
        if right {
          ResetKeeps(p, s, i, r.user, Some(r.(pc := ResetIp)));
        } else {
          MoveKeeps(p, s, Put(s, i, None), i, None);
        }
      case ResetIp => ResetKeeps(p, s, i, r.ip, None);
      case _ => LookKeeps(p, s, i, right);
    }
  }

  lemma StepKeeps(p: Params, s: State, e: Event)
    requires p.maxFail > 0 && |s.slots| > 0 && Inv(p, s) && Enabled(p, s, e)
    ensures Inv(p, Step(p, s, e)) && |Step(p, s, e).slots| == |s.slots|
  {
    match e {
      case Tick(d) => TickKeeps(p, s, d);
      case Arrive(i, user, ip) => MoveKeeps(p, s, Step(p, s, e), i, Some(Request(user, ip, AskUser)));
      case Advance(i, right, gone) => AdvanceKeeps(p, s, i, right, gone);
    }
  }

  lemma {:induction false} RunKeeps(p: Params, s: State, es: seq<Event>, t: State)
    requires p.maxFail > 0 && |s.slots| > 0 && Inv(p, s) && Run(p, s, es, t)
    ensures Inv(p, t) && |t.slots| == |s.slots|
    decreases |es|
  {
    if es != [] {
      StepKeeps(p, s, es[0]);
      RunKeeps(p, Step(p, s, es[0]), es[1..], t);
    }
  }

  lemma {:induction false} NothingOwed(slots: seq<Option<Request>>, key: Key)
    requires forall i :: 0 <= i < |slots| ==> slots[i].None?
    ensures Owed(slots, key) == 0
  {
    if slots != [] { NothingOwed(slots[1..], key); }
  }

  /**
    With K overlapping requests whose user name and address differ as text, no
    interval as long as the window holds more than maxFail + K - 1 failures
    recorded for a key since its last Reset or eviction. Where the two texts may
    agree a request records twice, and the bound is maxFail + 2K - 1.
  */
  lemma FailuresPerWindow(p: Params, k: nat, now: int, es: seq<Event>, t: State, key: Key, e: int)
    requires p.maxFail > 0 && k > 0 && Run(p, Init(k, now), es, t)
    ensures p.distinct ==> Within(Of(t.log, key), e, p.window) <= p.maxFail + k - 1
    ensures Within(Of(t.log, key), e, p.window) <= p.maxFail + 2 * k - 1
  {
    var s := Init(k, now);
    forall q: Key
      ensures KeyInv(p, s, q) && KeyOk(s.fails, s.log, s.now, p.window, q)
    {
      NothingOwed(s.slots, q);
      EmptyKeeps(0, now, p.window, Most(p, k));
    }
    RunKeeps(p, s, es, t);
    assert KeyInv(p, t, key);
    assert Bounded(Of(t.log, key), p.window, Most(p, |t.slots|));
  }

  /** Requests that do not overlap: at most maxFail failures in any window. */
  lemma SequentialLogins(p: Params, now: int, es: seq<Event>, t: State, key: Key, e: int)
    requires p.maxFail > 0 && p.distinct && Run(p, Init(1, now), es, t)
    ensures Within(Of(t.log, key), e, p.window) <= p.maxFail
  {
    FailuresPerWindow(p, 1, now, es, t, key, e);
  }

  lemma {:induction false} RunJoin(p: Params, s: State, es: seq<Event>, t: State, fs: seq<Event>, u: State)
    requires Run(p, s, es, t) && Run(p, t, fs, u)
    ensures Run(p, s, es + fs, u)
    decreases |es|
  {
    if es == [] {
      assert es + fs == fs;
    } else {
      RunJoin(p, Step(p, s, es[0]), es[1..], t, fs, u);
      assert (es + fs)[1..] == es[1..] + fs;
    }
  }
}
