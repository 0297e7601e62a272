/**
  The 4096-key cap at the login entry point (internal/auth/handler.go:52-112,
  internal/auth/ratelimit.go:44-62): Login trims the user name and takes an
  empty one, and every failed login is recorded for its name and then for its
  address. Evictions here are those the limiter's loop can make.
*/
module LoginFlood {
  import opened Wrappers
  import opened FailureLog
  import opened Eviction
  import opened Login
  import LimiterRuns

  predicate Fails(pc: Pc) { pc.FailUser? || pc.FailIp? }

  /** The text a request at FailUser or FailIp records a failure of. */
  function FailedKey(r: Request): Key {
    if r.pc.FailUser? then r.user else r.ip
  }

  ghost predicate MayEvict(p: Params, fails: Times, now: int, key: Key, gone: set<Key>) {
    MakesRoom(PruneKey(fails, key, now - p.window), key, gone)
  }

  /** A recorded failure evicts only what passes over the map can find. */
  ghost predicate Evicting(p: Params, s: State, e: Event) {
    e.Advance? && InFlight(s, e.slot) && Fails(s.slots[e.slot].value.pc) ==>
      MayEvict(p, s.fails, s.now, FailedKey(s.slots[e.slot].value), e.gone)
  }

  /** The steps of a run, the last one outermost. */
  datatype Path = Begin | Go(before: Path, e: Event)

  /** An address is never empty; a user name is only if `emptyNames`. */
  predicate Admitted(e: Event, emptyNames: bool) {
    e.Arrive? ==> e.ip != "" && (emptyNames || e.user != "")
  }

  ghost predicate Leads(path: Path, p: Params, emptyNames: bool, k: nat, now: int, t: State) {
    match path
    case Begin => t == Init(k, now)
    case Go(before, e) =>
      exists s :: Leads(before, p, emptyNames, k, now, s) && Moves(p, emptyNames, s, e, t)
  }

  ghost predicate Moves(p: Params, emptyNames: bool, s: State, e: Event, t: State) {
    Enabled(p, s, e) && Evicting(p, s, e) && Admitted(e, emptyNames) && t == Step(p, s, e)
  }

  ghost predicate Reaches(p: Params, emptyNames: bool, k: nat, now: int, t: State) {
    exists path :: Leads(path, p, emptyNames, k, now, t)
  }

  lemma Moved(p: Params, emptyNames: bool, k: nat, now: int, s: State, e: Event)
    requires Reaches(p, emptyNames, k, now, s)
    requires Enabled(p, s, e) && Evicting(p, s, e) && Admitted(e, emptyNames)
    ensures Reaches(p, emptyNames, k, now, Step(p, s, e))
  {
    var path :| Leads(path, p, emptyNames, k, now, s);
    assert Moves(p, emptyNames, s, e, Step(p, s, e));
    assert Leads(Go(path, e), p, emptyNames, k, now, Step(p, s, e));
  }

  // ---- without empty names ----

  predicate Named(r: Option<Request>) {
    r.Some? ==> r.value.user != "" && r.value.ip != ""
  }

  predicate AllNamed(slots: seq<Option<Request>>) {
    forall i :: 0 <= i < |slots| ==> Named(slots[i])
  }

  predicate Looks(pc: Pc) { !Fails(pc) && !pc.ResetUser? && !pc.ResetIp? }

  predicate PrunesAtMost(p: Params, s: State, r: Request, fails: Times) {
    var cut := s.now - p.window;
    fails == s.fails || fails == PruneKey(s.fails, r.user, cut) || fails == PruneKey(s.fails, r.ip, cut)
  }

  lemma AsksTable(p: Params, s: State, i: nat, right: bool, gone: set<Key>)
    requires InFlight(s, i) && (s.slots[i].value.pc.AskUser? || s.slots[i].value.pc.AskIp?)
    ensures PrunesAtMost(p, s, s.slots[i].value, AdvanceStep(p, s, i, right, gone).fails)
  {
  }

  lemma CountsTable(p: Params, s: State, i: nat, right: bool, gone: set<Key>)
    requires InFlight(s, i) && (s.slots[i].value.pc.CountUser? || s.slots[i].value.pc.CountIp?)
    ensures PrunesAtMost(p, s, s.slots[i].value, AdvanceStep(p, s, i, right, gone).fails)
  {
  }

  /** Looking changes the table only by pruning one of the two texts. */
  lemma LooksTable(p: Params, s: State, i: nat, right: bool, gone: set<Key>)
    requires InFlight(s, i) && Looks(s.slots[i].value.pc)
    ensures PrunesAtMost(p, s, s.slots[i].value, AdvanceStep(p, s, i, right, gone).fails)
  {
    var pc := s.slots[i].value.pc;
    if pc.AskUser? || pc.AskIp? {
      AsksTable(p, s, i, right, gone);
    } else if pc.CountUser? || pc.CountIp? {
      CountsTable(p, s, i, right, gone);
    }
  }

  lemma LookKeepsCap(p: Params, s: State, i: nat, right: bool, gone: set<Key>)
    requires LimiterRuns.Bounded(s.fails) && InFlight(s, i) && Looks(s.slots[i].value.pc)
    ensures LimiterRuns.Bounded(AdvanceStep(p, s, i, right, gone).fails)
  {
    var r := s.slots[i].value;
    LimiterRuns.LookBounded(s.fails, r.user, s.now - p.window);
    LimiterRuns.LookBounded(s.fails, r.ip, s.now - p.window);
    LooksTable(p, s, i, right, gone);
  }

  lemma ResetKeepsCap(p: Params, s: State, i: nat, right: bool, gone: set<Key>)
    requires LimiterRuns.Bounded(s.fails) && InFlight(s, i)
    requires var pc := s.slots[i].value.pc; pc.ResetUser? || pc.ResetIp?
    ensures LimiterRuns.Bounded(AdvanceStep(p, s, i, right, gone).fails)
  {
    var r := s.slots[i].value;
    LimiterRuns.LessBounded(s.fails, s.fails - {r.user});
    LimiterRuns.LessBounded(s.fails, s.fails - {r.ip});
  }

  /** What FailUser and FailIp do to the table. */
  lemma FailsTable(p: Params, s: State, i: nat, right: bool, gone: set<Key>)
    requires InFlight(s, i) && Fails(s.slots[i].value.pc)
    ensures AdvanceStep(p, s, i, right, gone).fails
            == FailKey(s.fails, FailedKey(s.slots[i].value), s.now, s.now - p.window, gone)
  {
  }

  lemma FailKeepsCap(p: Params, s: State, i: nat, right: bool, gone: set<Key>)
    requires LimiterRuns.Bounded(s.fails) && InFlight(s, i) && Named(s.slots[i]) && Fails(s.slots[i].value.pc)
    requires MayEvict(p, s.fails, s.now, FailedKey(s.slots[i].value), gone)
    ensures LimiterRuns.Bounded(AdvanceStep(p, s, i, right, gone).fails)
  {
    LimiterRuns.FailBounded(s.fails, FailedKey(s.slots[i].value), s.now, s.now - p.window, gone);
    FailsTable(p, s, i, right, gone);
  }

  lemma AdvanceKeepsCap(p: Params, s: State, i: nat, right: bool, gone: set<Key>)
    requires LimiterRuns.Bounded(s.fails) && InFlight(s, i) && Named(s.slots[i])
    requires Evicting(p, s, Advance(i, right, gone))
    ensures LimiterRuns.Bounded(AdvanceStep(p, s, i, right, gone).fails)
  {
    var pc := s.slots[i].value.pc;
    if Fails(pc) {
      FailKeepsCap(p, s, i, right, gone);
    } else if pc.ResetUser? || pc.ResetIp? {
      ResetKeepsCap(p, s, i, right, gone);
    } else {
      LookKeepsCap(p, s, i, right, gone);
    }
  }

  /** Only slot i changes, and its request keeps its texts. */
  predicate SameTexts(s: State, i: nat, t: State)
    requires InFlight(s, i)
  {
    && |t.slots| == |s.slots| && (forall j :: 0 <= j < |s.slots| && j != i ==> t.slots[j] == s.slots[j])
    && (t.slots[i].Some? ==> t.slots[i].value == s.slots[i].value.(pc := t.slots[i].value.pc))
  }

  lemma PutKeepsTexts(s: State, i: nat, u: State, r: Option<Request>)
    requires InFlight(s, i) && u.slots == s.slots
    requires r.Some? ==> r.value == s.slots[i].value.(pc := r.value.pc)
    ensures SameTexts(s, i, Put(u, i, r))
  {
  }

  lemma FailKeepsTexts(p: Params, s: State, i: nat, right: bool, gone: set<Key>)
    requires InFlight(s, i) && var pc := s.slots[i].value.pc; pc.FailUser? || pc.FailIp?
    ensures SameTexts(s, i, AdvanceStep(p, s, i, right, gone))
  {
    var r := s.slots[i].value;
    PutKeepsTexts(s, i, AfterFail(p, s, r.user, gone), Some(r.(pc := FailIp)));
    PutKeepsTexts(s, i, AfterFail(p, s, r.ip, gone), None);
  }

  lemma ResetKeepsTexts(p: Params, s: State, i: nat, right: bool, gone: set<Key>)
    requires InFlight(s, i) && var pc := s.slots[i].value.pc; pc.ResetUser? || pc.ResetIp?
    ensures SameTexts(s, i, AdvanceStep(p, s, i, right, gone))
  {
  }

  lemma AskKeepsTexts(p: Params, s: State, i: nat, right: bool, gone: set<Key>)
    requires InFlight(s, i) && var pc := s.slots[i].value.pc; pc.AskUser? || pc.AskIp?
    ensures SameTexts(s, i, AdvanceStep(p, s, i, right, gone))
  {
  }

  lemma CountKeepsTexts(p: Params, s: State, i: nat, right: bool, gone: set<Key>)
    requires InFlight(s, i)
    requires var pc := s.slots[i].value.pc; pc.CountUser? || pc.CountIp? || pc.Captcha? || pc.Password?
    ensures SameTexts(s, i, AdvanceStep(p, s, i, right, gone))
  {
  }

  lemma AdvanceKeepsTexts(p: Params, s: State, i: nat, right: bool, gone: set<Key>)
    requires InFlight(s, i)
    ensures SameTexts(s, i, AdvanceStep(p, s, i, right, gone))
  {
    var pc := s.slots[i].value.pc;
    if pc.FailUser? || pc.FailIp? {
      FailKeepsTexts(p, s, i, right, gone);
    } else if pc.ResetUser? || pc.ResetIp? {
      ResetKeepsTexts(p, s, i, right, gone);
    } else if pc.AskUser? || pc.AskIp? {
      AskKeepsTexts(p, s, i, right, gone);
    } else {
      CountKeepsTexts(p, s, i, right, gone);
    }
  }

  lemma StepKeepsNames(p: Params, s: State, e: Event)
    requires AllNamed(s.slots) && Enabled(p, s, e) && Admitted(e, false)
    ensures AllNamed(Step(p, s, e).slots)
  {
    if e.Advance? {
      assert Named(s.slots[e.slot]);
      AdvanceKeepsTexts(p, s, e.slot, e.right, e.gone);
    }
  }

  lemma {:induction false} CapOnEveryPath(path: Path, p: Params, k: nat, now: int, t: State)
    requires Leads(path, p, false, k, now, t)
    ensures LimiterRuns.Bounded(t.fails) && AllNamed(t.slots)
  {
    if path.Go? {
      var s :| Leads(path.before, p, false, k, now, s) && Moves(p, false, s, path.e, t);
      CapOnEveryPath(path.before, p, k, now, s);
      StepKeepsNames(p, s, path.e);
      if path.e.Advance? {
        assert Named(s.slots[path.e.slot]);
        AdvanceKeepsCap(p, s, path.e.slot, path.e.right, path.e.gone);
      }
    }
  }

  // ---- with them ----

  predicate Expired(p: Params, s: State, key: Key) {
    Pruned(Of(s.fails, key), s.now - p.window) == []
  }

  lemma Unknown(p: Params, s: State, key: Key)
    requires key !in s.fails
    ensures Expired(p, s, key) && AfterPrune(p, s, key) == s
  {
    assert s.fails - {key} == s.fails;
  }

  lemma StillExpired(p: Params, s: State, key: Key, other: Key)
    requires Expired(p, s, key)
    ensures Expired(p, s.(fails := s.fails - {other}), key)
  {
  }

  function With(s: State, fails: Times, r: Option<Request>): State
    requires s.slots != []
  {
    s.(fails := fails, slots := s.slots[0 := r])
  }

  /** A reachable state in which slot 0 holds this request, or none. */
  ghost predicate At(p: Params, k: nat, now: int, s: State, r: Option<Request>) {
    s.slots != [] && s.slots[0] == r && Reaches(p, true, k, now, s)
  }

  lemma Arrives(p: Params, k: nat, now: int, s: State, user: Key, ip: Key)
    requires At(p, k, now, s, None) && user != ip && ip != ""
    ensures At(p, k, now, With(s, s.fails, Some(Request(user, ip, AskUser))), Some(Request(user, ip, AskUser)))
  {
    Moved(p, true, k, now, s, Arrive(0, user, ip));
  }

  lemma AsksUser(p: Params, k: nat, now: int, s: State, user: Key, ip: Key)
    requires At(p, k, now, s, Some(Request(user, ip, AskUser))) && p.maxFail > 0 && Expired(p, s, user)
    ensures At(p, k, now, With(s, s.fails - {user}, Some(Request(user, ip, AskIp))), Some(Request(user, ip, AskIp)))
  {
    Moved(p, true, k, now, s, Advance(0, false, {}));
  }

  lemma AsksIp(p: Params, k: nat, now: int, s: State, user: Key, ip: Key)
    requires At(p, k, now, s, Some(Request(user, ip, AskIp))) && p.maxFail > 0 && Expired(p, s, ip)
    ensures At(p, k, now, With(s, s.fails - {ip}, Some(Request(user, ip, CountUser))), Some(Request(user, ip, CountUser)))
  {
    Moved(p, true, k, now, s, Advance(0, false, {}));
  }

  lemma CountsUser(p: Params, k: nat, now: int, s: State, user: Key, ip: Key)
    requires At(p, k, now, s, Some(Request(user, ip, CountUser))) && user !in s.fails
    ensures At(p, k, now, With(s, s.fails, Some(Request(user, ip, CountIp))), Some(Request(user, ip, CountIp)))
  {
    Unknown(p, s, user);
    Moved(p, true, k, now, s, Advance(0, false, {}));
  }

  lemma CountsIp(p: Params, k: nat, now: int, s: State, user: Key, ip: Key)
    requires At(p, k, now, s, Some(Request(user, ip, CountIp))) && ip !in s.fails
    ensures At(p, k, now, With(s, s.fails, Some(Request(user, ip, Password))), Some(Request(user, ip, Password)))
  {
    Unknown(p, s, ip);
    Moved(p, true, k, now, s, Advance(0, false, {}));
  }

  lemma IsWrong(p: Params, k: nat, now: int, s: State, user: Key, ip: Key)
    requires At(p, k, now, s, Some(Request(user, ip, Password)))
    ensures At(p, k, now, With(s, s.fails, Some(Request(user, ip, FailUser))), Some(Request(user, ip, FailUser)))
  {
    Moved(p, true, k, now, s, Advance(0, false, {}));
  }

  lemma FailsUser(p: Params, k: nat, now: int, s: State, user: Key, ip: Key) returns (t: State)
    requires At(p, k, now, s, Some(Request(user, ip, FailUser))) && user !in s.fails && Stops(s.fails)
    ensures At(p, k, now, t, Some(Request(user, ip, FailIp)))
    ensures t.fails == s.fails[user := [s.now]] && t.now == s.now && |t.slots| == |s.slots|
  {
    LimiterRuns.FailNew(s.fails, user, s.now, s.now - p.window);
    LimiterRuns.NothingEvicted(s.fails, user);
    Moved(p, true, k, now, s, Advance(0, false, {}));
    t := Step(p, s, Advance(0, false, {}));
  }

  lemma FailsIp(p: Params, k: nat, now: int, s: State, user: Key, ip: Key) returns (t: State)
    requires At(p, k, now, s, Some(Request(user, ip, FailIp))) && ip !in s.fails && Stops(s.fails)
    ensures At(p, k, now, t, None)
    ensures t.fails == s.fails[ip := [s.now]] && t.now == s.now && |t.slots| == |s.slots|
  {
    LimiterRuns.FailNew(s.fails, ip, s.now, s.now - p.window);
    LimiterRuns.NothingEvicted(s.fails, ip);
    Moved(p, true, k, now, s, Advance(0, false, {}));
    t := Step(p, s, Advance(0, false, {}));
  }

  /** A request of two texts without a failure in the window is let through. */
  lemma Enters(p: Params, k: nat, now: int, s: State, user: Key, ip: Key) returns (t: State)
    requires At(p, k, now, s, None) && p.maxFail > 0 && user != ip && ip != ""
    requires Expired(p, s, user) && Expired(p, s, ip)
    ensures At(p, k, now, t, Some(Request(user, ip, CountUser)))
    ensures t.fails == s.fails - {user} - {ip} && t.now == s.now
  {
    Arrives(p, k, now, s, user, ip);
    var s1 := With(s, s.fails, Some(Request(user, ip, AskUser)));
    AsksUser(p, k, now, s1, user, ip);
    var s2 := With(s1, s1.fails - {user}, Some(Request(user, ip, AskIp)));
    StillExpired(p, s1, ip, user);
    AsksIp(p, k, now, s2, user, ip);
    t := With(s2, s2.fails - {ip}, Some(Request(user, ip, CountUser)));
  }

  lemma GoesWrong(p: Params, k: nat, now: int, s: State, user: Key, ip: Key) returns (t: State)
    requires At(p, k, now, s, Some(Request(user, ip, CountUser))) && user !in s.fails && ip !in s.fails
    ensures At(p, k, now, t, Some(Request(user, ip, FailUser)))
    ensures t.fails == s.fails && t.now == s.now
  {
    CountsUser(p, k, now, s, user, ip);
    var s1 := With(s, s.fails, Some(Request(user, ip, CountIp)));
    CountsIp(p, k, now, s1, user, ip);
    var s2 := With(s1, s1.fails, Some(Request(user, ip, Password)));
    IsWrong(p, k, now, s2, user, ip);
    t := With(s2, s2.fails, Some(Request(user, ip, FailUser)));
  }

  /** Neither of two new failures, the first one's of `user`, needs to evict. */
  ghost predicate StopsTwice(kept: Times, user: Key, now: int) {
    Stops(kept) && Stops(kept[user := [now]])
  }

  /** Such a request with a wrong password is recorded for both texts, and nothing is evicted where the loop may stop. */
  lemma FailedLogin(p: Params, k: nat, now: int, s: State, user: Key, ip: Key, kept: Times) returns (t: State)
    requires At(p, k, now, s, None) && p.maxFail > 0 && user != ip && ip != ""
    requires Expired(p, s, user) && Expired(p, s, ip)
    requires kept == s.fails - {user} - {ip} && StopsTwice(kept, user, s.now)
    ensures At(p, k, now, t, None)
    ensures t.fails == kept[user := [s.now]][ip := [s.now]] && t.now == s.now
  {
    var s1 := Enters(p, k, now, s, user, ip);
    var s2 := GoesWrong(p, k, now, s1, user, ip);
    var s3 := FailsUser(p, k, now, s2, user, ip);
    t := FailsIp(p, k, now, s3, user, ip);
  }

  lemma FewKeysStop(kept: Times, user: Key, now: int)
    requires |kept| < MAX_KEYS - 1
    ensures StopsTwice(kept, user, now)
  {
    PushSize(kept, user, now);
    assert Push(kept, user, now).Keys == kept[user := [now]].Keys;
  }

  /** Both texts may fail now, and the table without them is small. */
  predicate Free(p: Params, s: State, user: Key, ip: Key, kept: Times) {
    && user != ip && ip != "" && Expired(p, s, user) && Expired(p, s, ip)
    && kept == s.fails - {user} - {ip} && |kept| < MAX_KEYS - 1
  }

  lemma EarlyLogin(p: Params, k: nat, now: int, s: State, user: Key, ip: Key, kept: Times, after: Times)
    returns (t: State)
    requires At(p, k, now, s, None) && p.maxFail > 0 && Free(p, s, user, ip, kept)
    requires after == kept[user := [s.now]][ip := [s.now]]
    ensures At(p, k, now, t, None) && t.now == s.now && t.fails == after
  {
    FewKeysStop(kept, user, s.now);
    t := FailedLogin(p, k, now, s, user, ip, kept);
  }

  // ---- the flood ----

  /** A login without a name, and time passes until its address may fail again. */
  lemma EmptyName(p: Params, k: nat, now: int) returns (t: State)
    requires p.maxFail > 0 && k > 0
    ensures At(p, k, now, t, None) && t.now == now + p.window + 1
    ensures t.fails == map["" := [now], LimiterRuns.Name(1) := [now]]
  {
    var none: Times := map[];
    var s, ip := Init(k, now), LimiterRuns.Name(1);
    assert Leads(Begin, p, true, k, now, s);
    assert |ip| == 2 && none - {""} - {ip} == none;
    var u := EarlyLogin(p, k, now, s, "", ip, none, map["" := [now], ip := [now]]);
    Moved(p, true, k, now, u, Tick(p.window + 1));
    t := Step(p, u, Tick(p.window + 1));
  }

  lemma SecondTable(start: int, later: int)
    ensures map["" := [start]][LimiterRuns.Name(0) := [later]][LimiterRuns.Name(1) := [later]]
            == LimiterRuns.Tracked(2, start, later)
  {
    assert LimiterRuns.Tracked(1, start, later) == map["" := [start]][LimiterRuns.Name(0) := [later]];
  }

  lemma WithoutSecond(fails: Times, start: int)
    requires fails == map["" := [start], LimiterRuns.Name(1) := [start]]
    ensures var user, ip := LimiterRuns.Name(0), LimiterRuns.Name(1);
            && user != "" && ip != "" && user != ip && user !in fails
            && Of(fails, ip) == [start] && fails - {user} - {ip} == map["" := [start]]
            && |map["" := [start]]| == 1
  {
    assert |LimiterRuns.Name(0)| == 1 && |LimiterRuns.Name(1)| == 2;
    LimiterRuns.TrackedIsFlooded(0, start, start);
  }

  lemma SecondIsFree(p: Params, s: State, start: int)
    requires s.fails == map["" := [start], LimiterRuns.Name(1) := [start]] && s.now == start + p.window + 1
    ensures Free(p, s, LimiterRuns.Name(0), LimiterRuns.Name(1), map["" := [start]])
  {
    WithoutSecond(s.fails, start);
    Unknown(p, s, LimiterRuns.Name(0));
    assert [start][1..] == [];
  }

  /** That address fails with another name, and the empty key is strictly the oldest. */
  lemma NextSecond(p: Params, k: nat, now: int) returns (t: State)
    requires p.maxFail > 0 && k > 0
    ensures At(p, k, now, t, None) && t.now == now + p.window + 1
    ensures t.fails == LimiterRuns.Tracked(2, now, t.now)
  {
    var s := EmptyName(p, k, now);
    var user, ip, kept := LimiterRuns.Name(0), LimiterRuns.Name(1), map["" := [now]];
    SecondIsFree(p, s, now);
    SecondTable(now, s.now);
    t := EarlyLogin(p, k, now, s, user, ip, kept, LimiterRuns.Tracked(2, now, s.now));
  }

  /** Two more keys for every failed login of a new name from a new address. */
  lemma TwoMore(p: Params, k: nat, now: int, s: State, n: nat) returns (t: State)
    requires At(p, k, now, s, None) && p.maxFail > 0 && now < s.now
    requires s.fails == LimiterRuns.Tracked(n, now, s.now)
    ensures At(p, k, now, t, None) && t.now == s.now
    ensures t.fails == LimiterRuns.Tracked(n + 2, now, s.now)
  {
    var user, ip := LimiterRuns.Name(n), LimiterRuns.Name(n + 1);
    assert |user| == n + 1 && |ip| == n + 2;
    LimiterRuns.NewTracked(n, now, s.now);
    LimiterRuns.NewTracked(n + 1, now, s.now);
    LimiterRuns.TrackedStops(n, now, s.now);
    LimiterRuns.TrackedStops(n + 1, now, s.now);
    assert LimiterRuns.Tracked(n + 1, now, s.now) == s.fails[user := [s.now]];
    assert ip !in s.fails;
    Unknown(p, s, user);
    Unknown(p, s, ip);
    assert s.fails - {user} - {ip} == s.fails;
    t := FailedLogin(p, k, now, s, user, ip, s.fails);
  }

  lemma {:induction false} FloodOfLogins(p: Params, k: nat, now: int, m: nat) returns (t: State)
    requires p.maxFail > 0 && k > 0
    ensures At(p, k, now, t, None) && t.now == now + p.window + 1
    ensures t.fails == LimiterRuns.Tracked(2 * m + 2, now, t.now)
  {
    if m == 0 {
      t := NextSecond(p, k, now);
    } else {
      var s := FloodOfLogins(p, k, now, m - 1);
      t := TwoMore(p, k, now, s, 2 * m);
    }
  }

  /** Failed logins of which one has no name leave more keys than any bound. */
  lemma LoginsUnbounded(p: Params, k: nat, now: int, bound: nat)
    requires p.maxFail > 0 && k > 0
    ensures exists t :: Reaches(p, true, k, now, t) && |t.fails| > bound
  {
    var t := FloodOfLogins(p, k, now, bound);
    assert |t.fails| == 2 * bound + 3 by {
      LimiterRuns.NewTracked(2 * bound + 2, now, t.now);
    }
    assert Reaches(p, true, k, now, t);
  }

  ghost predicate CapHolds(p: Params, emptyNames: bool, k: nat, now: int) {
    forall t :: Reaches(p, emptyNames, k, now, t) ==> |t.fails| <= 4096
  }

  /** Login keeps the limiter within its cap exactly if it takes no empty user name. */
  lemma LoginCapIff(p: Params, emptyNames: bool, k: nat, now: int)
    requires p.maxFail > 0 && k > 0
    ensures CapHolds(p, emptyNames, k, now) <==> !emptyNames
  {
    if emptyNames {
      LoginsUnbounded(p, k, now, MAX_KEYS);
    } else {
      forall t | Reaches(p, false, k, now, t)
        ensures |t.fails| <= 4096
      {
        var path :| Leads(path, p, false, k, now, t);
        CapOnEveryPath(path, p, k, now, t);
      }
    }
  }
}
