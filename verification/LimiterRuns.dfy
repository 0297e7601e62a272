/**
  Whole runs of the login limiter (internal/auth/ratelimit.go:44-98), over any
  calls at times that do not run backwards: the table stays within its cap
  exactly as long as no caller fails with the empty key.
*/
module LimiterRuns {
  import opened FailureLog
  import opened Eviction

  datatype Call =
    | Look(key: Key, now: int)                       // Allow, FailCount
    | Failed(key: Key, now: int, gone: set<Key>)     // Fail, evicting `gone`
    | Reset(key: Key)

  datatype State = State(fails: Times, clock: int)

  function Next(s: State, c: Call, window: nat): State {
    match c
    case Look(key, now) => State(PruneKey(s.fails, key, now - window), now)
    case Failed(key, now, gone) => State(FailKey(s.fails, key, now, now - window, gone), now)
    case Reset(key) => s.(fails := s.fails - {key})
  }

  /** The clock does not run backwards, and a failure evicts what the passes over the map find. */
  ghost predicate Enabled(s: State, c: Call, window: nat) {
    match c
    case Look(_, now) => s.clock <= now
    case Failed(key, now, gone) =>
      s.clock <= now && MakesRoom(PruneKey(s.fails, key, now - window), key, gone)
    case Reset(_) => true
  }

  /** The calls of a run, the last one outermost. */
  datatype Calls = None | Then(before: Calls, last: Call)

  /** The limiter, made empty at time `start`, after these calls. */
  function After(calls: Calls, start: int, window: nat): State {
    match calls
    case None => State(map[], start)
    case Then(before, c) => Next(After(before, start, window), c, window)
  }

  ghost predicate IsRun(calls: Calls, start: int, window: nat) {
    match calls
    case None => true
    case Then(before, c) => IsRun(before, start, window) && Enabled(After(before, start, window), c, window)
  }

  /** No failure of the empty key, which is what an empty user name counts as. */
  predicate NeverEmpty(calls: Calls) {
    calls.Then? ==> NeverEmpty(calls.before) && (calls.last.Failed? ==> calls.last.key != "")
  }

  predicate Bounded(fails: Times) {
    |fails| <= MAX_KEYS && "" !in fails
  }

  lemma LessBounded(fails: Times, less: Times)
    requires Bounded(fails) && less.Keys <= fails.Keys
    ensures Bounded(less)
  {
    Subset(less.Keys, fails.Keys);
  }

  lemma LookBounded(fails: Times, key: Key, cut: int)
    requires Bounded(fails)
    ensures Bounded(PruneKey(fails, key, cut))
  {
    PruneSize(fails, key, cut);
    LessBounded(fails, PruneKey(fails, key, cut));
  }

  lemma FailBounded(fails: Times, key: Key, now: int, cut: int, gone: set<Key>)
    requires Bounded(fails) && key != "" && MakesRoom(PruneKey(fails, key, cut), key, gone)
    ensures Bounded(FailKey(fails, key, now, cut, gone))
  {
    FailKeepsCap(fails, key, now, cut, gone);
  }

  lemma StepBounded(s: State, c: Call, window: nat)
    requires Bounded(s.fails) && Enabled(s, c, window) && (c.Failed? ==> c.key != "")
    ensures Bounded(Next(s, c, window).fails)
  {
    if c.Failed? {
      FailBounded(s.fails, c.key, c.now, c.now - window, c.gone);
    } else if c.Look? {
      LookBounded(s.fails, c.key, c.now - window);
    } else {
      LessBounded(s.fails, s.fails - {c.key});
    }
  }

  /** The cap on every run without the empty key. */
  lemma {:induction false} CapOnEveryRun(calls: Calls, start: int, window: nat)
    requires IsRun(calls, start, window) && NeverEmpty(calls)
    ensures Bounded(After(calls, start, window).fails)
  {
    if calls.Then? {
      CapOnEveryRun(calls.before, start, window);
      StepBounded(After(calls.before, start, window), calls.last, window);
    }
  }

  // ---- a table that grows without limit ----

  function Name(i: nat): Key {
    seq(i + 1, _ => 'a')
  }

  /** The empty key last failed at `start` and n other keys failed at `later`. */
  function Tracked(n: nat, start: int, later: int): Times {
    if n == 0 then map["" := [start]] else Tracked(n - 1, start, later)[Name(n - 1) := [later]]
  }

  /** All n + 1 keys are tracked. */
  predicate Flooded(fails: Times, n: nat, start: int, later: int) {
    && |fails| == n + 1
    && "" in fails && fails[""] == [start]
    && forall k :: k in fails && k != "" ==> |k| <= n && fails[k] == [later]
  }

  lemma NewName(fails: Times, n: nat, start: int, later: int)
    requires Flooded(fails, n, start, later)
    ensures Name(n) != "" && Name(n) !in fails
    ensures Flooded(fails[Name(n) := [later]], n + 1, start, later)
  {
    assert |Name(n)| == n + 1;
    PushSize(fails, Name(n), later);
    assert Of(fails, Name(n)) + [later] == [later];
  }

  lemma {:induction false} TrackedIsFlooded(n: nat, start: int, later: int)
    ensures Flooded(Tracked(n, start, later), n, start, later)
  {
    if n > 0 {
      TrackedIsFlooded(n - 1, start, later);
      NewName(Tracked(n - 1, start, later), n - 1, start, later);
    }
  }

  lemma NewTracked(n: nat, start: int, later: int)
    ensures Name(n) != "" && Name(n) !in Tracked(n, start, later) && |Tracked(n, start, later)| == n + 1
  {
    TrackedIsFlooded(n, start, later);
    NewName(Tracked(n, start, later), n, start, later);
  }

  /** The empty key strictly oldest ends any pass of the eviction loop with no victim. */
  lemma TrackedStops(n: nat, start: int, later: int)
    requires start < later
    ensures Stops(Tracked(n, start, later))
  {
    TrackedIsFlooded(n, start, later);
    assert CanEnd(Tracked(n, start, later), "");
  }

  /** A failure of a new key that evicts nothing. */
  lemma FailNew(fails: Times, key: Key, now: int, cut: int)
    requires key !in fails
    ensures PruneKey(fails, key, cut) == fails && FailKey(fails, key, now, cut, {}) == fails[key := [now]]
  {
    assert fails - {key} == fails && fails - {} == fails;
    assert Of(fails, key) + [now] == [now];
  }

  lemma NothingEvicted(fails: Times, key: Key)
    requires key !in fails && Stops(fails)
    ensures MakesRoom(fails, key, {})
  {
    assert fails - {} == fails;
  }

  lemma RunThen(before: Calls, s: State, c: Call, start: int, window: nat)
    requires IsRun(before, start, window) && After(before, start, window) == s && Enabled(s, c, window)
    ensures IsRun(Then(before, c), start, window) && After(Then(before, c), start, window) == Next(s, c, window)
  {
  }

  /** A failure of a new key where the eviction loop may stop at once. */
  lemma NewFailure(s: State, key: Key, now: int, window: nat)
    requires key !in s.fails && Stops(s.fails) && s.clock <= now
    ensures var c := Failed(key, now, {});
            Enabled(s, c, window) && Next(s, c, window) == State(s.fails[key := [now]], now)
  {
    FailNew(s.fails, key, now, now - window);
    NothingEvicted(s.fails, key);
  }

  ghost predicate RunTo(calls: Calls, s: State, start: int, window: nat) {
    IsRun(calls, start, window) && After(calls, start, window) == s
  }

  lemma OneMoreFailure(before: Calls, s: State, key: Key, now: int, start: int, window: nat)
    returns (calls: Calls, t: State)
    requires RunTo(before, s, start, window) && key !in s.fails && Stops(s.fails) && s.clock <= now
    ensures RunTo(calls, t, start, window) && t.fails == s.fails[key := [now]] && t.clock == now
  {
    NewFailure(s, key, now, window);
    RunThen(before, s, Failed(key, now, {}), start, window);
    calls, t := Then(before, Failed(key, now, {})), State(s.fails[key := [now]], now);
  }

  lemma FloodBegins(start: int, window: nat) returns (calls: Calls, s: State)
    ensures RunTo(calls, s, start, window) && s.fails == Tracked(0, start, start + 1) && s.clock <= start + 1
  {
    calls, s := OneMoreFailure(None, State(map[], start), "", start, start, window);
  }

  lemma FloodGoesOn(calls: Calls, s: State, n: nat, start: int, window: nat) returns (more: Calls, t: State)
    requires RunTo(calls, s, start, window) && s.fails == Tracked(n, start, start + 1) && s.clock <= start + 1
    ensures RunTo(more, t, start, window) && t.fails == Tracked(n + 1, start, start + 1) && t.clock <= start + 1
  {
    NewTracked(n, start, start + 1);
    TrackedStops(n, start, start + 1);
    more, t := OneMoreFailure(calls, s, Name(n), start + 1, start, window);
  }

  /** One failure of the empty key, and a second later one of each of n other keys. */
  lemma {:induction false} Flood(n: nat, start: int, window: nat) returns (calls: Calls, s: State)
    ensures RunTo(calls, s, start, window) && s.fails == Tracked(n, start, start + 1) && s.clock <= start + 1
  {
    if n == 0 {
      calls, s := FloodBegins(start, window);
    } else {
      calls, s := Flood(n - 1, start, window);
      calls, s := FloodGoesOn(calls, s, n - 1, start, window);
    }
  }

  /** With the empty key there is no bound at all on the keys tracked. */
  lemma FloodSize(n: nat, start: int, window: nat) returns (calls: Calls)
    ensures IsRun(calls, start, window) && |After(calls, start, window).fails| == n + 1
  {
    var s;
    calls, s := Flood(n, start, window);
    TrackedIsFlooded(n, start, start + 1);
  }

  /** The cap on every run of such callers. */
  ghost predicate CapHolds(emptyAllowed: bool, start: int, window: nat) {
    forall calls :: IsRun(calls, start, window) && (emptyAllowed || NeverEmpty(calls)) ==>
      |After(calls, start, window).fails| <= 4096
  }

  /** The cap holds on every run exactly if nobody fails with the empty key. */
  lemma CapIffNeverEmpty(emptyAllowed: bool, start: int, window: nat)
    ensures CapHolds(emptyAllowed, start, window) <==> !emptyAllowed
  {
    if emptyAllowed {
      var calls := FloodSize(MAX_KEYS, start, window);
    } else {
      forall calls | IsRun(calls, start, window) && NeverEmpty(calls)
        ensures |After(calls, start, window).fails| <= 4096
      {
        CapOnEveryRun(calls, start, window);
      }
    }
  }
}
