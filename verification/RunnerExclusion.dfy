/**
  Node locks: in every reachable state at most one worker is inside `execute`
  past the lock for any node key, and no state is stuck. Both hold for the
  claim exactly as coded, where two workers may hold the same task id.
*/
module RunnerExclusion {
  import opened TaskTable
  import opened Wrappers
  import opened Runner

  /** r.mu is held by exactly the goroutines whose program counter says so, never by a writer and anyone else. */
  ghost predicate MuInv(s: State) {
    && WriterInv(s) && ReaderInv(s)
    && (!s.phase.Serving? ==> forall w :: 0 <= w < |s.workers| ==> s.workers[w].Idle?)
  }

  ghost predicate WriterInv(s: State) {
    && (s.mu.writer.Some? ==> s.mu.readers == {})
    && (forall a :: s.mu.writer == Some(a) ==> a.Worker? && a.w < |s.workers| && HoldsMuWrite(s.workers[a.w]))
    && (forall w :: 0 <= w < |s.workers| && HoldsMuWrite(s.workers[w]) ==> s.mu.writer == Some(Worker(w)))
  }

  ghost predicate ReaderInv(s: State) {
    && (forall w: nat :: Worker(w) in s.mu.readers <==> w < |s.workers| && HoldsMuRead(s.workers[w]))
    && (Reconcile in s.mu.readers <==> RecHoldsMuRead(s.phase))
  }

  /** nodeLocks is an injective map into allocated mutexes. */
  ghost predicate MapInv(s: State) {
    && (forall k :: k in s.nodeLocks ==> s.nodeLocks[k] < |s.locks|)
    && (forall k, j :: k in s.nodeLocks && j in s.nodeLocks && k != j ==> s.nodeLocks[k] != s.nodeLocks[j])
  }

  /** A worker's view of its task's lock agrees with the map. */
  predicate RefOk(s: State, pc: Pc) {
    && (Busy(pc) ==> pc.id < |s.rows|)
    && (HasLockRef(pc) ==>
          NodeKey(s.rows[pc.id]) in s.nodeLocks && s.nodeLocks[NodeKey(s.rows[pc.id])] == pc.lock)
    && (pc.Missing? ==> NodeKey(s.rows[pc.id]) !in s.nodeLocks)
  }

  ghost predicate RefInv(s: State) {
    forall w :: 0 <= w < |s.workers| ==> RefOk(s, s.workers[w])
  }

  predicate HoldsLock(s: State, w: nat, l: nat) {
    w < |s.workers| && s.workers[w].Holding? && s.workers[w].lock == l
  }

  /** A mutex is owned by exactly the worker that is past its Lock call. */
  ghost predicate OwnerInv(s: State) {
    && (forall w :: 0 <= w < |s.workers| && s.workers[w].Holding? ==>
          s.workers[w].lock < |s.locks| && s.locks[s.workers[w].lock] == Some(w))
    && (forall l :: 0 <= l < |s.locks| && s.locks[l].Some? ==> HoldsLock(s, s.locks[l].value, l))
  }

  /** The boot-time lists hold row ids, and a row under reconciliation is at the head of its list. */
  predicate BootInv(s: State) {
    && (s.phase.Finalizing? || s.phase.Reconciling? ==>
          forall i :: 0 <= i < |s.phase.todo| ==> s.phase.todo[i] < |s.rows|)
    && (s.phase.Reconciling? && !s.phase.pc.Next? ==> s.phase.todo != [])
  }

  ghost predicate Inv(s: State) {
    MuInv(s) && MapInv(s) && RefInv(s) && OwnerInv(s) && BootInv(s)
  }

  predicate SameKeys(r: seq<Row>, q: seq<Row>) {
    |r| <= |q| && forall i :: 0 <= i < |r| ==> q[i].node == r[i].node && q[i].job == r[i].job
  }

  lemma WorkKeepsRows(s: State, w: nat, a: Act)
    requires WorkEnabled(s, w, a)
    ensures SameKeys(s.rows, WorkStep(s, w, a).rows) && |WorkStep(s, w, a).rows| == |s.rows|
    ensures |WorkStep(s, w, a).workers| == |s.workers|
  {
  }

  /** No step drops a row or changes a row's node or job. */
  lemma RowsGrow(s: State, e: Event)
    requires Enabled(s, e)
    ensures SameKeys(s.rows, Step(s, e).rows)
    ensures |Step(s, e).workers| == |s.workers|
  {
    if e.Work? {
      WorkKeepsRows(s, e.w, e.a);
    }
  }

  lemma WorkKeepsWriter(s: State, w: nat, a: Act)
    requires WriterInv(s) && WorkEnabled(s, w, a)
    ensures WriterInv(WorkStep(s, w, a))
  {
    var t := WorkStep(s, w, a);
    assert forall v :: 0 <= v < |s.workers| && v != w ==> t.workers[v] == s.workers[v];
  }

  lemma WorkKeepsReaders(s: State, w: nat, a: Act)
    requires ReaderInv(s) && WorkEnabled(s, w, a)
    ensures ReaderInv(WorkStep(s, w, a))
  {
    var t := WorkStep(s, w, a);
    assert forall v :: 0 <= v < |s.workers| && v != w ==> t.workers[v] == s.workers[v];
  }

  lemma WorkKeepsPhase(s: State, w: nat, a: Act)
    requires WorkEnabled(s, w, a)
    ensures WorkStep(s, w, a).phase == s.phase
  {
  }

  lemma WorkKeepsMu(s: State, w: nat, a: Act)
    requires MuInv(s) && WorkEnabled(s, w, a)
    ensures MuInv(WorkStep(s, w, a))
  {
    WorkKeepsWriter(s, w, a);
    WorkKeepsReaders(s, w, a);
    WorkKeepsPhase(s, w, a);
  }

  lemma WorkKeepsMap(s: State, w: nat, a: Act)
    requires MapInv(s) && WorkEnabled(s, w, a)
    ensures MapInv(WorkStep(s, w, a))
  {
  }

  lemma WorkKeepsOwnRef(s: State, w: nat, a: Act)
    requires WorkEnabled(s, w, a) && RefOk(s, s.workers[w])
    ensures RefOk(WorkStep(s, w, a), WorkStep(s, w, a).workers[w])
  {
    WorkKeepsRows(s, w, a);
    if a.Select? {
      FirstIsLeast(s.rows, Queued, 0);
    }
  }

  /** Another worker is not between Lookup and Create when this one creates: r.mu has one writer. */
  lemma WorkKeepsOtherRef(s: State, w: nat, a: Act, v: nat)
    requires WorkEnabled(s, w, a) && v < |s.workers| && v != w
    requires RefOk(s, s.workers[v]) && RefOk(s, s.workers[w]) && (a.Create? ==> !s.workers[v].Missing?)
    ensures RefOk(WorkStep(s, w, a), WorkStep(s, w, a).workers[v])
  {
    WorkKeepsRows(s, w, a);
  }

  lemma WorkKeepsRefs(s: State, w: nat, a: Act)
    requires Inv(s) && WorkEnabled(s, w, a)
    ensures MapInv(WorkStep(s, w, a)) && RefInv(WorkStep(s, w, a))
  {
    WorkKeepsMap(s, w, a);
    WorkKeepsRows(s, w, a);
    forall v | 0 <= v < |s.workers|
      ensures RefOk(WorkStep(s, w, a), WorkStep(s, w, a).workers[v])
    {
      if v == w {
        WorkKeepsOwnRef(s, w, a);
      } else {
        if a.Create? {
          assert s.mu.writer == Some(Worker(w)) && !s.workers[v].Missing?;
        }
        WorkKeepsOtherRef(s, w, a, v);
      }
    }
  }

  lemma WorkKeepsHolder(s: State, w: nat, a: Act, v: nat)
    requires OwnerInv(s) && WorkEnabled(s, w, a)
    requires var t := WorkStep(s, w, a); v < |t.workers| && t.workers[v].Holding?
    ensures var t := WorkStep(s, w, a);
            t.workers[v].lock < |t.locks| && t.locks[t.workers[v].lock] == Some(v)
  {
    if v != w {
      assert s.locks[s.workers[v].lock] == Some(v);
    }
  }

  lemma WorkKeepsOwner(s: State, w: nat, a: Act, l: nat)
    requires OwnerInv(s) && WorkEnabled(s, w, a)
    requires var t := WorkStep(s, w, a); l < |t.locks| && t.locks[l].Some?
    ensures var t := WorkStep(s, w, a); HoldsLock(t, t.locks[l].value, l)
  {
    var t := WorkStep(s, w, a);
    if l < |s.locks| && t.locks[l] == s.locks[l] {
      assert HoldsLock(s, s.locks[l].value, l);
    }
  }

  lemma WorkKeepsOwners(s: State, w: nat, a: Act)
    requires Inv(s) && WorkEnabled(s, w, a)
    ensures OwnerInv(WorkStep(s, w, a)) && BootInv(WorkStep(s, w, a))
  {
    var t := WorkStep(s, w, a);
    WorkKeepsPhase(s, w, a);
    WorkKeepsRows(s, w, a);
    forall v | 0 <= v < |t.workers| && t.workers[v].Holding?
      ensures t.workers[v].lock < |t.locks| && t.locks[t.workers[v].lock] == Some(v)
    {
      WorkKeepsHolder(s, w, a, v);
    }
    forall l | 0 <= l < |t.locks| && t.locks[l].Some?
      ensures HoldsLock(t, t.locks[l].value, l)
    {
      WorkKeepsOwner(s, w, a, l);
    }
  }

  lemma RecKeepsMu(s: State, r: RecAct)
    requires MuInv(s) && RecEnabled(s, r)
    ensures MuInv(RecStep(s, r))
  {
  }

  lemma OtherStepsKeepMu(s: State, e: Event)
    requires MuInv(s) && Enabled(s, e) && !e.Work?
    ensures MuInv(Step(s, e))
  {
    if e.Rec? { RecKeepsMu(s, e.r); }
  }

  lemma OtherStepsKeepBoot(s: State, e: Event)
    requires BootInv(s) && Enabled(s, e) && !e.Work?
    ensures BootInv(Step(s, e))
  {
    var ids := RunningIds(s.rows, 0);
    RunningIdsExact(s.rows, 0);
    assert forall i :: 0 <= i < |ids| ==> ids[i] in ids;
  }

  lemma OtherStepsKeepLocks(s: State, e: Event)
    requires RefInv(s) && OwnerInv(s) && Enabled(s, e) && !e.Work?
    ensures RefInv(Step(s, e)) && OwnerInv(Step(s, e))
  {
    var t := Step(s, e);
    RowsGrow(s, e);
    if !e.Crash? {
      assert t.workers == s.workers && t.locks == s.locks && t.nodeLocks == s.nodeLocks;
      forall w | 0 <= w < |t.workers|
        ensures RefOk(t, t.workers[w])
      {
        assert RefOk(s, s.workers[w]);
      }
      forall l | 0 <= l < |t.locks| && t.locks[l].Some?
        ensures HoldsLock(t, t.locks[l].value, l)
      {
        assert HoldsLock(s, s.locks[l].value, l);
      }
    }
  }

  lemma WorkKeepsInv(s: State, w: nat, a: Act)
    requires Inv(s) && WorkEnabled(s, w, a)
    ensures Inv(WorkStep(s, w, a))
  {
    WorkKeepsMu(s, w, a);
    WorkKeepsRefs(s, w, a);
    WorkKeepsOwners(s, w, a);
  }

  lemma OtherStepsKeepMap(s: State, e: Event)
    requires MapInv(s) && Enabled(s, e) && !e.Work?
    ensures MapInv(Step(s, e))
  {
  }

  lemma OthersKeepInv(s: State, e: Event)
    requires Inv(s) && Enabled(s, e) && !e.Work?
    ensures Inv(Step(s, e))
  {
    OtherStepsKeepMap(s, e);
    OtherStepsKeepMu(s, e);
    OtherStepsKeepBoot(s, e);
    OtherStepsKeepLocks(s, e);
  }

  lemma StepKeepsInv(s: State, e: Event)
    requires Inv(s) && Enabled(s, e)
    ensures Inv(Step(s, e))
  {
    if e.Work? {
      WorkKeepsInv(s, e.w, e.a);
    } else {
      OthersKeepInv(s, e);
    }
  }

  lemma {:induction false} RunKeepsInv(s: State, es: seq<Event>, t: State)
    requires Inv(s) && Run(s, es, t)
    ensures Inv(t) && |t.workers| == |s.workers|
    decreases |es|
  {
    if es != [] {
      StepKeepsInv(s, es[0]);
      RowsGrow(s, es[0]);
      RunKeepsInv(Step(s, es[0]), es[1..], t);
    }
  }

  lemma ReachableInv(n: nat, s: State)
    requires Reachable(n, s)
    ensures Inv(s) && |s.workers| == n
  {
    var es :| Run(Init(n), es, s);
    RunKeepsInv(Init(n), es, s);
  }

  /** The key a worker is serving once it holds the lock. */
  function ServedKey(s: State, w: nat): Option<nat> {
    if w < |s.workers| && s.workers[w].Holding? && s.workers[w].id < |s.rows|
    then Some(NodeKey(s.rows[s.workers[w].id])) else None
  }

  lemma ExclusionFromInv(s: State, v: nat, w: nat)
    requires Inv(s) && v != w && ServedKey(s, v).Some?
    ensures ServedKey(s, v) != ServedKey(s, w)
  {
    if ServedKey(s, w).Some? {
      assert RefOk(s, s.workers[v]) && RefOk(s, s.workers[w]);
    }
  }

  /**
    At most one worker is between Lock and Unlock for a node key, in every
    interleaving, with any number of workers, and also when both claimed the
    same id. In particular at most one handler runs per node key.
  */
  lemma OneHolderPerNode(n: nat, s: State, v: nat, w: nat)
    requires Reachable(n, s) && v != w && ServedKey(s, v).Some?
    ensures ServedKey(s, v) != ServedKey(s, w)
  {
    ReachableInv(n, s);
    ExclusionFromInv(s, v, w);
  }

  /**
    The same about the rows themselves: two workers past Lock have tasks of
    different nodes, whatever the types of the tasks are; tasks without a node
    count as tasks of node 0.
  */
  lemma HoldersHaveDifferentNodes(n: nat, s: State, v: nat, w: nat)
    requires Reachable(n, s) && v < |s.workers| && w < |s.workers| && v != w
    requires s.workers[v].Holding? && s.workers[w].Holding?
    ensures s.workers[v].id < |s.rows| && s.workers[w].id < |s.rows|
    ensures var a, b := s.rows[s.workers[v].id].node, s.rows[s.workers[w].id].node;
            (if a.Some? then a.value else 0) != (if b.Some? then b.value else 0)
  {
    ReachableInv(n, s);
    assert RefOk(s, s.workers[v]) && RefOk(s, s.workers[w]);
    OneHolderPerNode(n, s, v, w);
  }

  /** And nothing is serialised beyond that: a worker blocked in Lock waits for a task of its own node. */
  lemma BlockedBySameNode(n: nat, s: State, w: nat)
    requires Reachable(n, s) && w < |s.workers| && s.workers[w].Waiting?
    ensures s.workers[w].id < |s.rows| && s.workers[w].lock < |s.locks|
    ensures var l := s.locks[s.workers[w].lock];
            l.Some? ==>
              && l.value < |s.workers| && l.value != w && s.workers[l.value].Holding?
              && s.workers[l.value].id < |s.rows|
              && var a, b := s.rows[s.workers[w].id].node, s.rows[s.workers[l.value].id].node;
                 (if a.Some? then a.value else 0) == (if b.Some? then b.value else 0)
    ensures s.locks[s.workers[w].lock].None? ==> WorkEnabled(s, w, Lock)
  {
    ReachableInv(n, s);
    assert RefOk(s, s.workers[w]);
    var l := s.locks[s.workers[w].lock];
    if l.Some? {
      assert HoldsLock(s, l.value, s.workers[w].lock) && RefOk(s, s.workers[l.value]);
    }
  }

  /** r.mu is never held across a blocking Lock: a waiting worker holds neither r.mu nor any node lock. */
  lemma WaitersHoldNothing(n: nat, s: State, w: nat)
    requires Reachable(n, s) && w < |s.workers| && s.workers[w].Waiting?
    ensures s.mu.writer != Some(Worker(w)) && Worker(w) !in s.mu.readers
    ensures forall l :: 0 <= l < |s.locks| ==> s.locks[l] != Some(w)
  {
    ReachableInv(n, s);
    assert forall l :: 0 <= l < |s.locks| && s.locks[l].Some? ==> HoldsLock(s, s.locks[l].value, l);
  }

  // ---- no deadlock ----

  /** An upper bound on the steps a worker still has to take before it is idle. */
  function Rank(pc: Pc): nat {
    match pc
    case Idle => 0
    case Selected(_) => 13
    case Claimed(_) => 12
    case InMu(_) => 11
    case Missing(_) => 10
    case HasRef(_, _) => 9
    case Waiting(_, _) => 8
    case Holding(_, _, stage) =>
      match stage
      case Locked => 7
      case ReadingHandlers => 6
      case Handling => 5
      case Returned(_) => 4
      case Wrote(_) => 3
      case CopyingHooks(_) => 2
      case FiringHooks(_) => 1
  }

  function TotalRank(ws: seq<Pc>): nat {
    if ws == [] then 0 else Rank(ws[0]) + TotalRank(ws[1..])
  }

  lemma {:induction false} RankOfUpdate(ws: seq<Pc>, w: nat, pc: Pc)
    requires w < |ws|
    ensures TotalRank(ws[w := pc]) == TotalRank(ws) - Rank(ws[w]) + Rank(pc)
  {
    var us := ws[w := pc];
    if w == 0 {
      assert us[1..] == ws[1..];
    } else {
      assert us[1..] == ws[1..][w - 1 := pc];
      RankOfUpdate(ws[1..], w - 1, pc);
    }
  }

  /** The one thing a busy worker wants to do next. */
  function NextAct(pc: Pc): Act
    requires Busy(pc)
  {
    match pc
    case Selected(_) => Update
    case Claimed(_) => LockMu
    case InMu(_) => Lookup
    case Missing(_) => Create
    case HasRef(_, _) => UnlockMu
    case Waiting(_, _) => Lock
    case Holding(_, _, stage) =>
      match stage
      case Locked => EnterHandlerFor
      case ReadingHandlers => LeaveHandlerFor
      case Handling => Return(true)
      case Returned(_) => Finish
      case Wrote(_) => EnterFireFinish
      case CopyingHooks(_) => LeaveFireFinish
      case FiringHooks(_) => Unlock
  }

  predicate HoldsMu(pc: Pc) { HoldsMuWrite(pc) || HoldsMuRead(pc) }

  lemma SomebodyHoldsMu(s: State)
    requires Inv(s) && s.phase.Serving?
    ensures CanWrite(s.mu) || exists v :: 0 <= v < |s.workers| && HoldsMu(s.workers[v])
  {
    if s.mu.writer.Some? {
      assert HoldsMu(s.workers[s.mu.writer.value.w]);
    } else if s.mu.readers != {} {
      var a :| a in s.mu.readers;
      assert HoldsMu(s.workers[a.w]);
    }
  }

  /** Whoever holds r.mu can go on; if nobody does, every worker but a blocked waiter can. */
  lemma NotBlocked(s: State, w: nat)
    requires Inv(s) && s.phase.Serving? && w < |s.workers| && Busy(s.workers[w])
    requires HoldsMu(s.workers[w]) || CanWrite(s.mu)
    requires s.workers[w].Waiting? ==> s.workers[w].lock < |s.locks| && s.locks[s.workers[w].lock].None?
    ensures WorkEnabled(s, w, NextAct(s.workers[w]))
  {
    assert RefOk(s, s.workers[w]);
  }

  lemma SomeWorkerMoves(s: State) returns (w: nat)
    requires Inv(s) && s.phase.Serving?
    requires exists v :: 0 <= v < |s.workers| && Busy(s.workers[v])
    ensures w < |s.workers| && Busy(s.workers[w]) && WorkEnabled(s, w, NextAct(s.workers[w]))
  {
    if v :| 0 <= v < |s.workers| && HoldsMu(s.workers[v]) {
      w := v;
    } else {
      SomebodyHoldsMu(s);
      var v :| 0 <= v < |s.workers| && Busy(s.workers[v]);
      w := v;
      if s.workers[v].Waiting? {
        assert RefOk(s, s.workers[v]);
        var l := s.workers[v].lock;
        if s.locks[l].Some? {
          // blocked by the holder, which is not itself waiting
          assert HoldsLock(s, s.locks[l].value, l);
          w := s.locks[l].value;
        }
      }
    }
    NotBlocked(s, w);
  }

  lemma StepLowersRank(s: State, w: nat)
    requires w < |s.workers| && Busy(s.workers[w]) && WorkEnabled(s, w, NextAct(s.workers[w]))
    ensures TotalRank(WorkStep(s, w, NextAct(s.workers[w])).workers) < TotalRank(s.workers)
    ensures WorkStep(s, w, NextAct(s.workers[w])).phase == s.phase
  {
    var t := WorkStep(s, w, NextAct(s.workers[w]));
    RankOfUpdate(s.workers, w, t.workers[w]);
  }

  // ---- boot ----

  /** The step the boot sequence takes next; reconcilers are taken to answer. */
  function NextBoot(p: Phase): Event
    requires !p.Serving?
  {
    match p
    case Down => Boot
    case Finalizing(_) => FinalizeStep
    case Up => ListRunning
    case Reconciling(todo, pc) =>
      match pc
      case Next => Rec(if todo == [] then Stop else Take)
      case ReadingReconcilers => Rec(LeaveReconcilerFor)
      case Deciding => Rec(Decide(Done(false)))
      case Writing(_) => Rec(Write)
      case Requeueing => Rec(PutBack)
      case Owing(_) => Rec(EnterHooks)
      case Copying(_) => Rec(LeaveHooks)
      case Firing(_) => Rec(Advance)
  }

  function RecRank(pc: RecPc): nat {
    match pc
    case Next => 6
    case ReadingReconcilers => 5
    case Deciding => 4
    case Writing(_) => 3
    case Requeueing => 3
    case Owing(_) => 2
    case Copying(_) => 1
    case Firing(_) => 0
  }

  function BootRank(p: Phase, rows: nat): nat {
    match p
    case Down => 8 * rows + 20
    case Finalizing(todo) => 7 * rows + 15 + |todo|
    case Up => 7 * rows + 10
    case Reconciling(todo, pc) => 7 * |todo| + RecRank(pc) + 1
    case Serving => 0
  }

  lemma WriterIsBusy(s: State)
    requires MuInv(s)
    ensures s.mu.writer.None? || exists w :: 0 <= w < |s.workers| && Busy(s.workers[w])
  {
    if s.mu.writer.Some? {
      assert Busy(s.workers[s.mu.writer.value.w]);
    }
  }

  lemma BootMoves(s: State)
    requires Inv(s) && !s.phase.Serving?
    ensures Enabled(s, NextBoot(s.phase))
    ensures BootRank(Step(s, NextBoot(s.phase)).phase, |Step(s, NextBoot(s.phase)).rows|) < BootRank(s.phase, |s.rows|)
  {
    RunningIdsExact(s.rows, 0);
    WriterIsBusy(s);
  }

  /** Boot steps and steps of workers with a task in hand: nothing is enqueued, claimed or crashed. */
  predicate Settling(es: seq<Event>) {
    forall i :: 0 <= i < |es| ==>
      es[i].Boot? || es[i].FinalizeStep? || es[i].ListRunning? || es[i].Rec? || (es[i].Work? && !es[i].a.Select?)
  }

  predicate Settled(s: State) {
    s.phase.Serving? && forall w :: 0 <= w < |s.workers| ==> s.workers[w].Idle?
  }

  lemma {:induction false} Settle(s: State) returns (es: seq<Event>, t: State)
    requires Inv(s)
    ensures Run(s, es, t) && Settling(es) && Settled(t)
    decreases BootRank(s.phase, |s.rows|), TotalRank(s.workers)
  {
    var e;
    if !s.phase.Serving? {
      BootMoves(s);
      e := NextBoot(s.phase);
    } else if w :| 0 <= w < |s.workers| && Busy(s.workers[w]) {
      var v := SomeWorkerMoves(s);
      e := Work(v, NextAct(s.workers[v]));
      StepLowersRank(s, v);
    } else {
      es, t := [], s;
      return;
    }
    StepKeepsInv(s, e);
    var rest;
    rest, t := Settle(Step(s, e));
    es := [e] + rest;
    assert es[1..] == rest;
  }

  /**
    No deadlock: from every reachable state, down, booting or serving, there is
    a schedule that enqueues and claims nothing and ends with workers running
    and every one of them back in its loop.
  */
  lemma NeverStuck(n: nat, s: State)
    requires Reachable(n, s)
    ensures exists es, t :: Run(s, es, t) && Settling(es) && Settled(t)
  {
    ReachableInv(n, s);
    var es, t := Settle(s);
  }
}
