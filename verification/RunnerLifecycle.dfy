/**
  Task lifecycle: which status changes can happen, who owns a running row, and
  that every terminal write is answered by one round of finish hooks.
*/
module RunnerLifecycle {
  import opened TaskTable
  import opened Wrappers
  import opened Runner
  import opened RunnerExclusion

  predicate PastUpdate(pc: Pc) { Busy(pc) && !pc.Selected? }

  /** Claimed, but no terminal status written yet. */
  predicate Unfinished(pc: Pc) {
    PastUpdate(pc) && (pc.Holding? ==>
      pc.stage.Locked? || pc.stage.ReadingHandlers? || pc.stage.Handling? || pc.stage.Returned?)
  }

  // ---- claims ----

  predicate PcClaimOk(s: State, pc: Pc) {
    && (Busy(pc) ==> pc.id < |s.rows|)
    && (pc.Selected? ==> s.rows[pc.id].status == Queued || pc.id in s.claimed)
    && (PastUpdate(pc) ==> pc.id in s.claimed)
  }

  ghost predicate ClaimInv(s: State) {
    && (forall i :: 0 <= i < |s.rows| && s.rows[i].status == Queued ==> i !in s.claimed)
    && (forall i :: i in s.claimed ==> i < |s.rows|)
    && (!s.phase.Serving? ==> s.claimed == {} && forall w :: 0 <= w < |s.workers| ==> s.workers[w].Idle?)
    && (forall w :: 0 <= w < |s.workers| ==> PcClaimOk(s, s.workers[w]))
  }

  predicate RestartRow(s: State, i: nat) {
    i < |s.rows| && s.rows[i].job.PanelRestart? && (s.rows[i].status == Status.Running || s.rows[i].status == Failure)
  }

  /** Rows the restart path owns: never queued, and only running or failed while the request is in flight. */
  ghost predicate RestartInv(s: State) {
    NeverQueued(s.rows) && RequestsOpen(s) && BootSpares(s)
  }

  predicate NeverQueued(rows: seq<Row>) {
    forall i :: 0 <= i < |rows| && rows[i].job.PanelRestart? ==> rows[i].status != Queued
  }

  ghost predicate RequestsOpen(s: State) {
    forall i :: i in s.restarts ==> RestartRow(s, i)
  }

  /** The reconciler neither requeues a restart nor calls it a success. */
  predicate BootSpares(s: State) {
    && (s.phase.Down? || s.phase.Finalizing? ==> s.restarts == {})
    && (s.phase.Reconciling? && s.phase.todo != [] && s.phase.todo[0] < |s.rows|
        && s.rows[s.phase.todo[0]].job.PanelRestart? ==>
          !s.phase.pc.Requeueing? && (s.phase.pc.Writing? ==> !s.phase.pc.ok))
  }

  lemma WorkKeepsClaims(s: State, w: nat, a: Act)
    requires ClaimInv(s) && WorkEnabled(s, w, a)
    ensures ClaimInv(WorkStep(s, w, a))
  {
    var t := WorkStep(s, w, a);
    FirstIsLeast(s.rows, Queued, 0);
    assert PcClaimOk(s, s.workers[w]);
    forall v | 0 <= v < |t.workers|
      ensures PcClaimOk(t, t.workers[v])
    {
      assert PcClaimOk(s, s.workers[v]);
    }
  }

  lemma OthersKeepClaims(s: State, e: Event)
    requires ClaimInv(s) && RestartInv(s) && Enabled(s, e) && !e.Work?
    ensures ClaimInv(Step(s, e))
  {
    var t := Step(s, e);
    if e.RestartFailed? { assert RestartRow(s, e.id); }
    if !e.Crash? {
      assert t.workers == s.workers && t.claimed == s.claimed;
      forall w | 0 <= w < |t.workers|
        ensures PcClaimOk(t, t.workers[w])
      {
        assert PcClaimOk(s, s.workers[w]);
      }
    }
  }

  lemma StepKeepsClaims(s: State, e: Event)
    requires ClaimInv(s) && RestartInv(s) && Enabled(s, e)
    ensures ClaimInv(Step(s, e))
  {
    if e.Work? {
      WorkKeepsClaims(s, e.w, e.a);
    } else {
      OthersKeepClaims(s, e);
    }
  }

  // ---- ownership of running rows ----

  predicate Owned(s: State, i: nat) {
    exists w :: 0 <= w < |s.workers| && Unfinished(s.workers[w]) && s.workers[w].id == i
  }

  predicate WrittenOff(pc: RecPc) { pc.Owing? || pc.Copying? || pc.Firing? }

  /** Why row `i` may be `running` right now. */
  predicate Excused(s: State, i: nat)
    requires i < |s.rows|
  {
    match s.phase
    case Down => true
    case Finalizing(todo) => s.rows[i].job.PanelRestart? ==> i in todo
    case Up => true
    case Reconciling(todo, pc) =>
      s.rows[i].job.PanelRestart? || (i in todo && (WrittenOff(pc) && todo != [] ==> i != todo[0]))
    case Serving => s.rows[i].job.PanelRestart? || Owned(s, i)
  }

  ghost predicate OwnerRowsInv(s: State) {
    forall i :: 0 <= i < |s.rows| && s.rows[i].status == Status.Running ==> Excused(s, i)
  }

  lemma WorkKeepsOwnership(s: State, w: nat, a: Act)
    requires OwnerRowsInv(s) && ClaimInv(s) && WorkEnabled(s, w, a)
    ensures OwnerRowsInv(WorkStep(s, w, a))
  {
    var t := WorkStep(s, w, a);
    forall i | 0 <= i < |t.rows| && t.rows[i].status == Status.Running
      ensures Excused(t, i)
    {
      if s.rows[i].status == Status.Running && !s.rows[i].job.PanelRestart? {
        assert Excused(s, i);
        var v :| 0 <= v < |s.workers| && Unfinished(s.workers[v]) && s.workers[v].id == i;
        assert Unfinished(t.workers[v]) && t.workers[v].id == i;
      } else if s.rows[i].status == Queued {
        assert Unfinished(t.workers[w]) && t.workers[w].id == i;
      }
    }
  }

  /** No step but a worker's makes an old row running. */
  lemma RunningBefore(s: State, e: Event, i: nat)
    requires Enabled(s, e) && !e.Work? && i < |s.rows|
    ensures i < |Step(s, e).rows| && Step(s, e).rows[i].job == s.rows[i].job
    ensures Step(s, e).rows[i].status == Status.Running ==> s.rows[i].status == Status.Running
  {
  }

  lemma RecKeepsOwnership(s: State, r: RecAct)
    requires OwnerRowsInv(s) && RecEnabled(s, r)
    ensures OwnerRowsInv(RecStep(s, r))
  {
    var t := RecStep(s, r);
    forall i | 0 <= i < |t.rows| && t.rows[i].status == Status.Running
      ensures Excused(t, i)
    {
      RunningBefore(s, Rec(r), i);
      assert Excused(s, i);
    }
  }

  lemma BootKeepsOwnership(s: State, e: Event)
    requires OwnerRowsInv(s) && Enabled(s, e) && (e.Boot? || e.FinalizeStep? || e.ListRunning? || e.Crash?)
    ensures OwnerRowsInv(Step(s, e))
  {
    var t := Step(s, e);
    RunningIdsExact(s.rows, 0);
    forall i | 0 <= i < |t.rows| && t.rows[i].status == Status.Running
      ensures Excused(t, i)
    {
      RunningBefore(s, e, i);
      assert Excused(s, i);
    }
  }

  predicate IsRequest(e: Event) { e.Enqueue? || e.RestartBegin? || e.RestartLaunched? || e.RestartFailed? }

  lemma RequestsKeepOwnership(s: State, e: Event)
    requires OwnerRowsInv(s) && Enabled(s, e) && IsRequest(e)
    ensures OwnerRowsInv(Step(s, e))
  {
    var t := Step(s, e);
    assert t.phase == s.phase && t.workers == s.workers;
    forall i | 0 <= i < |t.rows| && t.rows[i].status == Status.Running
      ensures Excused(t, i)
    {
      if i < |s.rows| {
        RunningBefore(s, e, i);
        assert Excused(s, i);
        if Owned(s, i) {
          var w :| 0 <= w < |s.workers| && Unfinished(s.workers[w]) && s.workers[w].id == i;
          assert Unfinished(t.workers[w]) && t.workers[w].id == i;
        }
      }
    }
  }

  lemma StepKeepsOwnership(s: State, e: Event)
    requires OwnerRowsInv(s) && ClaimInv(s) && Enabled(s, e)
    ensures OwnerRowsInv(Step(s, e))
  {
    if e.Work? {
      WorkKeepsOwnership(s, e.w, e.a);
    } else if e.Rec? {
      RecKeepsOwnership(s, e.r);
    } else if IsRequest(e) {
      RequestsKeepOwnership(s, e);
    } else {
      BootKeepsOwnership(s, e);
    }
  }

  lemma WorkKeepsForeign(s: State, w: nat, a: Act)
    requires NeverQueued(s.rows) && ForeignInv(s) && WorkEnabled(s, w, a)
    ensures ForeignInv(WorkStep(s, w, a))
  {
    var t := WorkStep(s, w, a);
    FirstIsLeast(s.rows, Queued, 0);
    WorkKeepsRows(s, w, a);
    forall v | 0 <= v < |t.workers| && Busy(t.workers[v])
      ensures t.workers[v].id < |t.rows| && !t.rows[t.workers[v].id].job.PanelRestart?
    {
      if v != w { assert t.workers[v] == s.workers[v]; }
    }
  }

  /** A worker's step leaves the rows of restarts as they are. */
  lemma WorkSparesRestarts(s: State, w: nat, a: Act, i: nat)
    requires ForeignInv(s) && NeverQueued(s.rows) && WorkEnabled(s, w, a)
    requires i < |s.rows| && s.rows[i].job.PanelRestart?
    ensures i < |WorkStep(s, w, a).rows| && WorkStep(s, w, a).rows[i] == s.rows[i]
  {
  }

  lemma WorkKeepsRestarts(s: State, w: nat, a: Act)
    requires RestartInv(s) && ForeignInv(s) && WorkEnabled(s, w, a)
    ensures RestartInv(WorkStep(s, w, a)) && ForeignInv(WorkStep(s, w, a))
  {
    var t := WorkStep(s, w, a);
    WorkKeepsForeign(s, w, a);
    WorkKeepsRows(s, w, a);
    forall i | 0 <= i < |s.rows| && s.rows[i].job.PanelRestart?
      ensures t.rows[i] == s.rows[i]
    {
      WorkSparesRestarts(s, w, a, i);
    }
    assert t.restarts == s.restarts && t.phase == s.phase;
    forall i | i in t.restarts
      ensures RestartRow(t, i)
    {
      assert RestartRow(s, i);
    }
  }

  /** Workers never hold a panel_restart row. */
  ghost predicate ForeignInv(s: State) {
    forall v :: 0 <= v < |s.workers| && Busy(s.workers[v]) ==>
      s.workers[v].id < |s.rows| && !s.rows[s.workers[v].id].job.PanelRestart?
  }

  lemma OthersKeepForeign(s: State, e: Event)
    requires ForeignInv(s) && Enabled(s, e) && !e.Work?
    ensures ForeignInv(Step(s, e))
  {
    var t := Step(s, e);
    RowsGrow(s, e);
    if !e.Crash? { assert t.workers == s.workers; }
  }

  lemma RecKeepsRestarts(s: State, r: RecAct)
    requires RestartInv(s) && RecEnabled(s, r)
    ensures RestartInv(RecStep(s, r))
  {
    var t := RecStep(s, r);
    assert t.restarts == s.restarts;
    forall i | i in t.restarts
      ensures RestartRow(t, i)
    {
      assert RestartRow(s, i);
    }
  }

  lemma BootKeepsRestarts(s: State, e: Event)
    requires RestartInv(s) && Enabled(s, e) && (e.Boot? || e.FinalizeStep? || e.ListRunning? || e.Crash?)
    ensures RestartInv(Step(s, e))
  {
    var t := Step(s, e);
    forall i | i in t.restarts
      ensures RestartRow(t, i)
    {
      assert RestartRow(s, i);
    }
  }

  lemma RequestsKeepOpen(s: State, e: Event)
    requires RestartInv(s) && Enabled(s, e) && IsRequest(e)
    ensures RequestsOpen(Step(s, e))
  {
    var t := Step(s, e);
    forall i | i in t.restarts
      ensures RestartRow(t, i)
    {
      if i in s.restarts { assert RestartRow(s, i); }
    }
  }

  lemma RequestsKeepRestarts(s: State, e: Event)
    requires RestartInv(s) && BootInv(s) && Enabled(s, e) && IsRequest(e)
    ensures RestartInv(Step(s, e))
  {
    RequestsKeepOpen(s, e);
    RowsGrow(s, e);
  }

  lemma StepKeepsRestarts(s: State, e: Event)
    requires RestartInv(s) && ClaimInv(s) && ForeignInv(s) && BootInv(s) && Enabled(s, e)
    ensures RestartInv(Step(s, e)) && ForeignInv(Step(s, e))
  {
    if e.Work? {
      WorkKeepsRestarts(s, e.w, e.a);
    } else {
      OthersKeepForeign(s, e);
      if e.Rec? {
        RecKeepsRestarts(s, e.r);
      } else if IsRequest(e) {
        RequestsKeepRestarts(s, e);
      } else {
        BootKeepsRestarts(s, e);
      }
    }
  }

  // ---- status changes ----

  /** The boot-time lists are ascending, and what is still to be handled is still running. */
  predicate TodoOk(s: State) {
    match s.phase
    case Finalizing(todo) =>
      && Rising(todo)
      && (forall a :: 0 <= a < |todo| ==> todo[a] < |s.rows| && s.rows[todo[a]].status == Status.Running)
    case Reconciling(todo, pc) => Rising(todo) && AllLeft(s.rows, todo, WrittenOff(pc))
    case _ => true
  }

  predicate Rising(todo: seq<nat>) {
    forall a, b :: 0 <= a < b < |todo| ==> todo[a] < todo[b]
  }

  /** Still running, or a restart that failed in the meantime. */
  predicate Left(rows: seq<Row>, i: nat) {
    i < |rows| && (rows[i].status == Status.Running || (rows[i].job.PanelRestart? && rows[i].status == Failure))
  }

  predicate AllLeft(rows: seq<Row>, todo: seq<nat>, firstIsDone: bool) {
    forall a :: 0 <= a < |todo| && !(a == 0 && firstIsDone) ==> Left(rows, todo[a])
  }

  /** As long as every guarded UPDATE has hit, claimants are distinct and their rows are running. */
  ghost predicate HitInv(s: State) {
    && (forall v, w :: 0 <= v < w < |s.workers| && PastUpdate(s.workers[v]) && PastUpdate(s.workers[w]) ==>
          s.workers[v].id != s.workers[w].id)
    && (forall w :: 0 <= w < |s.workers| && Unfinished(s.workers[w]) ==>
          s.workers[w].id < |s.rows| && s.rows[s.workers[w].id].status == Status.Running)
  }

  ghost predicate LifeInv(s: State) {
    && Inv(s) && ClaimInv(s) && RestartInv(s) && ForeignInv(s) && OwnerRowsInv(s) && TodoOk(s)
    && (!s.missed ==> HitInv(s))
  }

  lemma FirstWritten(rows: seq<Row>, todo: seq<nat>, status: Status)
    requires Rising(todo) && todo != [] && todo[0] < |rows| && AllLeft(rows, todo, true)
    ensures AllLeft(SetStatus(rows, todo[0], status), todo, true)
  {
    forall a | 0 < a < |todo|
      ensures Left(SetStatus(rows, todo[0], status), todo[a])
    {
      assert todo[0] < todo[a] && Left(rows, todo[a]);
    }
  }

  lemma RestLeft(rows: seq<Row>, todo: seq<nat>)
    requires Rising(todo) && todo != [] && AllLeft(rows, todo, true)
    ensures Rising(todo[1..]) && AllLeft(rows, todo[1..], false)
  {
    var rest := todo[1..];
    forall a | 0 <= a < |rest|
      ensures Left(rows, rest[a])
    {
      assert rest[a] == todo[a + 1];
    }
  }

  lemma RecKeepsTodo(s: State, r: RecAct)
    requires TodoOk(s) && RecEnabled(s, r)
    ensures TodoOk(RecStep(s, r))
  {
    if r.Write? {
      FirstWritten(s.rows, s.phase.todo, StatusOf(s.phase.pc.ok));
    } else if r.PutBack? {
      FirstWritten(s.rows, s.phase.todo, Queued);
      RestLeft(SetStatus(s.rows, s.phase.todo[0], Queued), s.phase.todo);
    } else if r.Advance? {
      RestLeft(s.rows, s.phase.todo);
    }
  }

  lemma ListingIsTodo(s: State)
    ensures TodoOk(s.(phase := Finalizing(RunningIds(s.rows, 0))))
    ensures TodoOk(s.(phase := Reconciling(RunningIds(s.rows, 0), Next)))
  {
    var ids := RunningIds(s.rows, 0);
    RunningIdsExact(s.rows, 0);
    assert forall a :: 0 <= a < |ids| ==> ids[a] in ids;
  }

  lemma ListingKeepsTodo(s: State, e: Event)
    requires TodoOk(s) && Enabled(s, e) && (e.Boot? || e.ListRunning? || e.Crash?)
    ensures TodoOk(Step(s, e))
  {
    ListingIsTodo(s);
  }

  lemma FinalizeKeepsTodo(s: State, e: Event)
    requires TodoOk(s) && Enabled(s, e) && e.FinalizeStep?
    ensures TodoOk(Step(s, e))
  {
  }

  lemma RequestsKeepTodo(s: State, e: Event)
    requires TodoOk(s) && RestartInv(s) && Enabled(s, e) && IsRequest(e)
    ensures TodoOk(Step(s, e))
  {
    if e.RestartFailed? { assert RestartRow(s, e.id); }
  }

  lemma OthersKeepTodo(s: State, e: Event)
    requires TodoOk(s) && RestartInv(s) && Enabled(s, e) && !e.Work? && !e.Rec?
    ensures TodoOk(Step(s, e))
  {
    if e.Boot? || e.ListRunning? || e.Crash? {
      ListingKeepsTodo(s, e);
    } else if e.FinalizeStep? {
      FinalizeKeepsTodo(s, e);
    } else {
      RequestsKeepTodo(s, e);
    }
  }

  lemma WorkKeepsHits(s: State, w: nat, a: Act)
    requires ClaimInv(s) && HitInv(s) && WorkEnabled(s, w, a) && !WorkStep(s, w, a).missed
    ensures HitInv(WorkStep(s, w, a))
  {
    var t := WorkStep(s, w, a);
    assert PcClaimOk(s, s.workers[w]);
    assert forall v :: 0 <= v < |s.workers| && v != w ==> t.workers[v] == s.workers[v] && PcClaimOk(s, s.workers[v]);
  }

  lemma OthersKeepHits(s: State, e: Event)
    requires ClaimInv(s) && RestartInv(s) && ForeignInv(s) && HitInv(s) && Enabled(s, e) && !e.Work?
    ensures HitInv(Step(s, e))
  {
    var t := Step(s, e);
    if e.RestartFailed? { assert RestartRow(s, e.id); }
    if !s.phase.Serving? || e.Crash? {
      assert forall v :: 0 <= v < |t.workers| ==> t.workers[v].Idle?;
    }
  }

  lemma MissedIsForEver(s: State, e: Event)
    requires Enabled(s, e)
    ensures s.missed ==> Step(s, e).missed
    ensures !e.Work? ==> Step(s, e).missed == s.missed
    ensures e.Work? ==> Step(s, e).phase == s.phase
  {
    if e.Work? { WorkMisses(s, e.w, e.a); }
  }

  lemma WorkMisses(s: State, w: nat, a: Act)
    requires WorkEnabled(s, w, a)
    ensures s.missed ==> WorkStep(s, w, a).missed
    ensures WorkStep(s, w, a).phase == s.phase
  {
  }

  lemma StepKeepsLife(s: State, e: Event)
    requires LifeInv(s) && Enabled(s, e)
    ensures LifeInv(Step(s, e))
  {
    MissedIsForEver(s, e);
    StepKeepsInv(s, e);
    StepKeepsClaims(s, e);
    StepKeepsRestarts(s, e);
    StepKeepsOwnership(s, e);
    if e.Work? {
      if !Step(s, e).missed {
        WorkKeepsHits(s, e.w, e.a);
      }
    } else {
      if e.Rec? { RecKeepsTodo(s, e.r); } else { OthersKeepTodo(s, e); }
      if !s.missed {
        OthersKeepHits(s, e);
      }
    }
  }

  lemma {:induction false} RunKeepsLife(s: State, es: seq<Event>, t: State)
    requires LifeInv(s) && Run(s, es, t)
    ensures LifeInv(t)
    decreases |es|
  {
    if es != [] {
      StepKeepsLife(s, es[0]);
      RunKeepsLife(Step(s, es[0]), es[1..], t);
    }
  }

  lemma ReachableLife(n: nat, s: State)
    requires Reachable(n, s)
    ensures LifeInv(s)
  {
    var es :| Run(Init(n), es, s);
    RunKeepsLife(Init(n), es, s);
  }

  /**
    When ClaimQueuedTask hands out a task nobody else has: exactly when its
    guarded UPDATE changed the row, which is exactly when no worker had claimed
    that id since the panel started. The code does not read the row count.
  */
  lemma ClaimIsExclusiveIffUpdateHit(n: nat, s: State, w: nat)
    requires Reachable(n, s) && WorkEnabled(s, w, Update)
    ensures s.rows[s.workers[w].id].status == Queued <==> s.workers[w].id !in s.claimed
    ensures s.rows[s.workers[w].id].status == Queued ==>
              forall v :: 0 <= v < |s.workers| && PastUpdate(s.workers[v]) ==> s.workers[v].id != s.workers[w].id
  {
    ReachableLife(n, s);
    assert PcClaimOk(s, s.workers[w]);
    assert forall v :: 0 <= v < |s.workers| ==> PcClaimOk(s, s.workers[v]);
  }

  /** A status change the documentation allows, and the kind of step that may make it. */
  predicate Legal(e: Event, old': Status, new': Status) {
    || old' == new'
    || (old' == Queued && new' == Status.Running && e.Work? && e.a.Update?)
    || (old' == Status.Running && Terminal(new'))
    || (old' == Status.Running && new' == Queued && e == Rec(PutBack))
  }

  lemma WorkMovesForward(s: State, w: nat, a: Act, i: nat)
    requires HitInv(s) && WorkEnabled(s, w, a) && !WorkStep(s, w, a).missed && i < |s.rows|
    ensures i < |WorkStep(s, w, a).rows| && Legal(Work(w, a), s.rows[i].status, WorkStep(s, w, a).rows[i].status)
  {
  }

  lemma OthersMoveForward(s: State, e: Event, i: nat)
    requires RestartInv(s) && TodoOk(s) && Enabled(s, e) && !e.Work? && i < |s.rows|
    ensures i < |Step(s, e).rows| && Legal(e, s.rows[i].status, Step(s, e).rows[i].status)
  {
    if e.RestartFailed? { assert RestartRow(s, e.id); }
  }

  /**
    Statuses move only queued, running, success or failure, except for a
    reconciler's running to queued, on every run in which no guarded UPDATE has
    missed its row.
  */
  lemma StatusesMoveForward(n: nat, s: State, e: Event, i: nat)
    requires Reachable(n, s) && Enabled(s, e) && !Step(s, e).missed && i < |s.rows|
    ensures Legal(e, s.rows[i].status, Step(s, e).rows[i].status)
  {
    ReachableLife(n, s);
    MissedIsForEver(s, e);
    if e.Work? {
      WorkMovesForward(s, e.w, e.a, i);
    } else {
      OthersMoveForward(s, e, i);
    }
  }

  /** Once workers run, every running row is in the hands of a live worker or is a panel restart. */
  lemma RunningRowsAreOwned(n: nat, s: State, i: nat)
    requires Reachable(n, s) && s.phase.Serving? && i < |s.rows| && s.rows[i].status == Status.Running
    ensures s.rows[i].job.PanelRestart? || Owned(s, i)
  {
    ReachableLife(n, s);
    assert Excused(s, i);
  }

  /** FinalizeBoot leaves no panel_restart row running when requests are first served. */
  lemma FinalizeBootClosesRestarts(n: nat, s: State, i: nat)
    requires Reachable(n, s) && s.phase == Finalizing([]) && i < |s.rows| && s.rows[i].job.PanelRestart?
    ensures Terminal(s.rows[i].status)
  {
    ReachableLife(n, s);
    assert s.rows[i].status == Status.Running ==> Excused(s, i);
  }

  // ---- claim taken as one step ----

  /** Every SELECT is directly followed by the same worker's UPDATE. */
  predicate OneStepClaims(es: seq<Event>) {
    forall i :: 0 <= i < |es| && es[i].Work? && es[i].a.Select? ==>
      i + 1 < |es| && es[i + 1] == Work(es[i].w, Update)
  }

  predicate NobodySelected(s: State) {
    forall w :: 0 <= w < |s.workers| ==> !s.workers[w].Selected?
  }

  /** A SELECT directly followed by its UPDATE leaves nobody selected and misses nothing. */
  lemma ClaimHits(s: State, w: nat)
    requires NobodySelected(s) && !s.missed && WorkEnabled(s, w, Select)
    ensures var u := WorkStep(s, w, Select);
            WorkEnabled(u, w, Update)
            && NobodySelected(WorkStep(u, w, Update)) && !WorkStep(u, w, Update).missed && !u.missed
  {
    FirstIsLeast(s.rows, Queued, 0);
  }

  lemma WorkSelectsNobody(s: State, w: nat, a: Act)
    requires NobodySelected(s) && !s.missed && WorkEnabled(s, w, a) && !a.Select?
    ensures NobodySelected(WorkStep(s, w, a)) && !WorkStep(s, w, a).missed
  {
  }

  lemma OtherStepSelectsNobody(s: State, e: Event)
    requires NobodySelected(s) && !s.missed && Enabled(s, e) && !(e.Work? && e.a.Select?)
    ensures NobodySelected(Step(s, e)) && !Step(s, e).missed
  {
    if e.Work? { WorkSelectsNobody(s, e.w, e.a); }
  }

  lemma {:induction false} OneStepClaimsNeverMiss(s: State, es: seq<Event>, t: State)
    requires NobodySelected(s) && !s.missed && OneStepClaims(es) && Run(s, es, t)
    ensures !t.missed && NobodySelected(t)
    decreases |es|
  {
    if es != [] {
      var u := Step(s, es[0]);
      var rest := es[1..];
      assert forall i :: 0 <= i < |rest| ==> rest[i] == es[i + 1];
      if es[0].Work? && es[0].a.Select? {
        ClaimHits(s, es[0].w);
        assert rest[0] == Work(es[0].w, Update);
        var more := rest[1..];
        assert forall i :: 0 <= i < |more| ==> more[i] == es[i + 2];
        OneStepClaimsNeverMiss(Step(u, rest[0]), more, t);
      } else {
        OtherStepSelectsNobody(s, es[0]);
        OneStepClaimsNeverMiss(u, rest, t);
      }
    }
  }

  /** The same of a run that may stop between a SELECT and its UPDATE. */
  predicate ClaimsSoFar(es: seq<Event>) {
    forall i :: 0 <= i && i + 1 < |es| && es[i].Work? && es[i].a.Select? ==> es[i + 1] == Work(es[i].w, Update)
  }

  lemma {:induction false} ClaimsSoFarNeverMiss(s: State, es: seq<Event>, t: State, e: Event)
    requires NobodySelected(s) && !s.missed && ClaimsSoFar(es + [e]) && Run(s, es, t) && Enabled(t, e)
    ensures !Step(t, e).missed
    decreases |es|
  {
    if es == [] {
      if e.Work? && e.a.Select? { ClaimHits(s, e.w); } else { OtherStepSelectsNobody(s, e); }
    } else {
      var rest := es[1..];
      assert forall i :: 0 <= i < |rest + [e]| ==> (rest + [e])[i] == (es + [e])[i + 1];
      if es[0].Work? && es[0].a.Select? {
        ClaimHits(s, es[0].w);
        assert (es + [e])[0] == es[0] && (es + [e])[1] == Work(es[0].w, Update);
        if rest != [] {
          var more := rest[1..];
          assert forall i :: 0 <= i < |more + [e]| ==> (more + [e])[i] == (es + [e])[i + 2];
          ClaimsSoFarNeverMiss(Step(Step(s, es[0]), rest[0]), more, t, e);
        }
      } else {
        OtherStepSelectsNobody(s, es[0]);
        ClaimsSoFarNeverMiss(Step(s, es[0]), rest, t, e);
      }
    }
  }

  /** With the claim as the single step its comment describes, the lifecycle holds without condition. */
  lemma LifecycleWithAtomicClaim(n: nat, es: seq<Event>, s: State, e: Event, i: nat)
    requires ClaimsSoFar(es + [e]) && Run(Init(n), es, s) && Enabled(s, e) && i < |s.rows|
    ensures Legal(e, s.rows[i].status, Step(s, e).rows[i].status)
  {
    ClaimsSoFarNeverMiss(Init(n), es, s, e);
    StatusesMoveForward(n, s, e, i);
  }

  // ---- finish hooks ----

  /** The terminal write of `who` not yet answered by hooks nor cut off by a crash. */
  function Owed(log: seq<Entry>, who: Actor): Option<(nat, Status)> {
    if log == [] then None
    else
      var last := log[|log| - 1];
      if last.CrashEntry? then None
      else if last.who != who then Owed(log[..|log| - 1], who)
      else if last.WroteEntry? then Some((last.id, last.status))
      else None
  }

  /** Each hook round pays for one earlier write with the same status; no write comes while one is unpaid. */
  predicate Disciplined(log: seq<Entry>) {
    forall i :: 0 <= i < |log| ==> EntryOk(log[..i], log[i])
  }

  predicate EntryOk(before: seq<Entry>, e: Entry) {
    match e
    case CrashEntry => true
    case WroteEntry(who, _, _) => Owed(before, who).None?
    case HookEntry(who, id, status) => Owed(before, who) == Some((id, status))
  }

  function Debt(s: State, who: Actor): Option<(nat, Status)> {
    match who
    case Worker(w) =>
      if w < |s.workers| && s.workers[w].Holding?
         && (s.workers[w].stage.Wrote? || s.workers[w].stage.CopyingHooks?)
      then Some((s.workers[w].id, StatusOf(s.workers[w].stage.ok))) else None
    case Reconcile =>
      if s.phase.Reconciling? && s.phase.todo != [] && (s.phase.pc.Owing? || s.phase.pc.Copying?)
      then Some((s.phase.todo[0], StatusOf(s.phase.pc.ok))) else None
  }

  ghost predicate HookInv(s: State) {
    && Disciplined(s.log)
    && forall who :: Owed(s.log, who) == Debt(s, who)
  }

  lemma DisciplinedSnoc(log: seq<Entry>, e: Entry)
    requires Disciplined(log) && EntryOk(log, e)
    ensures Disciplined(log + [e])
    ensures forall who :: Owed(log + [e], who) ==
              (if e.CrashEntry? then None
               else if e.who != who then Owed(log, who)
               else if e.WroteEntry? then Some((e.id, e.status)) else None)
  {
    var more := log + [e];
    assert more[..|log|] == log;
    forall i | 0 <= i < |more|
      ensures EntryOk(more[..i], more[i])
    {
      if i < |log| {
        assert more[..i] == log[..i];
        assert EntryOk(log[..i], log[i]);
      }
    }
  }

  /** What a step adds to the log is what the actor owed, and leaves what the actor owes next. */
  ghost predicate Books(s: State, t: State) {
    || (t.log == s.log && forall who :: Debt(t, who) == Debt(s, who))
    || (|t.log| == |s.log| + 1 && t.log == s.log + [t.log[|s.log|]] && BooksEntry(s, t, t.log[|s.log|]))
  }

  ghost predicate BooksEntry(s: State, t: State, e: Entry) {
    match e
    case CrashEntry => forall who :: Debt(t, who).None?
    case WroteEntry(a, id, status) =>
      Debt(s, a).None? && forall who :: Debt(t, who) == if who == a then Some((id, status)) else Debt(s, who)
    case HookEntry(a, id, status) =>
      Debt(s, a) == Some((id, status)) && forall who :: Debt(t, who) == if who == a then None else Debt(s, who)
  }

  lemma WorkBooks(s: State, w: nat, a: Act)
    requires WorkEnabled(s, w, a)
    ensures Books(s, WorkStep(s, w, a))
  {
    var t := WorkStep(s, w, a);
    assert forall v: nat :: v != w && v < |s.workers| ==> t.workers[v] == s.workers[v];
  }

  lemma RecBooks(s: State, r: RecAct)
    requires RecEnabled(s, r) && BootInv(s)
    ensures Books(s, RecStep(s, r))
  {
  }

  lemma OtherBooks(s: State, e: Event)
    requires Enabled(s, e) && !e.Work? && !e.Rec?
    ensures Books(s, Step(s, e))
  {
  }

  lemma StepKeepsHooks(s: State, e: Event)
    requires HookInv(s) && BootInv(s) && Enabled(s, e)
    ensures HookInv(Step(s, e))
  {
    var t := Step(s, e);
    match e {
      case Work(w, a) => WorkBooks(s, w, a);
      case Rec(r) => RecBooks(s, r);
      case _ => OtherBooks(s, e);
    }
    BooksKeepHooks(s, t);
  }

  lemma BooksKeepHooks(s: State, t: State)
    requires HookInv(s) && Books(s, t)
    ensures HookInv(t)
  {
    if |t.log| == |s.log| + 1 {
      DisciplinedSnoc(s.log, t.log[|s.log|]);
    }
  }

  lemma {:induction false} RunKeepsHooks(s: State, es: seq<Event>, t: State)
    requires HookInv(s) && Inv(s) && Run(s, es, t)
    ensures HookInv(t)
    decreases |es|
  {
    if es != [] {
      StepKeepsHooks(s, es[0]);
      StepKeepsInv(s, es[0]);
      RunKeepsHooks(Step(s, es[0]), es[1..], t);
    }
  }

  /** Entry `j` is the first after `i` that belongs to `who` or is a crash. */
  predicate NextOf(log: seq<Entry>, who: Actor, i: nat, j: nat) {
    && i < j < |log|
    && (log[j].CrashEntry? || log[j].who == who)
    && forall k :: i < k < j ==> !log[k].CrashEntry? && log[k].who != who
  }

  lemma {:induction false} OwedUntil(log: seq<Entry>, i: nat, j: nat)
    requires i < j <= |log| && log[i].WroteEntry?
    requires forall k :: i < k < j ==> !log[k].CrashEntry? && log[k].who != log[i].who
    ensures Owed(log[..j], log[i].who) == Some((log[i].id, log[i].status))
    decreases j
  {
    assert log[..j][..j - 1] == log[..j - 1];
    if j > i + 1 {
      OwedUntil(log, i, j - 1);
    }
  }

  /**
    Each terminal write by a worker or by reconcile is followed by exactly one
    hook round for the same task with the same status, unless a crash comes
    first or the writer has not got there yet.
  */
  lemma EveryTerminalWriteFiresHooksOnce(n: nat, s: State, i: nat, j: nat)
    requires Reachable(n, s) && i < |s.log| && s.log[i].WroteEntry?
    requires NextOf(s.log, s.log[i].who, i, j)
    ensures s.log[j].CrashEntry? || s.log[j] == HookEntry(s.log[i].who, s.log[i].id, s.log[i].status)
  {
    var es :| Run(Init(n), es, s);
    RunKeepsHooks(Init(n), es, s);
    OwedUntil(s.log, i, j);
    assert EntryOk(s.log[..j], s.log[j]);
  }

  lemma {:induction false} OwedHasWrite(log: seq<Entry>, who: Actor) returns (i: nat)
    requires Owed(log, who).Some?
    ensures i < |log| && log[i] == WroteEntry(who, Owed(log, who).value.0, Owed(log, who).value.1)
    ensures forall k :: i < k < |log| ==> !log[k].CrashEntry? && log[k].who != who
  {
    var n := |log| - 1;
    if log[n].who == who {
      i := n;
    } else {
      i := OwedHasWrite(log[..n], who);
    }
  }

  /** Conversely hooks never fire without such a write. */
  lemma NoHooksWithoutWrite(n: nat, s: State, j: nat)
    requires Reachable(n, s) && j < |s.log| && s.log[j].HookEntry?
    ensures exists i :: 0 <= i < j && s.log[i] == WroteEntry(s.log[j].who, s.log[j].id, s.log[j].status)
                        && NextOf(s.log, s.log[j].who, i, j)
  {
    var es :| Run(Init(n), es, s);
    RunKeepsHooks(Init(n), es, s);
    assert EntryOk(s.log[..j], s.log[j]);
    var i := OwedHasWrite(s.log[..j], s.log[j].who);
    assert s.log[..j][i] == s.log[i];
    assert forall k :: i < k < j ==> s.log[..j][k] == s.log[k];
    assert NextOf(s.log, s.log[j].who, i, j);
  }
}
