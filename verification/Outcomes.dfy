/**
  What a task's row ends with, over whole runs (internal/runner/runner.go:161-261,
  internal/self/service.go:95-147): the status written is what the handler or the
  reconciler said last, and a restart is closed as the source promises.
*/
module Outcomes {
  import opened TaskTable
  import opened Wrappers
  import opened Runner
  import opened RunnerExclusion
  import opened RunnerLifecycle

  /** The last step worker w took. */
  function LastAct(es: seq<Event>, w: nat): Option<Act> {
    if es == [] then None
    else
      var e := es[|es| - 1];
      if e.Work? && e.w == w then Some(e.a) else LastAct(es[..|es| - 1], w)
  }

  /** The last step of the reconciler. */
  function LastRec(es: seq<Event>): Option<RecAct> {
    if es == [] then None
    else
      var e := es[|es| - 1];
      if e.Rec? then Some(e.r) else LastRec(es[..|es| - 1])
  }

  lemma LastSnoc(es: seq<Event>, e: Event, w: nat)
    ensures LastAct(es + [e], w) == if e.Work? && e.w == w then Some(e.a) else LastAct(es, w)
    ensures LastRec(es + [e]) == if e.Rec? then Some(e.r) else LastRec(es)
  {
    assert (es + [e])[..|es|] == es;
  }

  // ---- workers ----

  predicate HasNoHandler(job: Job) { job.PanelRestart? || (job.Other? && !job.hasHandler) }

  /** A handler runs only if there is one, and what is about to be written is its last word. */
  predicate Told(s: State, w: nat, last: Option<Act>) {
    w < |s.workers| && s.workers[w].Holding? ==>
      && s.workers[w].id < |s.rows|
      && var noHandler := HasNoHandler(s.rows[s.workers[w].id].job);
         match s.workers[w].stage
         case Handling => !noHandler && last == Some(LeaveHandlerFor)
         case Returned(ok) =>
           if noHandler then !ok && last == Some(LeaveHandlerFor) else last == Some(Return(ok))
         case _ => true
  }

  lemma OwnStepTells(s: State, w: nat, a: Act, last: Option<Act>)
    requires Told(s, w, last) && RefInv(s) && WorkEnabled(s, w, a)
    ensures Told(WorkStep(s, w, a), w, Some(a))
  {
    WorkKeepsRows(s, w, a);
    assert RefOk(s, s.workers[w]);
  }

  lemma OtherStepTells(s: State, e: Event, w: nat, last: Option<Act>)
    requires w < |s.workers| && Told(s, w, last) && Enabled(s, e) && !(e.Work? && e.w == w)
    ensures Told(Step(s, e), w, last)
  {
    RowsGrow(s, e);
    SameWorker(s, e, w);
  }

  lemma WorkSparesOthers(s: State, v: nat, a: Act, w: nat)
    requires WorkEnabled(s, v, a) && v != w && w < |s.workers|
    ensures w < |WorkStep(s, v, a).workers| && WorkStep(s, v, a).workers[w] == s.workers[w]
  {
  }

  lemma SameWorker(s: State, e: Event, w: nat)
    requires Enabled(s, e) && !(e.Work? && e.w == w) && w < |s.workers|
    ensures w < |Step(s, e).workers|
    ensures Step(s, e).workers[w] == if e.Crash? then Idle else s.workers[w]
  {
    if e.Work? { WorkSparesOthers(s, e.w, e.a, w); }
  }

  lemma {:induction false} RunTells(s: State, past: seq<Event>, es: seq<Event>, t: State, w: nat)
    requires Inv(s) && Told(s, w, LastAct(past, w)) && Run(s, es, t)
    ensures Told(t, w, LastAct(past + es, w))
    decreases |es|
  {
    if es == [] {
      assert past + es == past;
    } else {
      var e := es[0];
      LastSnoc(past, e, w);
      StepKeepsInv(s, e);
      if e.Work? && e.w == w {
        OwnStepTells(s, w, e.a, LastAct(past, w));
      } else if w < |s.workers| {
        OtherStepTells(s, e, w, LastAct(past, w));
      } else {
        RowsGrow(s, e);
      }
      RunTells(Step(s, e), past + [e], es[1..], t, w);
      assert past + [e] + es[1..] == past + es;
    }
  }

  /**
    A worker writes success exactly if its own last step was the handler's
    return without an error, and failure if that was with one, or if there is
    no handler for the type, in which case none was called.
  */
  lemma FinishTellsOutcome(n: nat, es: seq<Event>, s: State, w: nat)
    requires Run(Init(n), es, s) && Enabled(s, Work(w, Finish))
    ensures var id := s.workers[w].id;
            var job := s.rows[id].job;
            var last := LastAct(es, w);
            var status := if last == Some(Return(true)) then Success else Failure;
            var t := Step(s, Work(w, Finish));
            && last in {Some(Return(true)), Some(Return(false)), Some(LeaveHandlerFor)}
            && (last == Some(LeaveHandlerFor) <==> job.PanelRestart? || (job.Other? && !job.hasHandler))
            && t.rows == s.rows[id := s.rows[id].(status := status)]
            && t.log == s.log + [WroteEntry(Worker(w), id, status)]
  {
    RunTells(Init(n), [], es, s, w);
    assert [] + es == es;
  }

  /** From its claim to its Unlock a worker stays with one task. */
  lemma {:induction false} TaskIsKept(s: State, es: seq<Event>, t: State, w: nat)
    requires Run(s, es, t) && w < |s.workers| && PastUpdate(s.workers[w])
    requires forall i :: 0 <= i < |es| ==> !es[i].Crash? && es[i] != Work(w, Unlock)
    ensures w < |t.workers| && PastUpdate(t.workers[w]) && t.workers[w].id == s.workers[w].id
    decreases |es|
  {
    if es != [] {
      var e := es[0];
      if e.Work? && e.w == w { OwnStepKeepsTask(s, w, e.a); } else { SameWorker(s, e, w); }
      TaskIsKept(Step(s, e), es[1..], t, w);
    }
  }

  lemma OwnStepKeepsTask(s: State, w: nat, a: Act)
    requires WorkEnabled(s, w, a) && PastUpdate(s.workers[w]) && !a.Unlock?
    ensures var t := WorkStep(s, w, a);
            |t.workers| == |s.workers| && PastUpdate(t.workers[w]) && t.workers[w].id == s.workers[w].id
  {
  }

  // ---- the reconciler ----

  predicate HasNoReconciler(job: Job) { job.PanelRestart? || (job.Other? && !job.hasReconciler) }

  /** What is about to be written, or put back, is what was decided last. */
  predicate RecTold(s: State, last: Option<RecAct>) {
    s.phase.Reconciling? ==>
      match s.phase.pc
      case Writing(ok) =>
        && s.phase.todo != [] && s.phase.todo[0] < |s.rows| && last == Some(Decide(Done(ok)))
        && (HasNoReconciler(s.rows[s.phase.todo[0]].job) ==> !ok)
      case Requeueing =>
        && s.phase.todo != [] && s.phase.todo[0] < |s.rows| && last == Some(Decide(Requeue))
        && !HasNoReconciler(s.rows[s.phase.todo[0]].job)
      case _ => true
  }

  lemma RecStepTells(s: State, r: RecAct)
    requires RecEnabled(s, r)
    ensures RecTold(RecStep(s, r), Some(r))
  {
  }

  lemma OtherStepKeepsRec(s: State, e: Event, last: Option<RecAct>)
    requires RecTold(s, last) && Enabled(s, e) && !e.Rec?
    ensures RecTold(Step(s, e), last)
  {
    RowsGrow(s, e);
    SamePhase(s, e);
  }

  /** Only the boot sequence, the reconciler and a crash move the phase. */
  lemma SamePhase(s: State, e: Event)
    requires Enabled(s, e) && !e.Rec?
    ensures Step(s, e).phase == s.phase || !Step(s, e).phase.Reconciling? || Step(s, e).phase.pc.Next?
  {
    if e.Work? { WorkKeepsPhase(s, e.w, e.a); }
  }

  lemma {:induction false} RunTellsRec(s: State, past: seq<Event>, es: seq<Event>, t: State)
    requires RecTold(s, LastRec(past)) && Run(s, es, t)
    ensures RecTold(t, LastRec(past + es))
    decreases |es|
  {
    if es == [] {
      assert past + es == past;
    } else {
      var e := es[0];
      LastSnoc(past, e, 0);
      if e.Rec? { RecStepTells(s, e.r); } else { OtherStepKeepsRec(s, e, LastRec(past)); }
      RunTellsRec(Step(s, e), past + [e], es[1..], t);
      assert past + [e] + es[1..] == past + es;
    }
  }

  /** A reconciler's terminal status is its last decision; a type without a reconciler fails. */
  lemma RecWriteTellsDecision(n: nat, es: seq<Event>, s: State)
    requires Run(Init(n), es, s) && Enabled(s, Rec(Write))
    ensures var id := s.phase.todo[0];
            var job := s.rows[id].job;
            var last := LastRec(es);
            var status := if last == Some(Decide(Done(true))) then Success else Failure;
            var t := Step(s, Rec(Write));
            && last in {Some(Decide(Done(true))), Some(Decide(Done(false)))}
            && (job.PanelRestart? || (job.Other? && !job.hasReconciler) ==> status == Failure)
            && t.rows == s.rows[id := s.rows[id].(status := status)]
            && t.log == s.log + [WroteEntry(Reconcile, id, status)]
  {
    RunTellsRec(Init(n), [], es, s);
    assert [] + es == es;
  }

  /** A row is queued again exactly on the decision to do so, which only a reconciler makes. */
  lemma PutBackTellsDecision(n: nat, es: seq<Event>, s: State)
    requires Run(Init(n), es, s) && Enabled(s, Rec(PutBack))
    ensures var id := s.phase.todo[0];
            var job := s.rows[id].job;
            var t := Step(s, Rec(PutBack));
            && LastRec(es) == Some(Decide(Requeue))
            && (job.Install? || job.Uninstall? || (job.Other? && job.hasReconciler))
            && t.rows == s.rows[id := s.rows[id].(status := Queued)] && t.log == s.log
  {
    RunTellsRec(Init(n), [], es, s);
    assert [] + es == es;
  }

  // ---- which rows change ----

  /** A step that writes this row: a claim, a finish, the reconciler's two writes, or one of a panel restart. */
  predicate Writes(s: State, e: Event, id: nat)
    requires Enabled(s, e)
  {
    match e
    case Work(w, a) => (a.Update? || a.Finish?) && s.workers[w].id == id
    case Rec(r) => (r.Write? || r.PutBack?) && s.phase.todo[0] == id
    case FinalizeStep => s.phase.todo != [] && s.phase.todo[0] == id && id < |s.rows| && s.rows[id].job.PanelRestart?
    case RestartFailed(i) => i == id
    case _ => false
  }

  lemma OthersKeepRow(s: State, e: Event, id: nat)
    requires Enabled(s, e) && id < |s.rows| && !Writes(s, e, id)
    ensures id < |Step(s, e).rows| && Step(s, e).rows[id] == s.rows[id]
  {
    RowsGrow(s, e);
  }

  /** A row that is another at the end of a run was written by one of its steps: crashes, listings and new rows change none. */
  lemma {:induction false} ChangedRowWasWritten(s: State, es: seq<Event>, t: State, id: nat) returns (k: nat, u: State)
    requires Run(s, es, t) && id < |s.rows| && (id < |t.rows| ==> t.rows[id] != s.rows[id])
    ensures k < |es| && Run(s, es[..k], u) && Enabled(u, es[k]) && Writes(u, es[k], id)
    decreases |es|
  {
    if Writes(s, es[0], id) {
      k, u := 0, s;
    } else {
      OthersKeepRow(s, es[0], id);
      k, u := ChangedRowWasWritten(Step(s, es[0]), es[1..], t, id);
      assert es[..k + 1][1..] == es[1..][..k];
      k := k + 1;
    }
  }

  /**
    A worker takes the oldest queued task, and has one to take exactly if any is
    queued; the claim makes it running, or misses.
  */
  lemma OldestFirst(s: State, w: nat)
    requires s.phase.Serving? && w < |s.workers|
    ensures Enabled(s, Work(w, Select)) <==>
              s.workers[w] == Idle && exists i :: 0 <= i < |s.rows| && s.rows[i].status == Status.Queued
    ensures Enabled(s, Work(w, Select)) ==>
              var pc := Step(s, Work(w, Select)).workers[w];
              && pc.Selected? && pc.id < |s.rows| && s.rows[pc.id].status == Status.Queued
              && forall j :: 0 <= j < pc.id ==> s.rows[j].status != Status.Queued
    ensures Enabled(s, Work(w, Update)) ==>
              var id := s.workers[w].id;
              Step(s, Work(w, Update)).rows ==
              if s.rows[id].status == Status.Queued then s.rows[id := s.rows[id].(status := Status.Running)] else s.rows
  {
    FirstIsLeast(s.rows, Status.Queued, 0);
  }

  // ---- new rows ----

  lemma {:induction false} RunKeepsJobs(s: State, es: seq<Event>, t: State)
    requires Run(s, es, t)
    ensures SameKeys(s.rows, t.rows)
    decreases |es|
  {
    if es != [] {
      RowsGrow(s, es[0]);
      RunKeepsJobs(Step(s, es[0]), es[1..], t);
    }
  }

  /** A task keeps the type and the node it was enqueued with, in every run from there. */
  lemma EnqueuedAsAsked(s: State, job: Job, node: Option<nat>, es: seq<Event>, t: State)
    requires Enabled(s, Enqueue(job, node)) && Run(Step(s, Enqueue(job, node)), es, t)
    ensures |s.rows| < |t.rows| && t.rows[|s.rows|].job == job && t.rows[|s.rows|].node == node
    ensures Step(s, Enqueue(job, node)).rows[|s.rows|].status == Queued
  {
    RunKeepsJobs(Step(s, Enqueue(job, node)), es, t);
  }

  // ---- panel restarts ----

  /** What FinalizeBoot is to make of row i, given the running rows it listed. */
  function Closed(rows: seq<Row>, todo: seq<nat>, i: nat): Row
    requires i < |rows|
  {
    if i in todo && rows[i].job.PanelRestart? then rows[i].(status := Success) else rows[i]
  }

  lemma ClosedNext(s: State, i: nat)
    requires TodoOk(s) && s.phase.Finalizing? && s.phase.todo != [] && Enabled(s, FinalizeStep) && i < |s.rows|
    ensures var u := Step(s, FinalizeStep);
            && u.phase == Finalizing(s.phase.todo[1..]) && |u.rows| == |s.rows|
            && Closed(u.rows, s.phase.todo[1..], i) == Closed(s.rows, s.phase.todo, i)
  {
    var todo := s.phase.todo;
    assert todo == [todo[0]] + todo[1..];
    if i == todo[0] {
      assert i !in todo[1..];
    }
  }

  lemma {:induction false} FinalizeRun(s: State, es: seq<Event>, t: State, i: nat)
    requires TodoOk(s) && s.phase.Finalizing? && Run(s, es, t) && i < |s.rows|
    requires forall j :: 0 <= j < |es| ==> es[j].FinalizeStep?
    requires t.phase == Finalizing([])
    ensures |t.rows| == |s.rows| && t.rows[i] == Closed(s.rows, s.phase.todo, i)
    decreases |es|
  {
    if es != [] {
      if s.phase.todo == [] {
        NoMoreFinalizing(Step(s, es[0]), es[1..], t);
      } else {
        FinalizeKeepsTodo(s, es[0]);
        ClosedNext(s, i);
        FinalizeRun(Step(s, es[0]), es[1..], t, i);
      }
    }
  }

  lemma NoMoreFinalizing(s: State, es: seq<Event>, t: State)
    requires s.phase.Up? && Run(s, es, t) && forall i :: 0 <= i < |es| ==> es[i].FinalizeStep?
    ensures t.phase.Up?
  {
  }

  lemma {:induction false} FinalizeAddsNoRow(s: State, es: seq<Event>, t: State)
    requires Run(s, es, t) && forall j :: 0 <= j < |es| ==> es[j].FinalizeStep?
    ensures |t.rows| == |s.rows|
    decreases |es|
  {
    if es != [] { FinalizeAddsNoRow(Step(s, es[0]), es[1..], t); }
  }

  /**
    The next boot closes every restart that was still running as a success, and
    touches no other row.
  */
  lemma FinalizeBootRecordsSuccess(s: State, es: seq<Event>, t: State)
    requires Enabled(s, Boot) && Run(Step(s, Boot), es, t)
    requires (forall i :: 0 <= i < |es| ==> es[i].FinalizeStep?) && t.phase == Finalizing([])
    ensures |t.rows| == |s.rows|
    ensures forall i :: 0 <= i < |s.rows| ==>
              t.rows[i] == if s.rows[i].job.PanelRestart? && s.rows[i].status == Status.Running
                           then s.rows[i].(status := Success) else s.rows[i]
  {
    ListingIsTodo(s);
    RunningIdsExact(s.rows, 0);
    forall i | 0 <= i < |s.rows|
      ensures i < |t.rows| && t.rows[i] == Closed(s.rows, RunningIds(s.rows, 0), i)
    {
      FinalizeRun(Step(s, Boot), es, t, i);
    }
    FinalizeAddsNoRow(Step(s, Boot), es, t);
  }

  predicate FailedRestart(s: State, id: nat) {
    id < |s.rows| && s.rows[id].job.PanelRestart? && s.rows[id].status == Failure
  }

  lemma FailedRestartKept(s: State, e: Event, id: nat)
    requires LifeInv(s) && FailedRestart(s, id) && Enabled(s, e)
    ensures FailedRestart(Step(s, e), id)
  {
    RowsGrow(s, e);
    if e.Work? { WorkSparesRestarts(s, e.w, e.a, id); }
  }

  lemma {:induction false} FailedRestartStays(s: State, es: seq<Event>, t: State, id: nat)
    requires LifeInv(s) && FailedRestart(s, id) && Run(s, es, t)
    ensures FailedRestart(t, id)
    decreases |es|
  {
    if es != [] {
      FailedRestartKept(s, es[0], id);
      StepKeepsLife(s, es[0]);
      FailedRestartStays(Step(s, es[0]), es[1..], t, id);
    }
  }

  /** A restart that could not be launched is a failure, and stays one through every later boot. */
  lemma FailedRestartIsFinal(n: nat, s: State, id: nat, es: seq<Event>, t: State)
    requires Reachable(n, s) && Enabled(s, RestartFailed(id)) && Run(Step(s, RestartFailed(id)), es, t)
    ensures id < |t.rows| && t.rows[id].job.PanelRestart? && t.rows[id].status == Failure
  {
    ReachableLife(n, s);
    assert RestartRow(s, id);
    StepKeepsLife(s, RestartFailed(id));
    FailedRestartStays(Step(s, RestartFailed(id)), es, t, id);
  }

  predicate RunningRestart(s: State, id: nat) {
    id < |s.rows| && s.rows[id] == Row(PanelRestart, None, Status.Running)
  }

  lemma RunningRestartKept(s: State, e: Event, id: nat)
    requires LifeInv(s) && RunningRestart(s, id) && Enabled(s, e)
    requires !e.Boot? && !e.FinalizeStep? && e != Rec(Write) && e != RestartFailed(id)
    ensures RunningRestart(Step(s, e), id)
  {
    RowsGrow(s, e);
    if e.Work? { WorkSparesRestarts(s, e.w, e.a, id); }
  }

  /** A restart is running from its request on, until it fails, the reconciler judges it or the next boot closes it. */
  lemma {:induction false} RestartRuns(s: State, es: seq<Event>, t: State, id: nat)
    requires LifeInv(s) && RunningRestart(s, id) && Run(s, es, t)
    requires forall i :: 0 <= i < |es| ==>
               !es[i].Boot? && !es[i].FinalizeStep? && es[i] != Rec(Write) && es[i] != RestartFailed(id)
    ensures RunningRestart(t, id)
    decreases |es|
  {
    if es != [] {
      RunningRestartKept(s, es[0], id);
      StepKeepsLife(s, es[0]);
      RestartRuns(Step(s, es[0]), es[1..], t, id);
    }
  }

  lemma RestartIsRunning(n: nat, s: State, es: seq<Event>, t: State)
    requires Reachable(n, s) && Enabled(s, RestartBegin) && Run(Step(s, RestartBegin), es, t)
    requires forall i :: 0 <= i < |es| ==>
               !es[i].Boot? && !es[i].FinalizeStep? && es[i] != Rec(Write) && es[i] != RestartFailed(|s.rows|)
    ensures |s.rows| < |t.rows| && t.rows[|s.rows|] == Row(PanelRestart, None, Status.Running)
  {
    ReachableLife(n, s);
    StepKeepsLife(s, RestartBegin);
    RestartRuns(Step(s, RestartBegin), es, t, |s.rows|);
  }

  /** A request inside Restart ends once: until it is launched, fails or is cut by a crash, it can do the first two. */
  lemma {:induction false} RestartStaysOpen(s: State, es: seq<Event>, t: State, id: nat)
    requires Run(s, es, t) && id in s.restarts
    requires forall i :: 0 <= i < |es| ==> es[i] != RestartLaunched(id) && es[i] != RestartFailed(id) && !es[i].Crash?
    ensures id in t.restarts
    ensures RequestsServed(t) ==> Enabled(t, RestartLaunched(id))
    decreases |es|
  {
    if es != [] {
      KeepsRequest(s, es[0], id);
      RestartStaysOpen(Step(s, es[0]), es[1..], t, id);
    }
  }

  lemma KeepsRequest(s: State, e: Event, id: nat)
    requires Enabled(s, e) && id in s.restarts
    requires e != RestartLaunched(id) && e != RestartFailed(id) && !e.Crash?
    ensures id in Step(s, e).restarts
  {
    if e.Work? { WorkKeepsRequests(s, e.w, e.a); }
  }

  lemma WorkKeepsRequests(s: State, w: nat, a: Act)
    requires WorkEnabled(s, w, a)
    ensures WorkStep(s, w, a).restarts == s.restarts
  {
  }

  lemma {:induction false} EndedStays(s: State, es: seq<Event>, t: State, id: nat)
    requires Run(s, es, t) && id < |s.rows| && id !in s.restarts
    ensures id !in t.restarts
    decreases |es|
  {
    if es != [] {
      RowsGrow(s, es[0]);
      if es[0].Work? { WorkKeepsRequests(s, es[0].w, es[0].a); }
      EndedStays(Step(s, es[0]), es[1..], t, id);
    }
  }

  /** And after that neither, on any run: a restart that was launched is not turned into a failure by its request. */
  lemma LaunchedNeverFails(n: nat, s: State, id: nat, es: seq<Event>, t: State)
    requires Reachable(n, s) && Enabled(s, RestartLaunched(id)) && Run(Step(s, RestartLaunched(id)), es, t)
    ensures !Enabled(t, RestartFailed(id)) && !Enabled(t, RestartLaunched(id))
    ensures Step(s, RestartLaunched(id)).rows == s.rows
  {
    ReachableLife(n, s);
    assert RestartRow(s, id);
    EndedStays(Step(s, RestartLaunched(id)), es, t, id);
  }
}
