/**
  What a reconciler decides about an install or uninstall, from what it saw on
  the node (internal/apps/tasks.go:192-292), over every run from that look to the
  decision.
*/
module Verdicts {
  import opened TaskTable
  import opened Runner
  import opened RunnerExclusion
  import opened Installations
  import opened InstallRuns

  predicate Fits(d: Decision, seen: Seen, job: Job) {
    if job.Uninstall? then
      (d == Done(true) <==> seen.NotThere?) && (d == Requeue <==> seen.Unreachable? || seen.There?)
    else
      (d == Requeue <==> seen.Unreachable?) && (d == Done(true) ==> seen.There?)
  }

  /**
    While the reconciler has this row in hand: its verdict fits what it saw. An
    install found running is still on its way to a success, as long as its node
    was not deleted (`stays`).
  */
  predicate Judged(s: AppState, todo: seq<nat>, job: Job, seen: Seen, stays: bool) {
    s.r.phase.Reconciling? && s.r.phase.pc.Deciding? ==>
      && s.r.phase.todo == todo && todo != [] && todo[0] < |s.r.rows| && s.r.rows[todo[0]].job == job
      && !s.rec.Looking?
      && (s.rec.Absent? ==> job.Install? && seen.There?)
      && (s.rec.Decided? ==> Fits(s.rec.d, seen, job))
      && (stays && job.Install? && seen.There? ==>
            (s.rec.Absent? || s.rec.d == Done(true)) && job.node in s.nodes)
  }

  predicate NoRec(e: AppEvent) { e.RunnerStep? ==> !e.e.Rec? }

  lemma LookJudges(s: AppState, seen: Seen)
    requires AppEnabled(s, Observe(seen))
    ensures Judged(AppStep(s, Observe(seen)), s.r.phase.todo, RecJob(s), seen, true)
  {
  }

  lemma RunnerStepKeepsVerdict(s: AppState, x: Event, todo: seq<nat>, job: Job, seen: Seen, stays: bool)
    requires Judged(s, todo, job, seen, stays) && AppEnabled(s, RunnerStep(x)) && !x.Rec?
    ensures Judged(AppStep(s, RunnerStep(x)), todo, job, seen, stays)
  {
    RowsGrow(s.r, x);
    if x.Work? { WorkKeepsPhase(s.r, x.w, x.a); }
  }

  lemma HandlerKeepsVerdict(s: AppState, w: nat, a: AppAct, todo: seq<nat>, job: Job, seen: Seen, stays: bool)
    requires Judged(s, todo, job, seen, stays) && HandlerEnabled(s, w, a)
    ensures Judged(HandlerStep(s, w, a), todo, job, seen, stays)
  {
    var t := HandlerStep(s, w, a);
    assert t.r == s.r && t.rec == s.rec && t.nodes == s.nodes;
  }

  lemma StepKeepsVerdict(s: AppState, e: AppEvent, todo: seq<nat>, job: Job, seen: Seen, stays: bool)
    requires Judged(s, todo, job, seen, stays) && AppEnabled(s, e) && NoRec(e)
    requires IsApp(job) && (stays ==> e != DeleteNode(job.node))
    ensures Judged(AppStep(s, e), todo, job, seen, stays)
  {
    if e.RunnerStep? {
      RunnerStepKeepsVerdict(s, e.e, todo, job, seen, stays);
    } else if e.Handler? {
      HandlerKeepsVerdict(s, e.w, e.a, todo, job, seen, stays);
    }
  }

  lemma {:induction false} RunKeepsVerdict(
      s: AppState, es: seq<AppEvent>, t: AppState, todo: seq<nat>, job: Job, seen: Seen, stays: bool)
    requires Judged(s, todo, job, seen, stays) && AppRun(s, es, t) && IsApp(job)
    requires forall i :: 0 <= i < |es| ==> NoRec(es[i]) && (stays ==> es[i] != DeleteNode(job.node))
    ensures Judged(t, todo, job, seen, stays)
    decreases |es|
  {
    if es != [] {
      StepKeepsVerdict(s, es[0], todo, job, seen, stays);
      RunKeepsVerdict(AppStep(s, es[0]), es[1..], t, todo, job, seen, stays);
    }
  }

  lemma Weaker(s: AppState, todo: seq<nat>, job: Job, seen: Seen)
    requires Judged(s, todo, job, seen, true)
    ensures Judged(s, todo, job, seen, false)
  {
  }

  /**
    From what the reconciler saw to what it then decides, whatever steps come in
    between. An uninstall is a success exactly if nothing was left on the node,
    and starts again exactly if the node could not be asked or the application
    is still there. An install starts again exactly if the node could not be
    asked, and is a success only if the application runs; then it is one, unless
    its node was deleted meanwhile.
  */
  lemma DecisionFollowsLook(s: AppState, seen: Seen, es: seq<AppEvent>, t: AppState, d: Decision)
    requires AppEnabled(s, Observe(seen)) && AppRun(AppStep(s, Observe(seen)), es, t)
    requires forall i :: 0 <= i < |es| ==> NoRec(es[i])
    requires AppEnabled(t, RunnerStep(Rec(Decide(d))))
    ensures t.r.phase.todo == s.r.phase.todo && t.r.phase.todo[0] < |t.r.rows|
    ensures t.r.rows[t.r.phase.todo[0]].job == RecJob(s)
    ensures RecJob(s).Uninstall? ==>
              (d == Done(true) <==> seen == NotThere) && (d == Requeue <==> seen == Unreachable || seen == There)
    ensures RecJob(s).Install? ==>
              && (d == Requeue <==> seen == Unreachable) && (d == Done(true) ==> seen == There)
              && (seen == There && DeleteNode(RecJob(s).node) !in es ==> d == Done(true))
  {
    var todo, job, u := s.r.phase.todo, RecJob(s), AppStep(s, Observe(seen));
    LookJudges(s, seen);
    Weaker(u, todo, job, seen);
    RunKeepsVerdict(u, es, t, todo, job, seen, false);
    if DeleteNode(job.node) !in es {
      RunKeepsVerdict(u, es, t, todo, job, seen, true);
    }
  }

  // ---- the record that is made up for ----

  predicate Settled(s: AppState, todo: seq<nat>, job: Job, d: Decision) {
    s.r.phase.Reconciling? && s.r.phase.pc.Deciding? ==>
      && s.r.phase.todo == todo && todo != [] && todo[0] < |s.r.rows| && s.r.rows[todo[0]].job == job
      && s.rec == Decided(d)
  }

  lemma StepKeepsSettled(s: AppState, e: AppEvent, todo: seq<nat>, job: Job, d: Decision)
    requires Settled(s, todo, job, d) && AppEnabled(s, e) && NoRec(e) && IsApp(job)
    ensures Settled(AppStep(s, e), todo, job, d)
  {
    if e.RunnerStep? {
      RowsGrow(s.r, e.e);
      if e.e.Work? { WorkKeepsPhase(s.r, e.e.w, e.e.a); }
    } else if e.Handler? {
      assert HandlerStep(s, e.w, e.a).r == s.r && HandlerStep(s, e.w, e.a).rec == s.rec;
    }
  }

  lemma {:induction false} RunKeepsSettled(s: AppState, es: seq<AppEvent>, t: AppState, todo: seq<nat>, job: Job, d: Decision)
    requires Settled(s, todo, job, d) && AppRun(s, es, t) && IsApp(job)
    requires forall i :: 0 <= i < |es| ==> NoRec(es[i])
    ensures Settled(t, todo, job, d)
    decreases |es|
  {
    if es != [] {
      StepKeepsSettled(s, es[0], todo, job, d);
      RunKeepsSettled(AppStep(s, es[0]), es[1..], t, todo, job, d);
    }
  }

  /**
    A running application without a record gets one, and the job then succeeds,
    exactly if its node is still there; otherwise it fails.
  */
  lemma InsertDecides(s: AppState, es: seq<AppEvent>, t: AppState, d: Decision)
    requires AppEnabled(s, RecInsert) && AppRun(AppStep(s, RecInsert), es, t)
    requires forall i :: 0 <= i < |es| ==> NoRec(es[i])
    requires AppEnabled(t, RunnerStep(Rec(Decide(d))))
    ensures t.r.phase.todo == s.r.phase.todo
    ensures d == Done(RecJob(s).node in s.nodes)
    ensures var job := RecJob(s); var u := AppStep(s, RecInsert);
            u.recs == if job.node in s.nodes then s.recs + [Record(job.node, job.app, job.how, Installed)] else s.recs
  {
    RunKeepsSettled(AppStep(s, RecInsert), es, t, s.r.phase.todo, RecJob(s), Done(RecJob(s).node in s.nodes));
  }
}
