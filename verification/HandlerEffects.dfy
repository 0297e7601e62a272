/**
  What the handlers of install and uninstall tasks do to the installation
  records (internal/apps/native.go:30-128, docker.go:123-207 and 415-483), from
  one of their steps to the return, over every run in between.
*/
module HandlerEffects {
  import opened TaskTable
  import opened Runner
  import opened RunnerExclusion
  import opened Installations
  import opened InstallRuns
  import opened InstallInvariant

  /** The step writes this record: a handler with the health it found, a reconciler as installed. */
  predicate Puts(s: AppState, e: AppEvent, r: Record)
    requires AppEnabled(s, e)
  {
    r.node in s.nodes &&
    match e
    case Handler(w, Insert) =>
      && JobOf(s, w).node == r.node && JobOf(s, w).app == r.app && JobOf(s, w).how == r.how
      && (r.health.Installed? <==> s.progs[w].healthy)
    case RecInsert =>
      RecJob(s).node == r.node && RecJob(s).app == r.app && RecJob(s).how == r.how && r.health.Installed?
    case _ => false
  }

  /** The step removes this record: an uninstall of its node and application, or the deletion of its node. */
  predicate Takes(s: AppState, e: AppEvent, r: Record)
    requires AppEnabled(s, e)
  {
    match e
    case Handler(w, Delete) => JobOf(s, w).node == r.node && JobOf(s, w).app == r.app
    case DeleteNode(n) => n == r.node
    case _ => false
  }

  lemma HandlerChanges(s: AppState, w: nat, a: AppAct, r: Record)
    requires HandlerEnabled(s, w, a)
    ensures var e := Handler(w, a);
            r in HandlerStep(s, w, a).recs <==> (r in s.recs && !Takes(s, e, r)) || Puts(s, e, r)
  {
    WithoutExact(s.recs, JobOf(s, w).node, JobOf(s, w).app);
  }

  lemma RecordsChange(s: AppState, e: AppEvent, r: Record)
    requires AppEnabled(s, e)
    ensures r in AppStep(s, e).recs <==> (r in s.recs && !Takes(s, e, r)) || Puts(s, e, r)
  {
    if e.Handler? {
      HandlerChanges(s, e.w, e.a, r);
    } else if e.DeleteNode? {
      WithoutNodeExact(s.recs, e.n);
    }
  }

  /** A record that appears during a run was put there by one of its steps. */
  lemma {:induction false} NewRecordWasPut(s: AppState, es: seq<AppEvent>, t: AppState, r: Record)
      returns (k: nat, u: AppState)
    requires AppRun(s, es, t) && r !in s.recs && r in t.recs
    ensures k < |es| && AppRun(s, es[..k], u) && AppEnabled(u, es[k]) && Puts(u, es[k], r)
    decreases |es|
  {
    var v := AppStep(s, es[0]);
    RecordsChange(s, es[0], r);
    if r in v.recs {
      k, u := 0, s;
    } else {
      k, u := NewRecordWasPut(v, es[1..], t, r);
      assert es[..k + 1][1..] == es[1..][..k];
      k := k + 1;
    }
  }

  /** A record that disappears during a run was taken by one of its steps: nothing else removes it. */
  lemma {:induction false} LostRecordWasTaken(s: AppState, es: seq<AppEvent>, t: AppState, r: Record)
      returns (k: nat, u: AppState)
    requires AppRun(s, es, t) && r in s.recs && r !in t.recs
    ensures k < |es| && AppRun(s, es[..k], u) && AppEnabled(u, es[k]) && Takes(u, es[k], r)
    decreases |es|
  {
    var v := AppStep(s, es[0]);
    RecordsChange(s, es[0], r);
    if r !in v.recs {
      k, u := 0, s;
    } else {
      k, u := LostRecordWasTaken(v, es[1..], t, r);
      assert es[..k + 1][1..] == es[1..][..k];
      k := k + 1;
    }
  }

  /** A node that is there can be deleted at any time; then exactly its records are gone with it. */
  lemma NodeTakesItsRecords(s: AppState, n: nat)
    requires n in s.nodes
    ensures AppEnabled(s, DeleteNode(n))
    ensures var t := AppStep(s, DeleteNode(n));
            n !in t.nodes && (forall m :: m in t.nodes <==> m in s.nodes && m != n)
            && forall r :: r in t.recs <==> r in s.recs && r.node != n
  {
    WithoutNodeExact(s.recs, n);
  }

  /** Worker `w` is still where it was, inside the handler of this job. */
  predicate Inside(s: AppState, w: nat, pc: Pc, job: Job) {
    Handles(s, w) && s.r.workers[w] == pc && pc.stage.Handling? && JobOf(s, w) == job
  }

  /** The handler of `w` neither returns nor is cut by a crash. */
  predicate GoesOn(e: AppEvent, w: nat) {
    e.RunnerStep? ==> !e.e.Crash? && !(e.e.Work? && e.e.w == w)
  }

  lemma RunnerStaysInside(s: AppState, x: Event, w: nat, pc: Pc, job: Job)
    requires Inside(s, w, pc, job) && AppEnabled(s, RunnerStep(x)) && GoesOn(RunnerStep(x), w)
    ensures Inside(AppStep(s, RunnerStep(x)), w, pc, job)
    ensures AppStep(s, RunnerStep(x)).progs[w] == s.progs[w]
  {
    RowsGrow(s.r, x);
    if x.Work? { WorkKeepsOtherHandler(s, x.w, x.a, w); }
  }

  lemma HandlerStaysInside(s: AppState, v: nat, a: AppAct, w: nat, pc: Pc, job: Job)
    requires Inside(s, w, pc, job) && HandlerEnabled(s, v, a)
    ensures Inside(HandlerStep(s, v, a), w, pc, job)
    ensures v != w ==> HandlerStep(s, v, a).progs[w] == s.progs[w]
  {
    assert HandlerStep(s, v, a).r == s.r;
  }

  lemma StaysInside(s: AppState, e: AppEvent, w: nat, pc: Pc, job: Job)
    requires Inside(s, w, pc, job) && AppEnabled(s, e) && GoesOn(e, w)
    ensures Inside(AppStep(s, e), w, pc, job)
    ensures !(e.Handler? && e.w == w) ==> AppStep(s, e).progs[w] == s.progs[w]
  {
    if e.RunnerStep? {
      RunnerStaysInside(s, e.e, w, pc, job);
    } else if e.Handler? {
      HandlerStaysInside(s, e.w, e.a, w, pc, job);
    }
  }

  /** No other step touches a record of the node the handler works on, unless the node goes. */
  lemma OthersKeepRecord(s: AppState, e: AppEvent, w: nat, pc: Pc, job: Job, r: Record)
    requires AppInv(s) && Inside(s, w, pc, job) && r.node == job.node && AppEnabled(s, e) && GoesOn(e, w)
    requires e.Handler? ==> e.w != w
    ensures r in AppStep(s, e).recs <==> r in s.recs && e != DeleteNode(job.node)
  {
    RecordsChange(s, e, r);
    if e.Handler? {
      DifferentNodes(s, e.w, w);
    } else if e.RecInsert? {
      ReconcileRunsAlone(s, w);
      assert false;
    }
  }

  // ---- an install after its health check ----

  function Recorded(job: Job, healthy: bool): Record
    requires job.Install?
  {
    Record(job.node, job.app, job.how, if healthy then Installed else Errored)
  }

  /** `kept`: the node is there throughout; `gone`: it was gone before. */
  predicate Deployed(s: AppState, w: nat, pc: Pc, job: Job, healthy: bool, kept: bool, gone: bool)
    requires job.Install?
  {
    && Inside(s, w, pc, job)
    && (kept ==> job.node in s.nodes) && (gone ==> job.node !in s.nodes)
    && match s.progs[w]
       case Inserting(h) => h == healthy
       case Over(ok) =>
         && (Recorded(job, healthy) in s.recs <==> job.node in s.nodes)
         && (ok ==> healthy) && (kept && healthy ==> ok) && (gone ==> !ok)
       case _ => false
  }

  lemma OwnInsert(s: AppState, w: nat, a: AppAct, pc: Pc, job: Job, healthy: bool, kept: bool, gone: bool)
    requires AppInv(s) && job.Install? && Deployed(s, w, pc, job, healthy, kept, gone) && HandlerEnabled(s, w, a)
    ensures Deployed(HandlerStep(s, w, a), w, pc, job, healthy, kept, gone)
  {
    HandlerChanges(s, w, a, Recorded(job, healthy));
  }

  lemma DeployedStays(s: AppState, e: AppEvent, w: nat, pc: Pc, job: Job, healthy: bool, kept: bool, gone: bool)
    requires AppInv(s) && job.Install? && Deployed(s, w, pc, job, healthy, kept, gone)
    requires AppEnabled(s, e) && GoesOn(e, w) && (kept ==> e != DeleteNode(job.node))
    ensures Deployed(AppStep(s, e), w, pc, job, healthy, kept, gone)
  {
    if e.Handler? && e.w == w {
      OwnInsert(s, w, e.a, pc, job, healthy, kept, gone);
    } else {
      StaysInside(s, e, w, pc, job);
      OthersKeepRecord(s, e, w, pc, job, Recorded(job, healthy));
      assert job.node < s.nextNode;
    }
  }

  lemma {:induction false} RunFromDeploy(
      s: AppState, es: seq<AppEvent>, t: AppState, w: nat, pc: Pc, job: Job, healthy: bool, kept: bool, gone: bool)
    requires AppInv(s) && job.Install? && Deployed(s, w, pc, job, healthy, kept, gone) && AppRun(s, es, t)
    requires forall i :: 0 <= i < |es| ==> GoesOn(es[i], w) && (kept ==> es[i] != DeleteNode(job.node))
    ensures Deployed(t, w, pc, job, healthy, kept, gone)
    decreases |es|
  {
    if es != [] {
      DeployedStays(s, es[0], w, pc, job, healthy, kept, gone);
      AppStepKeepsInv(s, es[0]);
      RunFromDeploy(AppStep(s, es[0]), es[1..], t, w, pc, job, healthy, kept, gone);
    }
  }

  lemma DeployBegins(s: AppState, w: nat, healthy: bool)
    requires HandlerEnabled(s, w, Deploy(healthy))
    ensures var job := JobOf(s, w);
            job.Install? &&
            var t := HandlerStep(s, w, Deploy(healthy));
            var gone := job.node !in s.nodes;
            && Deployed(t, w, s.r.workers[w], job, healthy, !gone, gone)
            && Deployed(t, w, s.r.workers[w], job, healthy, false, gone)
  {
  }

  /**
    From the health check of an install to its return, whatever other steps come
    in between: what is on record for the application then is its method and what
    the check found, exactly if the node is still there. A sick application
    makes the task fail, a node gone before as well, and a healthy one on a node
    that stays makes it succeed.
  */
  lemma DeployIsRecorded(
      n: nat, s: AppState, w: nat, healthy: bool, es: seq<AppEvent>, t: AppState, ok: bool)
    requires AppReachable(n, s) && AppEnabled(s, Handler(w, Deploy(healthy)))
    requires AppRun(AppStep(s, Handler(w, Deploy(healthy))), es, t)
    requires forall i :: 0 <= i < |es| ==> GoesOn(es[i], w)
    requires AppEnabled(t, RunnerStep(Work(w, Return(ok))))
    ensures var job := JobOf(s, w);
            Record(job.node, job.app, job.how, if healthy then Installed else Errored) in t.recs <==> job.node in t.nodes
    ensures ok ==> healthy && JobOf(s, w).node in s.nodes
    ensures healthy && JobOf(s, w).node in s.nodes && DeleteNode(JobOf(s, w).node) !in es ==> ok
  {
    AppReachableInv(n, s);
    var pc, job, u := s.r.workers[w], JobOf(s, w), AppStep(s, Handler(w, Deploy(healthy)));
    AppStepKeepsInv(s, Handler(w, Deploy(healthy)));
    DeployBegins(s, w, healthy);
    var gone := job.node !in s.nodes;
    RunFromDeploy(u, es, t, w, pc, job, healthy, false, gone);
    if !gone && DeleteNode(job.node) !in es {
      RunFromDeploy(u, es, t, w, pc, job, healthy, true, false);
    }
  }

  // ---- an uninstall, and a handler that gives up ----

  /** An uninstall deletes a record that is there: once it has looked, only its node's deletion can take it away. */
  lemma UninstallDeletesItsRecord(n: nat, s: AppState, w: nat)
    requires AppReachable(n, s) && AppEnabled(s, Handler(w, Delete))
    ensures Has(s.recs, JobOf(s, w).node, JobOf(s, w).app) <==> JobOf(s, w).node in s.nodes
  {
    AppReachableInv(n, s);
    assert HandlerKnows(s, w);
  }

  predicate Ends(s: AppState, w: nat, pc: Pc, job: Job, ok: bool) {
    && Inside(s, w, pc, job)
    && (s.progs[w] == Over(ok) || (ok && job.Uninstall? && s.progs[w].Deleting?))
  }

  lemma {:induction false} RunEnds(
      s: AppState, es: seq<AppEvent>, t: AppState, w: nat, pc: Pc, job: Job, ok: bool)
    requires AppInv(s) && Ends(s, w, pc, job, ok) && AppRun(s, es, t)
    requires forall i :: 0 <= i < |es| ==> GoesOn(es[i], w)
    ensures Ends(t, w, pc, job, ok)
    decreases |es|
  {
    if es != [] {
      StaysInside(s, es[0], w, pc, job);
      AppStepKeepsInv(s, es[0]);
      RunEnds(AppStep(s, es[0]), es[1..], t, w, pc, job, ok);
    }
  }

  /** A handler that gives up fails; an uninstall that has removed the application from the node succeeds. */
  lemma LastActDecides(
      n: nat, s: AppState, w: nat, a: AppAct, es: seq<AppEvent>, t: AppState, ok: bool)
    requires AppReachable(n, s) && AppEnabled(s, Handler(w, a)) && AppRun(AppStep(s, Handler(w, a)), es, t)
    requires forall i :: 0 <= i < |es| ==> GoesOn(es[i], w)
    requires AppEnabled(t, RunnerStep(Work(w, Return(ok))))
    ensures a.FailEarly? || a.FailMid? ==> !ok
    ensures a.Remove? || a.Delete? ==> ok
  {
    AppReachableInv(n, s);
    AppStepKeepsInv(s, Handler(w, a));
    if a.FailEarly? || a.FailMid? || a.Remove? || a.Delete? {
      RunEnds(AppStep(s, Handler(w, a)), es, t, w, s.r.workers[w], JobOf(s, w), a.Remove? || a.Delete?);
    }
  }
}
