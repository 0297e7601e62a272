/** What runs of install and uninstall tasks promise about the installation records. */
module InstallSafety {
  import opened TaskTable
  import opened Runner
  import opened Installations
  import opened InstallRuns
  import opened InstallInvariant

  /** In every run, with crashes and node deletions anywhere, there is at most one record per (node, app). */
  lemma AtMostOneRecord(n: nat, s: AppState, i: nat, j: nat)
    requires AppReachable(n, s) && i < j < |s.recs|
    ensures s.recs[i].node != s.recs[j].node || s.recs[i].app != s.recs[j].app
  {
    AppReachableInv(n, s);
  }

  /** The UNIQUE constraint never fires: at every insert the record is still absent. */
  lemma InsertNeverCollides(n: nat, s: AppState, e: AppEvent)
    requires AppReachable(n, s) && AppEnabled(s, e)
    ensures e.Handler? && e.a.Insert? ==> !Has(s.recs, JobOf(s, e.w).node, JobOf(s, e.w).app)
    ensures e.RecInsert? ==> !Has(s.recs, RecJob(s).node, RecJob(s).app)
  {
    AppReachableInv(n, s);
    if e.Handler? { assert HandlerKnows(s, e.w); }
  }

  /** An install task ends in success with its record present, exactly when its node was not deleted meanwhile. */
  lemma InstallSuccessHasRecord(n: nat, s: AppState, w: nat)
    requires AppReachable(n, s) && AppEnabled(s, RunnerStep(Work(w, Finish)))
    requires s.r.workers[w].stage.ok && s.r.rows[s.r.workers[w].id].job.Install?
    ensures Handles(s, w)
    ensures Has(s.recs, JobOf(s, w).node, JobOf(s, w).app) <==> JobOf(s, w).node in s.nodes
  {
    AppReachableInv(n, s);
    assert Handles(s, w) && HandlerKnows(s, w);
  }

  /** The same for a success that reconciliation writes. */
  lemma ReconciledInstallHasRecord(n: nat, s: AppState)
    requires AppReachable(n, s) && RecHandles(s) && RecJob(s).Install?
    requires AppEnabled(s, RunnerStep(Rec(Write))) && s.r.phase.pc.ok
    ensures Has(s.recs, RecJob(s).node, RecJob(s).app) <==> RecJob(s).node in s.nodes
  {
    AppReachableInv(n, s);
    assert RecKnows(s);
  }

  /** An uninstall task that a worker ends in success has no record left. */
  lemma UninstallSuccessHasNoRecord(n: nat, s: AppState, w: nat)
    requires AppReachable(n, s) && AppEnabled(s, RunnerStep(Work(w, Finish)))
    requires s.r.workers[w].stage.ok && s.r.rows[s.r.workers[w].id].job.Uninstall?
    ensures Handles(s, w) && !Has(s.recs, JobOf(s, w).node, JobOf(s, w).app)
  {
    AppReachableInv(n, s);
    assert Handles(s, w) && HandlerKnows(s, w);
  }

  /**
    A reconciled uninstall gives no such promise: the reconciler looks at the
    node only. When it writes success the record is there exactly if it was
    there when the reconciler looked and the node has not been deleted since,
    whatever steps came in between, and the write leaves it there.
  */
  lemma ReconciledUninstallKeepsTable(n: nat, s: AppState)
    requires AppReachable(n, s) && RecHandles(s) && RecJob(s).Uninstall?
    requires AppEnabled(s, RunnerStep(Rec(Write))) && s.r.phase.pc.ok
    ensures Has(s.recs, RecJob(s).node, RecJob(s).app) <==> s.had && RecJob(s).node in s.nodes
    ensures var t := AppStep(s, RunnerStep(Rec(Write)));
            t.r.rows[s.r.phase.todo[0]].status == Success && t.recs == s.recs
  {
    AppReachableInv(n, s);
    assert RecKnows(s);
  }

  /** Node ids are not used again: a node that was there still is exactly if no step deleted it. */
  lemma {:induction false} DeletedForGood(s: AppState, es: seq<AppEvent>, t: AppState, node: nat)
    requires AppInv(s) && AppRun(s, es, t) && node < s.nextNode
    ensures node in t.nodes <==> node in s.nodes && DeleteNode(node) !in es
    decreases |es|
  {
    if es != [] {
      assert es == [es[0]] + es[1..];
      AppStepKeepsInv(s, es[0]);
      DeletedForGood(AppStep(s, es[0]), es[1..], t, node);
    }
  }

  /** Only an observation sets `had`, to whether the record is there at that moment. */
  lemma {:induction false} HadStays(s: AppState, es: seq<AppEvent>, t: AppState)
    requires AppRun(s, es, t) && forall i :: 0 <= i < |es| ==> !es[i].Observe?
    ensures t.had == s.had
    decreases |es|
  {
    if es != [] {
      HadStays(AppStep(s, es[0]), es[1..], t);
    }
  }

  /**
    The same from the moment the reconciler finds the unit gone, at `s`, to its
    success for that job, at `t`: the record is there then exactly if it was at
    `s` and none of the steps since deleted the node.
  */
  lemma ReconciledUninstallRecord(n: nat, s: AppState, es: seq<AppEvent>, t: AppState)
    requires AppReachable(n, s) && AppEnabled(s, Observe(NotThere)) && AppRun(AppStep(s, Observe(NotThere)), es, t)
    requires forall i :: 0 <= i < |es| ==> !es[i].Observe?
    requires RecHandles(t) && RecJob(t) == RecJob(s) && RecJob(t).Uninstall?
    requires AppEnabled(t, RunnerStep(Rec(Write))) && t.r.phase.pc.ok
    ensures Has(t.recs, RecJob(t).node, RecJob(t).app) <==>
              Has(s.recs, RecJob(s).node, RecJob(s).app) && DeleteNode(RecJob(s).node) !in es
  {
    var u := AppStep(s, Observe(NotThere));
    var before :| AppRun(AppInit(n), before, s);
    assert [Observe(NotThere)][1..] == [] && AppRun(u, [], u) && AppRun(s, [Observe(NotThere)], u);
    AppRunJoin(AppInit(n), before, s, [Observe(NotThere)], u);
    AppRunJoin(AppInit(n), before + [Observe(NotThere)], u, es, t);
    AppReachableInv(n, u);
    HadStays(u, es, t);
    DeletedForGood(u, es, t, RecJob(s).node);
    ReconciledUninstallKeepsTable(n, t);
  }
}
