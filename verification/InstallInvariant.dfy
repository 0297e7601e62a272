/** What every handler and reconciler knows about the record of its own (node, app), kept by every step. */
module InstallInvariant {
  import opened Wrappers
  import opened Runner
  import opened RunnerExclusion
  import opened Installations
  import opened InstallRuns

  /** The node key of an application task is the node its handler works on. */
  predicate JobsOk(s: AppState) {
    forall i :: 0 <= i < |s.r.rows| && IsApp(s.r.rows[i].job) ==>
      s.r.rows[i].node == Some(s.r.rows[i].job.node) && s.r.rows[i].job.node < s.nextNode
  }

  /** The worker's handler has reported success, or is about to. */
  predicate Succeeding(s: AppState, w: nat)
    requires Handles(s, w)
  {
    match s.r.workers[w].stage
    case Handling => s.progs[w] == Over(true)
    case Returned(ok) => ok
    case _ => false
  }

  /** What a handler knows about the record of its own (node, app). */
  predicate HandlerKnows(s: AppState, w: nat)
    requires Handles(s, w)
  {
    var job := JobOf(s, w);
    && (s.r.workers[w].stage.Handling? && job.Install? && (s.progs[w].Checked? || s.progs[w].Inserting?) ==>
          !Has(s.recs, job.node, job.app))
    && (s.r.workers[w].stage.Handling? && job.Uninstall? && (s.progs[w].Checked? || s.progs[w].Deleting?) ==>
          (Has(s.recs, job.node, job.app) <==> job.node in s.nodes))
    && (Succeeding(s, w) && job.Install? ==> (Has(s.recs, job.node, job.app) <==> job.node in s.nodes))
    && (Succeeding(s, w) && job.Uninstall? ==> !Has(s.recs, job.node, job.app))
  }

  predicate RecSucceeding(s: AppState)
    requires RecHandles(s)
  {
    match s.r.phase.pc
    case Deciding => s.rec == Decided(Done(true))
    case Writing(ok) => ok
    case _ => false
  }

  predicate RecKnows(s: AppState)
    requires RecHandles(s)
  {
    var job := RecJob(s);
    && (s.r.phase.pc.Deciding? && s.rec.Absent? ==> job.Install? && !Has(s.recs, job.node, job.app))
    && (RecSucceeding(s) && job.Install? ==> (Has(s.recs, job.node, job.app) <==> job.node in s.nodes))
    && (RecSucceeding(s) && job.Uninstall? ==> (Has(s.recs, job.node, job.app) <==> s.had && job.node in s.nodes))
  }

  ghost predicate AppInv(s: AppState) {
    && Inv(s.r)
    && |s.progs| == |s.r.workers|
    && Unique(s.recs) && OnNodes(s.recs, s.nodes)
    && (forall n :: n in s.nodes ==> n < s.nextNode)
    && JobsOk(s)
    && (forall w :: Handles(s, w) ==> HandlerKnows(s, w))
    && (RecHandles(s) ==> RecKnows(s))
  }

  /** Two workers inside handlers work on different nodes: the runner's exclusion, read for applications. */
  lemma DifferentNodes(s: AppState, v: nat, w: nat)
    requires Inv(s.r) && JobsOk(s) && v != w && Handles(s, v) && Handles(s, w)
    ensures JobOf(s, v).node != JobOf(s, w).node
  {
    ExclusionFromInv(s.r, v, w);
  }

  /** While reconcile runs no worker is past the lock. */
  lemma ReconcileRunsAlone(s: AppState, w: nat)
    requires Inv(s.r) && !s.r.phase.Serving?
    ensures !Handles(s, w)
  {
  }

  lemma HandlerKeepsInv(s: AppState, w: nat, a: AppAct)
    requires AppInv(s) && HandlerEnabled(s, w, a)
    ensures AppInv(HandlerStep(s, w, a))
  {
    var t := HandlerStep(s, w, a);
    var job := JobOf(s, w);
    assert HandlerKnows(s, w);
    if RecHandles(s) { ReconcileRunsAlone(s, w); assert false; }
    WithoutExact(s.recs, job.node, job.app);
    if a.Insert? && job.node in s.nodes {
      HasAfterInsert(s.recs, t.recs[|s.recs|], job.node, job.app);
    }
    HasAfterDelete(s.recs, job.node, job.app, job.node, job.app);
    assert OnNodes(t.recs, t.nodes) by {
      if a.Delete? {
        forall i | 0 <= i < |t.recs| ensures t.recs[i].node in t.nodes {
          assert t.recs[i] in s.recs;
        }
      }
    }
    NoRecordsOffNodes(t);
    forall v: nat | Handles(t, v)
      ensures HandlerKnows(t, v)
    {
      if v != w {
        assert HandlerKnows(s, v);
        DifferentNodes(s, v, w);
        OthersUntouched(s, w, a, JobOf(s, v).node, JobOf(s, v).app);
      }
    }
  }

  lemma NoRecordsOffNodes(s: AppState)
    requires OnNodes(s.recs, s.nodes)
    ensures forall n, a :: n !in s.nodes ==> !Has(s.recs, n, a)
  {
  }

  lemma OthersUntouched(s: AppState, w: nat, a: AppAct, n: nat, app: string)
    requires HandlerEnabled(s, w, a) && JobOf(s, w).node != n
    ensures Has(HandlerStep(s, w, a).recs, n, app) <==> Has(s.recs, n, app)
  {
    var job := JobOf(s, w);
    var t := HandlerStep(s, w, a);
    HasAfterDelete(s.recs, job.node, job.app, n, app);
    if a.Insert? && job.node in s.nodes {
      HasAfterInsert(s.recs, t.recs[|s.recs|], n, app);
    }
  }

  lemma ObserveKeepsRec(s: AppState, seen: Seen)
    requires ObserveEnabled(s, seen) && OnNodes(s.recs, s.nodes)
    ensures RecHandles(ObserveStep(s, seen)) && RecKnows(ObserveStep(s, seen))
  {
    NoRecordsOffNodes(s);
  }

  lemma RecInsertKeepsRec(s: AppState)
    requires RecInsertEnabled(s) && RecKnows(s) && Unique(s.recs) && OnNodes(s.recs, s.nodes)
    ensures RecHandles(RecInsertStep(s)) && RecKnows(RecInsertStep(s))
    ensures Unique(RecInsertStep(s).recs) && OnNodes(RecInsertStep(s).recs, s.nodes)
  {
    var job := RecJob(s);
    NoRecordsOffNodes(s);
    HasAfterInsert(s.recs, Record(job.node, job.app, job.how, Installed), job.node, job.app);
  }

  lemma ObserveKeepsInv(s: AppState, seen: Seen)
    requires AppInv(s) && ObserveEnabled(s, seen)
    ensures AppInv(ObserveStep(s, seen))
  {
    ObserveKeepsRec(s, seen);
    var t := ObserveStep(s, seen);
    forall w ensures !Handles(t, w) {
      ReconcileRunsAlone(t, w);
    }
  }

  lemma RecInsertKeepsInv(s: AppState)
    requires AppInv(s) && RecInsertEnabled(s)
    ensures AppInv(RecInsertStep(s))
  {
    RecInsertKeepsRec(s);
    var t := RecInsertStep(s);
    forall w ensures !Handles(t, w) {
      ReconcileRunsAlone(t, w);
    }
  }

  lemma NodeStepsKeepInv(s: AppState, e: AppEvent)
    requires AppInv(s) && AppEnabled(s, e) && (e.AddNode? || e.DeleteNode?)
    ensures AppInv(AppStep(s, e))
  {
    var t := AppStep(s, e);
    if e.DeleteNode? {
      WithoutNodeExact(s.recs, e.n);
      forall i | 0 <= i < |t.recs| ensures t.recs[i].node in t.nodes {
        assert t.recs[i] in WithoutNode(s.recs, e.n);
      }
      forall n, a ensures Has(t.recs, n, a) <==> Has(s.recs, n, a) && n != e.n {
        HasAfterDelete(s.recs, e.n, a, n, a);
      }
    }
    forall w: nat | Handles(t, w) ensures HandlerKnows(t, w) {
      assert Handles(s, w) && HandlerKnows(s, w);
    }
    assert RecHandles(t) ==> RecHandles(s) && RecKnows(s);
  }

  /** The stepping worker's handler is entered at Start, or keeps what it knows on its way out. */
  lemma WorkKeepsOwnHandler(s: AppState, w: nat, a: Act)
    requires AppEnabled(s, RunnerStep(Work(w, a))) && (Handles(s, w) ==> HandlerKnows(s, w))
    requires Handles(AppStep(s, RunnerStep(Work(w, a))), w)
    ensures HandlerKnows(AppStep(s, RunnerStep(Work(w, a))), w)
  {
    WorkKeepsRows(s.r, w, a);
  }

  /** Every other worker stays where it was. */
  lemma WorkKeepsOtherHandler(s: AppState, w: nat, a: Act, v: nat)
    requires AppEnabled(s, RunnerStep(Work(w, a))) && v != w && v < |s.r.workers|
    ensures AppStep(s, RunnerStep(Work(w, a))).r.workers[v] == s.r.workers[v]
    ensures v < |s.progs| ==> AppStep(s, RunnerStep(Work(w, a))).progs[v] == s.progs[v]
  {
  }

  lemma WorkKeepsHandlers(s: AppState, w: nat, a: Act)
    requires AppInv(s) && AppEnabled(s, RunnerStep(Work(w, a)))
    ensures forall v :: Handles(AppStep(s, RunnerStep(Work(w, a))), v) ==>
              HandlerKnows(AppStep(s, RunnerStep(Work(w, a))), v)
  {
    var t := AppStep(s, RunnerStep(Work(w, a)));
    WorkKeepsRows(s.r, w, a);
    forall v: nat | Handles(t, v) ensures HandlerKnows(t, v) {
      if v != w {
        WorkKeepsOtherHandler(s, w, a, v);
        assert Handles(s, v) && HandlerKnows(s, v);
      } else {
        WorkKeepsOwnHandler(s, w, a);
      }
    }
  }

  lemma WorkIsServing(s: AppState, w: nat, a: Act)
    requires AppEnabled(s, RunnerStep(Work(w, a)))
    ensures !RecHandles(AppStep(s, RunnerStep(Work(w, a))))
  {
  }

  lemma OthersKeepHandlers(s: AppState, e: Event)
    requires AppInv(s) && !e.Work? && AppEnabled(s, RunnerStep(e))
    ensures forall v :: Handles(AppStep(s, RunnerStep(e)), v) ==> HandlerKnows(AppStep(s, RunnerStep(e)), v)
    ensures JobsOk(AppStep(s, RunnerStep(e)))
  {
    var t := AppStep(s, RunnerStep(e));
    RowsGrow(s.r, e);
    forall v: nat | Handles(t, v) ensures HandlerKnows(t, v) {
      assert !e.Crash? && t.r.workers == s.r.workers;
      assert Busy(s.r.workers[v]) && RefOk(s.r, s.r.workers[v]);
      assert Handles(s, v) && HandlerKnows(s, v);
    }
  }

  lemma OthersKeepRec(s: AppState, e: Event)
    requires AppInv(s) && !e.Work? && AppEnabled(s, RunnerStep(e)) && RecHandles(AppStep(s, RunnerStep(e)))
    ensures RecKnows(AppStep(s, RunnerStep(e)))
  {
    var t := AppStep(s, RunnerStep(e));
    RowsGrow(s.r, e);
    if RecHandles(s) { assert RecKnows(s); }
  }

  lemma RunnerStepKeepsInv(s: AppState, x: Event)
    requires AppInv(s) && AppEnabled(s, RunnerStep(x))
    ensures AppInv(AppStep(s, RunnerStep(x)))
  {
    StepKeepsInv(s.r, x);
    RowsGrow(s.r, x);
    if x.Work? {
      WorkKeepsRows(s.r, x.w, x.a);
      WorkKeepsHandlers(s, x.w, x.a);
      WorkIsServing(s, x.w, x.a);
    } else {
      OthersKeepHandlers(s, x);
      if RecHandles(AppStep(s, RunnerStep(x))) { OthersKeepRec(s, x); }
    }
  }

  lemma AppStepKeepsInv(s: AppState, e: AppEvent)
    requires AppInv(s) && AppEnabled(s, e)
    ensures AppInv(AppStep(s, e))
  {
    match e {
      case RunnerStep(x) => RunnerStepKeepsInv(s, x);
      case Handler(w, a) => HandlerKeepsInv(s, w, a);
      case Observe(seen) => ObserveKeepsInv(s, seen);
      case RecInsert => RecInsertKeepsInv(s);
      case AddNode => NodeStepsKeepInv(s, e);
      case DeleteNode(_) => NodeStepsKeepInv(s, e);
    }
  }

  lemma {:induction false} AppRunKeepsInv(s: AppState, es: seq<AppEvent>, t: AppState)
    requires AppInv(s) && AppRun(s, es, t)
    ensures AppInv(t)
    decreases |es|
  {
    if es != [] {
      AppStepKeepsInv(s, es[0]);
      AppRunKeepsInv(AppStep(s, es[0]), es[1..], t);
    }
  }

  lemma AppReachableInv(n: nat, s: AppState)
    requires AppReachable(n, s)
    ensures AppInv(s)
  {
    var es :| AppRun(AppInit(n), es, s);
    AppRunKeepsInv(AppInit(n), es, s);
  }
}
