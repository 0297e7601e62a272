/**
  For how many workers the status order holds although a claim is two
  statements (internal/store/background_tasks.go:100-117): exactly for one. The
  panel starts three.
*/
module WorkerCount {
  import opened TaskTable
  import opened Runner
  import opened RunnerExclusion
  import opened RunnerLifecycle
  import opened DoubleClaim

  predicate LegalStep(s: State, e: Event, i: nat) {
    Enabled(s, e) && i < |s.rows| ==> i < |Step(s, e).rows| && Legal(e, s.rows[i].status, Step(s, e).rows[i].status)
  }

  /** Every status change of every run is one the documentation allows. */
  ghost predicate OrderHolds(n: nat) {
    forall s, e, i: nat :: Reachable(n, s) ==> LegalStep(s, e, i)
  }

  // ---- one worker ----

  predicate StillQueued(s: State) {
    forall w :: 0 <= w < |s.workers| && s.workers[w].Selected? ==>
      s.workers[w].id < |s.rows| && s.rows[s.workers[w].id].status == Queued
  }

  lemma WorkKeepsQueued(s: State, w: nat, a: Act)
    requires |s.workers| <= 1 && StillQueued(s) && !s.missed && WorkEnabled(s, w, a)
    ensures StillQueued(WorkStep(s, w, a)) && !WorkStep(s, w, a).missed
  {
    FirstIsLeast(s.rows, Queued, 0);
  }

  lemma OthersKeepQueued(s: State, e: Event)
    requires LifeInv(s) && StillQueued(s) && !s.missed && Enabled(s, e) && !e.Work?
    ensures StillQueued(Step(s, e)) && !Step(s, e).missed
  {
    if e.RestartFailed? { assert RestartRow(s, e.id); }
    if !s.phase.Serving? {
      assert forall w :: 0 <= w < |s.workers| ==> s.workers[w].Idle?;
    }
  }

  lemma {:induction false} OneWorkerNeverMisses(s: State, es: seq<Event>, t: State)
    requires |s.workers| <= 1 && LifeInv(s) && StillQueued(s) && !s.missed && Run(s, es, t)
    ensures StillQueued(t) && !t.missed
    decreases |es|
  {
    if es != [] {
      if es[0].Work? { WorkKeepsQueued(s, es[0].w, es[0].a); } else { OthersKeepQueued(s, es[0]); }
      StepKeepsLife(s, es[0]);
      RowsGrow(s, es[0]);
      OneWorkerNeverMisses(Step(s, es[0]), es[1..], t);
    }
  }

  lemma OneWorkerKeepsOrder(n: nat, s: State, e: Event, i: nat)
    requires n <= 1 && Reachable(n, s)
    ensures LegalStep(s, e, i)
  {
    if Enabled(s, e) && i < |s.rows| {
      var es :| Run(Init(n), es, s);
      RunSnoc(Init(n), es, s, e);
      OneWorkerNeverMisses(Init(n), es + [e], Step(s, e));
      RowsGrow(s, e);
      StatusesMoveForward(n, s, e, i);
    }
  }

  // ---- more workers that stay idle ----

  function Lift(s: State, m: nat): State {
    s.(workers := s.workers + seq(m, _ => Idle))
  }

  lemma LiftWork(s: State, w: nat, a: Act, m: nat)
    requires WorkEnabled(s, w, a)
    ensures WorkEnabled(Lift(s, m), w, a) && WorkStep(Lift(s, m), w, a) == Lift(WorkStep(s, w, a), m)
  {
    var idle: seq<Pc> := seq(m, _ => Idle);
    var pc := WorkStep(s, w, a).workers[w];
    assert (s.workers + idle)[w := pc] == s.workers[w := pc] + idle;
  }

  lemma LiftRec(s: State, r: RecAct, m: nat)
    requires RecEnabled(s, r)
    ensures RecEnabled(Lift(s, m), r) && RecStep(Lift(s, m), r) == Lift(RecStep(s, r), m)
  {
  }

  lemma LiftOthers(s: State, e: Event, m: nat)
    requires Enabled(s, e) && !e.Work? && !e.Rec?
    ensures Enabled(Lift(s, m), e) && Step(Lift(s, m), e) == Lift(Step(s, e), m)
  {
    if e.Crash? {
      assert Step(Lift(s, m), e).workers == Lift(Step(s, e), m).workers;
    }
  }

  lemma LiftStep(s: State, e: Event, m: nat)
    requires Enabled(s, e)
    ensures Enabled(Lift(s, m), e) && Step(Lift(s, m), e) == Lift(Step(s, e), m)
  {
    match e {
      case Work(w, a) => LiftWork(s, w, a, m);
      case Rec(r) => LiftRec(s, r, m);
      case _ => LiftOthers(s, e, m);
    }
  }

  lemma {:induction false} LiftRun(s: State, es: seq<Event>, t: State, m: nat)
    requires Run(s, es, t)
    ensures Run(Lift(s, m), es, Lift(t, m))
    decreases |es|
  {
    if es != [] {
      LiftStep(s, es[0], m);
      LiftRun(Step(s, es[0]), es[1..], t, m);
    }
  }

  /** The double claim of two workers is a run of any larger number. */
  lemma MoreWorkersOverwrite(n: nat)
    requires n >= 2
    ensures exists s :: Reachable(n, s) && !LegalStep(s, Work(1, Finish), 0)
  {
    SuccessCanBeOverwritten();
    var s :| Reachable(2, s) && Enabled(s, Work(1, Finish)) && |s.rows| == 1
             && s.rows[0].status == Success && HookEntry(Worker(0), 0, Success) in s.log
             && Step(s, Work(1, Finish)).rows[0].status == Failure;
    var es :| Run(Init(2), es, s);
    LiftRun(Init(2), es, s, n - 2);
    assert Lift(Init(2), n - 2) == Init(n);
    LiftStep(s, Work(1, Finish), n - 2);
    assert Reachable(n, Lift(s, n - 2));
    assert !LegalStep(Lift(s, n - 2), Work(1, Finish), 0);
  }

  /** The documented order of statuses holds on every run exactly if there is at most one worker. */
  lemma StatusOrderIffOneWorker(n: nat)
    ensures OrderHolds(n) <==> n <= 1
  {
    if n <= 1 {
      forall s, e, i: nat | Reachable(n, s) ensures LegalStep(s, e, i) {
        OneWorkerKeepsOrder(n, s, e, i);
      }
    } else {
      MoreWorkersOverwrite(n);
    }
  }
}
