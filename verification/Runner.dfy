/**
  The background task runner (internal/runner/runner.go) as interleaved steps.

  A state holds the shared table, the phase of the panel process, one program
  counter per worker goroutine, the reader/writer mutex r.mu, the nodeLocks map
  and the mutex objects it points to. Every statement that touches shared data
  is one step; a crash may come between any two of them. `restarts` are the
  requests inside self.Restart. `claimed`, `missed` and `log` only record what
  happened: nothing below reads them to decide a step.
*/
module Runner {
  import opened TaskTable
  import opened Wrappers

  datatype Actor = Worker(w: nat) | Reconcile

  /** Where a worker stands inside `execute` once it holds the node lock. */
  datatype Stage =
    | Locked                            // lock just acquired
    | ReadingHandlers                   // in handlerFor, holding r.mu for reading
    | Handling                          // the handler is running
    | Returned(ok: bool)                // handler is back, FinishTask not yet called
    | Wrote(ok: bool)                    // terminal status written, fireFinish not yet entered
    | CopyingHooks(ok: bool)            // in fireFinish, holding r.mu for reading
    | FiringHooks(ok: bool)             // hooks run, nothing of r.mu held

  datatype Pc =
    | Idle
    | Selected(id: nat)                 // SELECT done, guarded UPDATE pending
    | Claimed(id: nat)                  // in nodeLock, wants r.mu
    | InMu(id: nat)                     // holds r.mu, map not read yet
    | Missing(id: nat)                  // holds r.mu, key was absent
    | HasRef(id: nat, lock: nat)        // holds r.mu, has the mutex object
    | Waiting(id: nat, lock: nat)       // r.mu released, in l.Lock()
    | Holding(id: nat, lock: nat, stage: Stage)

  datatype RecPc =
    | Next                              // loop head of reconcile
    | ReadingReconcilers                // in reconcilerFor, holding r.mu for reading
    | Deciding                          // the reconciler is running (or there is none)
    | Writing(ok: bool)
    | Requeueing
    | Owing(ok: bool)                   // terminal status written, fireFinish not yet entered
    | Copying(ok: bool)                 // in fireFinish, holding r.mu for reading
    | Firing(ok: bool)

  datatype Phase =
    | Down
    | Finalizing(todo: seq<nat>)        // FinalizeBoot, before anything else starts
    | Up                                // requests are served, reconcile has not listed yet
    | Reconciling(todo: seq<nat>, pc: RecPc)
    | Serving                           // reconcile is over, workers run

  datatype Mu = Mu(writer: Option<Actor>, readers: set<Actor>)

  datatype Entry =
    | WroteEntry(who: Actor, id: nat, status: Status)
    | HookEntry(who: Actor, id: nat, status: Status)
    | CrashEntry

  datatype State = State(
    rows: seq<Row>,
    phase: Phase,
    workers: seq<Pc>,
    mu: Mu,
    nodeLocks: map<nat, nat>,
    locks: seq<Option<nat>>,
    restarts: set<nat>,
    claimed: set<nat>,
    missed: bool,
    log: seq<Entry>)

  datatype Act =
    | Select | Update | LockMu | Lookup | Create | UnlockMu | Lock
    | EnterHandlerFor | LeaveHandlerFor | Return(ok: bool) | Finish
    | EnterFireFinish | LeaveFireFinish | Unlock

  datatype Decision = Done(ok: bool) | Requeue

  datatype RecAct =
    | Take | LeaveReconcilerFor | Decide(d: Decision) | Write
    | PutBack | EnterHooks | LeaveHooks | Advance | Stop

  datatype Event =
    | Boot
    | FinalizeStep
    | ListRunning
    | Rec(r: RecAct)
    | Work(w: nat, a: Act)
    | Enqueue(job: Job, node: Option<nat>)
    | RestartBegin
    | RestartLaunched(id: nat)
    | RestartFailed(id: nat)
    | Crash

  function NoMu(): Mu { Mu(None, {}) }

  function Init(n: nat): State {
    State([], Down, seq(n, _ => Idle), NoMu(), map[], [], {}, {}, false, [])
  }

  function StatusOf(ok: bool): Status {
    if ok then Success else Failure
  }

  predicate Busy(pc: Pc) { !pc.Idle? }

  predicate HasLockRef(pc: Pc) { pc.HasRef? || pc.Waiting? || pc.Holding? }

  predicate HoldsMuWrite(pc: Pc) { pc.InMu? || pc.Missing? || pc.HasRef? }

  predicate HoldsMuRead(pc: Pc) {
    pc.Holding? && (pc.stage.ReadingHandlers? || pc.stage.CopyingHooks?)
  }

  predicate RecHoldsMuRead(p: Phase) {
    p.Reconciling? && (p.pc.ReadingReconcilers? || p.pc.Copying?)
  }

  predicate CanRead(mu: Mu) { mu.writer.None? }

  predicate CanWrite(mu: Mu) { mu.writer.None? && mu.readers == {} }

  // ---- worker steps (runner.go:161-206) ----

  predicate WorkEnabled(s: State, w: nat, a: Act) {
    && s.phase.Serving?
    && w < |s.workers|
    && var pc := s.workers[w];
       match a
       case Select => pc.Idle? && FirstQueued(s.rows).Some?
       case Update => pc.Selected? && pc.id < |s.rows|
       case LockMu => pc.Claimed? && CanWrite(s.mu)
       case Lookup => pc.InMu? && pc.id < |s.rows|
       case Create => pc.Missing? && pc.id < |s.rows|
       case UnlockMu => pc.HasRef?
       case Lock => pc.Waiting? && pc.lock < |s.locks| && s.locks[pc.lock].None?
       case EnterHandlerFor => pc.Holding? && pc.stage.Locked? && CanRead(s.mu)
       case LeaveHandlerFor => pc.Holding? && pc.stage.ReadingHandlers? && pc.id < |s.rows|
       case Return(_) => pc.Holding? && pc.stage.Handling?
       case Finish => pc.Holding? && pc.stage.Returned? && pc.id < |s.rows|
       case EnterFireFinish => pc.Holding? && pc.stage.Wrote? && CanRead(s.mu)
       case LeaveFireFinish => pc.Holding? && pc.stage.CopyingHooks?
       case Unlock => pc.Holding? && pc.stage.FiringHooks? && pc.lock < |s.locks|
  }

  function Goto(s: State, w: nat, pc: Pc): State
    requires w < |s.workers|
  {
    s.(workers := s.workers[w := pc])
  }

  function GotoStage(s: State, w: nat, stage: Stage): State
    requires w < |s.workers| && s.workers[w].Holding?
  {
    Goto(s, w, s.workers[w].(stage := stage))
  }

  function WorkStep(s: State, w: nat, a: Act): State
    requires WorkEnabled(s, w, a)
  {
    var pc := s.workers[w];
    match a
    case Select => Goto(s, w, Selected(FirstQueued(s.rows).value))
    case Update =>
      Goto(s, w, Claimed(pc.id)).(
        rows := MarkRunning(s.rows, pc.id),
        claimed := s.claimed + {pc.id},
        missed := s.missed || s.rows[pc.id].status != Queued)
    case LockMu => Goto(s, w, InMu(pc.id)).(mu := s.mu.(writer := Some(Worker(w))))
    case Lookup =>
      var key := NodeKey(s.rows[pc.id]);
      Goto(s, w, if key in s.nodeLocks then HasRef(pc.id, s.nodeLocks[key]) else Missing(pc.id))
    case Create =>
      var key := NodeKey(s.rows[pc.id]);
      Goto(s, w, HasRef(pc.id, |s.locks|)).(
        nodeLocks := s.nodeLocks[key := |s.locks|],
        locks := s.locks + [None])
    case UnlockMu => Goto(s, w, Waiting(pc.id, pc.lock)).(mu := s.mu.(writer := None))
    case Lock => Goto(s, w, Holding(pc.id, pc.lock, Locked)).(locks := s.locks[pc.lock := Some(w)])
    case EnterHandlerFor =>
      GotoStage(s, w, ReadingHandlers).(mu := s.mu.(readers := s.mu.readers + {Worker(w)}))
    case LeaveHandlerFor =>
      GotoStage(s, w, if s.rows[pc.id].job.HasHandler() then Handling else Returned(false)).(
        mu := s.mu.(readers := s.mu.readers - {Worker(w)}))
    case Return(ok) => GotoStage(s, w, Returned(ok))
    case Finish =>
      GotoStage(s, w, Wrote(pc.stage.ok)).(
        rows := SetStatus(s.rows, pc.id, StatusOf(pc.stage.ok)),
        log := s.log + [WroteEntry(Worker(w), pc.id, StatusOf(pc.stage.ok))])
    case EnterFireFinish =>
      GotoStage(s, w, CopyingHooks(pc.stage.ok)).(mu := s.mu.(readers := s.mu.readers + {Worker(w)}))
    case LeaveFireFinish =>
      GotoStage(s, w, FiringHooks(pc.stage.ok)).(
        mu := s.mu.(readers := s.mu.readers - {Worker(w)}),
        log := s.log + [HookEntry(Worker(w), pc.id, StatusOf(pc.stage.ok))])
    case Unlock => Goto(s, w, Idle).(locks := s.locks[pc.lock := None])
  }

  // ---- boot-time reconciliation (runner.go:209-261) ----

  predicate RecEnabled(s: State, r: RecAct) {
    && s.phase.Reconciling?
    && var pc := s.phase.pc;
       var todo := s.phase.todo;
       match r
       case Take => pc.Next? && todo != [] && CanRead(s.mu)
       case LeaveReconcilerFor => pc.ReadingReconcilers?
       case Decide(d) => pc.Deciding? && todo != [] && todo[0] < |s.rows|
                         && (!s.rows[todo[0]].job.HasReconciler() ==> d == Done(false))
       case Write => pc.Writing? && todo != [] && todo[0] < |s.rows|
       case PutBack => pc.Requeueing? && todo != [] && todo[0] < |s.rows|
       case EnterHooks => pc.Owing? && CanRead(s.mu)
       case LeaveHooks => pc.Copying? && todo != []
       case Advance => pc.Firing? && todo != []
       case Stop => pc.Next? && todo == []
  }

  function RecStep(s: State, r: RecAct): State
    requires RecEnabled(s, r)
  {
    match r
    case Take =>
      s.(phase := s.phase.(pc := ReadingReconcilers), mu := s.mu.(readers := s.mu.readers + {Reconcile}))
    case LeaveReconcilerFor =>
      s.(phase := s.phase.(pc := Deciding), mu := s.mu.(readers := s.mu.readers - {Reconcile}))
    case Decide(d) =>
      s.(phase := s.phase.(pc := if d.Requeue? then Requeueing else Writing(d.ok)))
    case Write =>
      var status := StatusOf(s.phase.pc.ok);
      s.(phase := s.phase.(pc := Owing(s.phase.pc.ok)),
         rows := SetStatus(s.rows, s.phase.todo[0], status),
         log := s.log + [WroteEntry(Reconcile, s.phase.todo[0], status)])
    case PutBack =>
      s.(phase := Reconciling(s.phase.todo[1..], Next), rows := SetStatus(s.rows, s.phase.todo[0], Queued))
    case EnterHooks =>
      s.(phase := s.phase.(pc := Copying(s.phase.pc.ok)), mu := s.mu.(readers := s.mu.readers + {Reconcile}))
    case LeaveHooks =>
      s.(phase := s.phase.(pc := Firing(s.phase.pc.ok)),
         mu := s.mu.(readers := s.mu.readers - {Reconcile}),
         log := s.log + [HookEntry(Reconcile, s.phase.todo[0], StatusOf(s.phase.pc.ok))])
    case Advance => s.(phase := Reconciling(s.phase.todo[1..], Next))
    case Stop => s.(phase := Serving)
  }

  // ---- FinalizeBoot, requests, crash ----

  predicate RequestsServed(s: State) {
    s.phase.Up? || s.phase.Reconciling? || s.phase.Serving?
  }

  predicate Enabled(s: State, e: Event) {
    match e
    case Boot => s.phase.Down?
    case FinalizeStep => s.phase.Finalizing? && (s.phase.todo != [] ==> s.phase.todo[0] < |s.rows|)
    case ListRunning => s.phase.Up?
    case Rec(r) => RecEnabled(s, r)
    case Work(w, a) => WorkEnabled(s, w, a)
    case Enqueue(job, node) =>
      && RequestsServed(s) && !job.PanelRestart?
      && ((job.Install? || job.Uninstall?) ==> node == Some(job.node))
    case RestartBegin => RequestsServed(s)
    case RestartLaunched(id) => RequestsServed(s) && id in s.restarts
    case RestartFailed(id) => RequestsServed(s) && id in s.restarts && id < |s.rows|
    case Crash => !s.phase.Down?
  }

  function Step(s: State, e: Event): State
    requires Enabled(s, e)
  {
    match e
    case Boot => s.(phase := Finalizing(RunningIds(s.rows, 0)))
    case FinalizeStep =>
      if s.phase.todo == [] then s.(phase := Up)
      else
        var id := s.phase.todo[0];
        s.(phase := Finalizing(s.phase.todo[1..]),
           rows := if s.rows[id].job.PanelRestart? then SetStatus(s.rows, id, Success) else s.rows)
    case ListRunning => s.(phase := Reconciling(RunningIds(s.rows, 0), Next))
    case Rec(r) => RecStep(s, r)
    case Work(w, a) => WorkStep(s, w, a)
    case Enqueue(job, node) => s.(rows := s.rows + [Row(job, node, Queued)])
    case RestartBegin =>
      s.(rows := s.rows + [Row(PanelRestart, None, Running)], restarts := s.restarts + {|s.rows|})
    case RestartLaunched(id) => s.(restarts := s.restarts - {id})
    case RestartFailed(id) => s.(restarts := s.restarts - {id}, rows := SetStatus(s.rows, id, Failure))
    case Crash =>
      // only the table survives; the history variables are ours
      State(s.rows, Down, seq(|s.workers|, _ => Idle), NoMu(), map[], [], {}, {}, s.missed, s.log + [CrashEntry])
  }

  /** `t` is reached from `s` by taking `es` in order, each enabled when it comes. */
  ghost predicate Run(s: State, es: seq<Event>, t: State)
    decreases |es|
  {
    if es == [] then s == t
    else Enabled(s, es[0]) && Run(Step(s, es[0]), es[1..], t)
  }

  ghost predicate Reachable(n: nat, s: State) {
    exists es :: Run(Init(n), es, s)
  }

  lemma {:induction false} RunAppend(s: State, es: seq<Event>, t: State, fs: seq<Event>, u: State)
    requires Run(s, es, t) && Run(t, fs, u)
    ensures Run(s, es + fs, u)
    decreases |es|
  {
    if es == [] {
      assert es + fs == fs;
    } else {
      RunAppend(Step(s, es[0]), es[1..], t, fs, u);
      assert (es + fs)[1..] == es[1..] + fs;
    }
  }

  lemma RunSnoc(s: State, es: seq<Event>, t: State, e: Event)
    requires Run(s, es, t) && Enabled(t, e)
    ensures Run(s, es + [e], Step(t, e))
  {
    assert Run(Step(t, e), [], Step(t, e));
    assert [e][1..] == [];
    assert Run(t, [e], Step(t, e));
    RunAppend(s, es, t, [e], Step(t, e));
  }
}
