/**
  Install and uninstall tasks on top of the runner (internal/apps/native.go,
  docker.go, tasks.go). A state pairs a runner state with the installation
  table, the set of nodes, how far each running handler has got, and how far
  the reconciler of the row under reconciliation has got.

  Work on the node itself (steps, images, containers, units, health checks) is
  a step that may succeed or fail. Every store access is a step of its own, so
  a crash, another worker or a node deletion may come in between.

  Inserting here checks only the foreign key, not UNIQUE(node_id, app_id): the
  point is that the node lock makes the constraint redundant. `had` only records
  whether the reconciler's pair had a record when it looked at the node.
*/
module InstallRuns {
  import opened TaskTable
  import opened Runner
  import opened Installations

  datatype Prog = Start | Checked | Inserting(healthy: bool) | Deleting | Over(ok: bool)

  datatype RecProg = Looking | Absent | Decided(d: Decision)

  datatype AppAct = Check | FailEarly | FailMid | Deploy(healthy: bool) | Insert | Remove | Delete

  datatype Seen = NodeGone | Unreachable | Broken | NotThere | There

  datatype AppState = AppState(
    r: State, recs: seq<Record>, nodes: set<nat>, nextNode: nat, progs: seq<Prog>, rec: RecProg, had: bool)

  datatype AppEvent =
    | RunnerStep(e: Event)
    | Handler(w: nat, a: AppAct)
    | Observe(seen: Seen)
    | RecInsert
    | AddNode
    | DeleteNode(n: nat)

  predicate IsApp(j: Job) { j.Install? || j.Uninstall? }

  function AppInit(n: nat): AppState {
    AppState(Init(n), [], {}, 1, seq(n, _ => Start), Looking, false)
  }

  predicate Handles(s: AppState, w: nat) {
    && w < |s.r.workers| && w < |s.progs|
    && s.r.workers[w].Holding? && s.r.workers[w].id < |s.r.rows|
    && IsApp(s.r.rows[s.r.workers[w].id].job)
  }

  function JobOf(s: AppState, w: nat): Job
    requires Handles(s, w)
  {
    s.r.rows[s.r.workers[w].id].job
  }

  predicate RecHandles(s: AppState) {
    && s.r.phase.Reconciling? && s.r.phase.todo != [] && s.r.phase.todo[0] < |s.r.rows|
    && IsApp(s.r.rows[s.r.phase.todo[0]].job)
  }

  function RecJob(s: AppState): Job
    requires RecHandles(s)
  {
    s.r.rows[s.r.phase.todo[0]].job
  }

  // ---- handlers (native.go:30-84 and 90-128, docker.go:123-207 and 415-483) ----

  predicate HandlerEnabled(s: AppState, w: nat, a: AppAct) {
    && Handles(s, w) && s.r.workers[w].stage.Handling?
    && var p := s.progs[w];
       var job := JobOf(s, w);
       match a
       case Check => p.Start? && (job.Install? <==> !Has(s.recs, job.node, job.app))
       case FailEarly => p.Start?
       case FailMid => p.Checked?
       case Deploy(_) => p.Checked? && job.Install?
       case Insert => p.Inserting? && job.Install?
       case Remove => p.Checked? && job.Uninstall?
       case Delete => p.Deleting? && job.Uninstall?
  }

  function HandlerStep(s: AppState, w: nat, a: AppAct): AppState
    requires HandlerEnabled(s, w, a)
  {
    var job := JobOf(s, w);
    match a
    case Check => s.(progs := s.progs[w := Checked])
    case FailEarly => s.(progs := s.progs[w := Over(false)])
    case FailMid => s.(progs := s.progs[w := Over(false)])
    case Deploy(healthy) => s.(progs := s.progs[w := Inserting(healthy)])
    case Insert =>
      // an unhealthy application is recorded as errored and the task still fails
      var healthy := s.progs[w].healthy;
      if job.node in s.nodes
      then s.(recs := s.recs + [Record(job.node, job.app, job.how, if healthy then Installed else Errored)],
              progs := s.progs[w := Over(healthy)])
      else s.(progs := s.progs[w := Over(false)])
    case Remove => s.(progs := s.progs[w := Deleting])
    case Delete => s.(recs := Without(s.recs, job.node, job.app), progs := s.progs[w := Over(true)])
  }

  // ---- reconcilers (tasks.go:192-292) ----

  predicate Looks(s: AppState) {
    RecHandles(s) && s.r.phase.pc.Deciding?
  }

  predicate ObserveEnabled(s: AppState, seen: Seen) {
    Looks(s) && s.rec.Looking? && (seen.NodeGone? <==> RecJob(s).node !in s.nodes)
  }

  function Judgement(s: AppState, seen: Seen): RecProg
    requires RecHandles(s)
  {
    var job := RecJob(s);
    match seen
    case NodeGone => Decided(Done(false))
    case Unreachable => Decided(Requeue)
    case Broken => Decided(Done(false))
    case NotThere => Decided(Done(job.Uninstall?))
    case There =>
      if job.Uninstall? then Decided(Requeue)
      else if Has(s.recs, job.node, job.app) then Decided(Done(true))
      else Absent
  }

  function ObserveStep(s: AppState, seen: Seen): AppState
    requires ObserveEnabled(s, seen)
  {
    s.(rec := Judgement(s, seen), had := Has(s.recs, RecJob(s).node, RecJob(s).app))
  }

  predicate RecInsertEnabled(s: AppState) {
    Looks(s) && s.rec.Absent? && RecJob(s).Install?
  }

  function RecInsertStep(s: AppState): AppState
    requires RecInsertEnabled(s)
  {
    var job := RecJob(s);
    if job.node in s.nodes
    then s.(recs := s.recs + [Record(job.node, job.app, job.how, Installed)], rec := Decided(Done(true)))
    else s.(rec := Decided(Done(false)))
  }

  // ---- the whole machine ----

  predicate Guard(s: AppState, e: Event) {
    match e
    case Work(w, Return(ok)) => Handles(s, w) ==> s.progs[w] == Over(ok)
    case Rec(Decide(d)) => RecHandles(s) ==> s.rec == Decided(d)
    case Enqueue(job, _) => IsApp(job) ==> job.node < s.nextNode
    case _ => true
  }

  predicate AppEnabled(s: AppState, e: AppEvent) {
    match e
    case RunnerStep(x) => Enabled(s.r, x) && Guard(s, x)
    case Handler(w, a) => HandlerEnabled(s, w, a)
    case Observe(seen) => ObserveEnabled(s, seen)
    case RecInsert => RecInsertEnabled(s)
    case AddNode => true
    case DeleteNode(n) => n in s.nodes
  }

  /** Handlers and reconcilers start afresh; a crash forgets how far they were. */
  function Progs(s: AppState, e: Event): seq<Prog> {
    match e
    case Work(w, LeaveHandlerFor) => if w < |s.progs| then s.progs[w := Start] else s.progs
    case _ => s.progs
  }

  function RecOf(s: AppState, e: Event): RecProg {
    match e
    case Rec(LeaveReconcilerFor) => Looking
    case _ => s.rec
  }

  function AppStep(s: AppState, e: AppEvent): AppState
    requires AppEnabled(s, e)
  {
    match e
    case RunnerStep(x) => s.(r := Step(s.r, x), progs := Progs(s, x), rec := RecOf(s, x))
    case Handler(w, a) => HandlerStep(s, w, a)
    case Observe(seen) => ObserveStep(s, seen)
    case RecInsert => RecInsertStep(s)
    case AddNode => s.(nodes := s.nodes + {s.nextNode}, nextNode := s.nextNode + 1)
    case DeleteNode(n) => s.(nodes := s.nodes - {n}, recs := WithoutNode(s.recs, n))
  }

  ghost predicate AppRun(s: AppState, es: seq<AppEvent>, t: AppState)
    decreases |es|
  {
    if es == [] then s == t
    else AppEnabled(s, es[0]) && AppRun(AppStep(s, es[0]), es[1..], t)
  }

  ghost predicate AppReachable(n: nat, s: AppState) {
    exists es :: AppRun(AppInit(n), es, s)
  }

  lemma {:induction false} AppRunJoin(s: AppState, es: seq<AppEvent>, t: AppState, fs: seq<AppEvent>, u: AppState)
    requires AppRun(s, es, t) && AppRun(t, fs, u)
    ensures AppRun(s, es + fs, u)
    decreases |es|
  {
    if es == [] {
      assert es + fs == fs;
    } else {
      AppRunJoin(AppStep(s, es[0]), es[1..], t, fs, u);
      assert (es + fs)[1..] == es[1..] + fs;
    }
  }
}
