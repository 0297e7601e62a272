/**
  The gap in the uninstall reconciler (internal/apps/tasks.go:237-245), as a
  concrete run: an application is installed, its uninstall crashes after the
  unit was removed and before the record was, and after the reboot the task is
  written off as a success with the record still in the table.
*/
module UninstallCrash {
  import opened TaskTable
  import opened Wrappers
  import opened Runner
  import opened Installations
  import opened InstallRuns

  const install := Install(1, "a", Native)
  const uninstall := Uninstall(1, "a", Native)
  const record := Record(1, "a", Native, Installed)

  lemma Go(s: AppState, e: AppEvent) returns (t: AppState)
    requires AppReachable(1, s) && AppEnabled(s, e)
    ensures AppReachable(1, t) && t == AppStep(s, e)
  {
    var es :| AppRun(AppInit(1), es, s);
    t := AppStep(s, e);
    assert AppRun(t, [], t);
    AppRunJoin(AppInit(1), es, s, [e], t);
  }

  /** A step of the one worker, other than the end of its handler. */
  lemma Works(s: AppState, a: Act) returns (t: AppState)
    requires AppReachable(1, s) && WorkEnabled(s.r, 0, a) && !a.Return? && s.progs != []
    ensures AppReachable(1, t)
    ensures t == s.(r := WorkStep(s.r, 0, a), progs := if a.LeaveHandlerFor? then s.progs[0 := Start] else s.progs)
  {
    t := Go(s, RunnerStep(Work(0, a)));
  }

  function Table(rows: seq<Row>, recs: seq<Record>, prog: Prog, locks: seq<Option<nat>>, pc: Pc, claimed: set<nat>, log: seq<Entry>): AppState {
    AppState(State(rows, Serving, [pc], NoMu(), if locks == [] then map[] else map[1 := 0], locks, {}, claimed, false, log),
             recs, {1}, 2, [prog], Looking, false)
  }

  function InstallRow(status: Status): Row { Row(install, Some(1), status) }

  function UninstallRow(status: Status): Row { Row(uninstall, Some(1), status) }

  /** The log once the install has ended. */
  function InstallLog(): seq<Entry> {
    [WroteEntry(Worker(0), 0, Success), HookEntry(Worker(0), 0, Success)]
  }

  function PanelUp(): AppState {
    Table([], [], Start, [], Idle, {}, [])
  }

  lemma ReachPanelUp()
    ensures AppReachable(1, PanelUp())
  {
    var s := AppInit(1);
    assert AppRun(s, [], s);
    s := Go(s, AddNode);
    s := Go(s, RunnerStep(Boot));
    s := Go(s, RunnerStep(FinalizeStep));
    s := Go(s, RunnerStep(ListRunning));
    s := Go(s, RunnerStep(Rec(Stop)));
    assert s == PanelUp();
  }

  function InstallQueued(): AppState {
    Table([InstallRow(Queued)], [], Start, [], Idle, {}, [])
  }

  lemma ReachInstallQueued()
    ensures AppReachable(1, InstallQueued())
  {
    ReachPanelUp();
    var s := PanelUp();
    var e := RunnerStep(Enqueue(install, Some(1)));
    s := Go(s, e);
    assert s == InstallQueued();
  }

  function InstallClaimed(): AppState {
    Table([InstallRow(Status.Running)], [], Start, [], Claimed(0), {0}, [])
  }

  lemma ReachInstallClaimed()
    ensures AppReachable(1, InstallClaimed())
  {
    ReachInstallQueued();
    var s := InstallQueued();
    assert FirstQueued(s.r.rows) == Some(0);
    s := Works(s, Select);
    s := Works(s, Update);
    assert s == InstallClaimed();
  }

  function InstallWaiting(): AppState {
    Table([InstallRow(Status.Running)], [], Start, [None], Waiting(0, 0), {0}, [])
  }

  lemma ReachInstallWaiting()
    ensures AppReachable(1, InstallWaiting())
  {
    ReachInstallClaimed();
    var s := InstallClaimed();
    s := Works(s, LockMu);
    s := Works(s, Lookup);
    s := Works(s, Create);
    s := Works(s, UnlockMu);
    assert s == InstallWaiting();
  }

  function InstallHandling(): AppState {
    Table([InstallRow(Status.Running)], [], Start, [Some(0)], Holding(0, 0, Handling), {0}, [])
  }

  lemma ReachInstallHandling()
    ensures AppReachable(1, InstallHandling())
  {
    ReachInstallWaiting();
    var s := InstallWaiting();
    s := Works(s, Lock);
    s := Works(s, EnterHandlerFor);
    s := Works(s, LeaveHandlerFor);
    assert s == InstallHandling();
  }

  function InstallRecorded(): AppState {
    Table([InstallRow(Status.Running)], [record], Over(true), [Some(0)], Holding(0, 0, Handling), {0}, [])
  }

  lemma ReachInstallRecorded()
    ensures AppReachable(1, InstallRecorded())
  {
    ReachInstallHandling();
    var s := InstallHandling();
    s := Go(s, Handler(0, Check));
    s := Go(s, Handler(0, Deploy(true)));
    s := Go(s, Handler(0, Insert));
    assert s == InstallRecorded();
  }

  function InstallWritten(): AppState {
    Table([InstallRow(Success)], [record], Over(true), [Some(0)], Holding(0, 0, Wrote(true)), {0}, InstallLog()[..1])
  }

  lemma ReachInstallWritten()
    ensures AppReachable(1, InstallWritten())
  {
    ReachInstallRecorded();
    var s := InstallRecorded();
    s := Go(s, RunnerStep(Work(0, Return(true))));
    s := Works(s, Finish);
    assert s == InstallWritten();
  }

  function InstallDone(): AppState {
    Table([InstallRow(Success)], [record], Over(true), [None], Idle, {0}, InstallLog())
  }

  lemma ReachInstallDone()
    ensures AppReachable(1, InstallDone())
  {
    ReachInstallWritten();
    var s := InstallWritten();
    s := Works(s, EnterFireFinish);
    s := Works(s, LeaveFireFinish);
    s := Works(s, Unlock);
    assert s == InstallDone();
  }

  /** Both rows, the install done, the uninstall in the worker's hands. */
  function Uninstalling(prog: Prog, lock: Option<nat>, pc: Pc): AppState {
    Table([InstallRow(Success), UninstallRow(Status.Running)], [record], prog, [lock], pc, {0, 1}, InstallLog())
  }

  lemma ReachUninstallClaimed()
    ensures AppReachable(1, Uninstalling(Over(true), None, Claimed(1)))
  {
    ReachInstallDone();
    var s := InstallDone();
    var e := RunnerStep(Enqueue(uninstall, Some(1)));
    s := Go(s, e);
    assert First(s.r.rows, Queued, 1) == Some(1) && FirstQueued(s.r.rows) == First(s.r.rows, Queued, 1);
    s := Works(s, Select);
    s := Works(s, Update);
    assert s == Uninstalling(Over(true), None, Claimed(1));
  }

  lemma ReachUninstallWaiting()
    ensures AppReachable(1, Uninstalling(Over(true), None, Waiting(1, 0)))
  {
    ReachUninstallClaimed();
    var s := Uninstalling(Over(true), None, Claimed(1));
    s := Works(s, LockMu);
    s := Works(s, Lookup);
    s := Works(s, UnlockMu);
    assert s == Uninstalling(Over(true), None, Waiting(1, 0));
  }

  lemma ReachUninstallHandling()
    ensures AppReachable(1, Uninstalling(Start, Some(0), Holding(1, 0, Handling)))
  {
    ReachUninstallWaiting();
    var s := Uninstalling(Over(true), None, Waiting(1, 0));
    s := Works(s, Lock);
    s := Works(s, EnterHandlerFor);
    s := Works(s, LeaveHandlerFor);
    assert s == Uninstalling(Start, Some(0), Holding(1, 0, Handling));
  }

  /** The unit is gone from the node, the record not yet from the table. */
  function UnitRemoved(): AppState {
    Uninstalling(Deleting, Some(0), Holding(1, 0, Handling))
  }

  lemma ReachUnitRemoved()
    ensures AppReachable(1, UnitRemoved())
  {
    ReachUninstallHandling();
    var s := Uninstalling(Start, Some(0), Holding(1, 0, Handling));
    assert Matches(s.recs[0], 1, "a") && Has(s.recs, 1, "a");
    s := Go(s, Handler(0, Check));
    s := Go(s, Handler(0, Remove));
    assert s == UnitRemoved();
  }

  /** After the crash, in a phase of the next boot. */
  function Rebooted(phase: Phase): AppState {
    AppState(
      State([InstallRow(Success), UninstallRow(Status.Running)], phase, [Idle], NoMu(), map[], [],
            {}, {}, false, InstallLog() + [CrashEntry]),
      [record], {1}, 2, [Deleting], Looking, false)
  }

  lemma RowOneIsRunning(s: AppState)
    requires s.r.rows == [InstallRow(Success), UninstallRow(Status.Running)]
    ensures RunningIds(s.r.rows, 0) == [1]
  {
    assert RunningIds(s.r.rows, 1) == [1] + RunningIds(s.r.rows, 2);
  }

  lemma ReachUp()
    ensures AppReachable(1, Rebooted(Up))
  {
    ReachUnitRemoved();
    var s := UnitRemoved();
    s := Go(s, RunnerStep(Crash));
    assert s == Rebooted(Down);
    RowOneIsRunning(s);
    s := Go(s, RunnerStep(Boot));
    s := Go(s, RunnerStep(FinalizeStep));
    s := Go(s, RunnerStep(FinalizeStep));
    assert s == Rebooted(Up);
  }

  lemma ReachDeciding()
    ensures AppReachable(1, Rebooted(Reconciling([1], Deciding)))
  {
    ReachUp();
    var s := Rebooted(Up);
    RowOneIsRunning(s);
    s := Go(s, RunnerStep(ListRunning));
    s := Go(s, RunnerStep(Rec(Take)));
    s := Go(s, RunnerStep(Rec(LeaveReconcilerFor)));
    assert s == Rebooted(Reconciling([1], Deciding));
  }

  /** A reconciled uninstall can end in success with its record still in the table. */
  lemma UninstallSuccessCanLeaveRecord()
    ensures exists s :: AppReachable(1, s) && |s.r.rows| == 2
              && s.r.rows[1] == UninstallRow(Success) && Has(s.recs, 1, "a")
  {
    ReachDeciding();
    var s := Rebooted(Reconciling([1], Deciding));
    s := Go(s, Observe(NotThere));
    var decide := RunnerStep(Rec(Decide(Done(true))));
    s := Go(s, decide);
    s := Go(s, RunnerStep(Rec(Write)));
    assert Matches(s.recs[0], 1, "a");
  }
}
