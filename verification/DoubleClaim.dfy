/**
  The gap in ClaimQueuedTask, as a concrete run: two workers select the same
  row before either updates it, both execute it, one after the other, and the
  second terminal status overwrites the first.
*/
module DoubleClaim {
  import opened TaskTable
  import opened Wrappers
  import opened Runner

  const job := Other(true, true)

  lemma Go(s: State, e: Event)
    requires Reachable(2, s) && Enabled(s, e)
    ensures Reachable(2, Step(s, e))
  {
    var es :| Run(Init(2), es, s);
    RunSnoc(Init(2), es, s, e);
  }

  function At(status: Status, a: Pc, b: Pc): State {
    State([Row(job, None, status)], Serving, [a, b], NoMu(), map[], [], {}, {}, false, [])
  }

  function BothClaimed(): State {
    At(Status.Running, Claimed(0), Claimed(0)).(claimed := {0}, missed := true)
  }

  /** A claimed state again, once worker 0 has run task 0 to success. */
  function FirstDone(): State {
    BothClaimed().(
      rows := [Row(job, None, Success)], workers := [Idle, Claimed(0)], nodeLocks := map[0 := 0], locks := [None],
      log := [WroteEntry(Worker(0), 0, Success), HookEntry(Worker(0), 0, Success)])
  }

  function SecondReturned(): State {
    FirstDone().(workers := [Idle, Holding(0, 0, Returned(false))], locks := [Some(1)])
  }

  lemma ReachQueue()
    ensures Reachable(2, At(Queued, Idle, Idle))
  {
    var s := Init(2);
    assert Run(s, [], s);
    Go(s, Boot); s := Step(s, Boot);
    Go(s, FinalizeStep); s := Step(s, FinalizeStep);
    Go(s, ListRunning); s := Step(s, ListRunning);
    Go(s, Rec(Stop)); s := Step(s, Rec(Stop));
    Go(s, Enqueue(job, None)); s := Step(s, Enqueue(job, None));
    assert s == At(Queued, Idle, Idle);
  }

  lemma ReachBothClaimed()
    ensures Reachable(2, BothClaimed())
  {
    ReachQueue();
    var s := At(Queued, Idle, Idle);
    assert FirstQueued(s.rows) == Some(0);
    Go(s, Work(0, Select)); s := Step(s, Work(0, Select));
    assert s == At(Queued, Selected(0), Idle) && FirstQueued(s.rows) == Some(0);
    Go(s, Work(1, Select)); s := Step(s, Work(1, Select));
    assert s == At(Queued, Selected(0), Selected(0));
    Go(s, Work(0, Update)); s := Step(s, Work(0, Update));
    assert s == At(Status.Running, Claimed(0), Selected(0)).(claimed := {0});
    Go(s, Work(1, Update)); s := Step(s, Work(1, Update));
    assert s == BothClaimed();
  }

  function FirstIn(pc: Pc, owner: Option<nat>): State {
    BothClaimed().(workers := [pc, Claimed(0)], nodeLocks := map[0 := 0], locks := [owner])
  }

  lemma ReachFirstWaiting()
    ensures Reachable(2, FirstIn(Waiting(0, 0), None))
  {
    ReachBothClaimed();
    var s := BothClaimed();
    Go(s, Work(0, LockMu)); s := Step(s, Work(0, LockMu));
    Go(s, Work(0, Lookup)); s := Step(s, Work(0, Lookup));
    Go(s, Work(0, Create)); s := Step(s, Work(0, Create));
    Go(s, Work(0, UnlockMu)); s := Step(s, Work(0, UnlockMu));
    assert s == FirstIn(Waiting(0, 0), None);
  }

  lemma ReachFirstHandling()
    ensures Reachable(2, FirstIn(Holding(0, 0, Handling), Some(0)))
  {
    ReachFirstWaiting();
    var s := FirstIn(Waiting(0, 0), None);
    Go(s, Work(0, Lock)); s := Step(s, Work(0, Lock));
    Go(s, Work(0, EnterHandlerFor)); s := Step(s, Work(0, EnterHandlerFor));
    Go(s, Work(0, LeaveHandlerFor)); s := Step(s, Work(0, LeaveHandlerFor));
    assert s == FirstIn(Holding(0, 0, Handling), Some(0));
  }

  /** Worker 0 has written its success and not yet fired the hooks. */
  function FirstWritten(): State {
    FirstIn(Holding(0, 0, Wrote(true)), Some(0)).(
      rows := [Row(job, None, Success)], log := [WroteEntry(Worker(0), 0, Success)])
  }

  lemma ReachFirstWritten()
    ensures Reachable(2, FirstWritten())
  {
    ReachFirstHandling();
    var s := FirstIn(Holding(0, 0, Handling), Some(0));
    Go(s, Work(0, Return(true))); s := Step(s, Work(0, Return(true)));
    Go(s, Work(0, Finish)); s := Step(s, Work(0, Finish));
    assert s == FirstWritten();
  }

  lemma ReachFirstDone()
    ensures Reachable(2, FirstDone())
  {
    ReachFirstWritten();
    var s := FirstWritten();
    Go(s, Work(0, EnterFireFinish)); s := Step(s, Work(0, EnterFireFinish));
    Go(s, Work(0, LeaveFireFinish)); s := Step(s, Work(0, LeaveFireFinish));
    Go(s, Work(0, Unlock)); s := Step(s, Work(0, Unlock));
    assert s == FirstDone();
  }

  lemma ReachSecondWaiting()
    ensures Reachable(2, FirstDone().(workers := [Idle, Waiting(0, 0)]))
  {
    ReachFirstDone();
    var s := FirstDone();
    Go(s, Work(1, LockMu)); s := Step(s, Work(1, LockMu));
    Go(s, Work(1, Lookup)); s := Step(s, Work(1, Lookup));
    assert s.workers == [Idle, HasRef(0, 0)];
    Go(s, Work(1, UnlockMu)); s := Step(s, Work(1, UnlockMu));
    assert s == FirstDone().(workers := [Idle, Waiting(0, 0)]);
  }

  lemma ReachSecondReturned()
    ensures Reachable(2, SecondReturned())
  {
    ReachSecondWaiting();
    var s := FirstDone().(workers := [Idle, Waiting(0, 0)]);
    Go(s, Work(1, Lock)); s := Step(s, Work(1, Lock));
    Go(s, Work(1, EnterHandlerFor)); s := Step(s, Work(1, EnterHandlerFor));
    Go(s, Work(1, LeaveHandlerFor)); s := Step(s, Work(1, LeaveHandlerFor));
    Go(s, Work(1, Return(false))); s := Step(s, Work(1, Return(false)));
    assert s == SecondReturned();
  }

  /** Two workers can hold the same task id. */
  lemma TwoWorkersCanClaimOneTask()
    ensures exists s :: Reachable(2, s) && |s.workers| == 2
              && s.workers[0] == Claimed(0) && s.workers[1] == Claimed(0)
  {
    ReachBothClaimed();
  }

  /** After a double claim a success that hooks already reported can turn into a failure. */
  lemma SuccessCanBeOverwritten()
    ensures exists s :: Reachable(2, s) && Enabled(s, Work(1, Finish)) && |s.rows| == 1
              && s.rows[0].status == Success && HookEntry(Worker(0), 0, Success) in s.log
              && Step(s, Work(1, Finish)).rows[0].status == Failure
  {
    ReachSecondReturned();
    var s := SecondReturned();
    assert s.log[1] == HookEntry(Worker(0), 0, Success);
    assert Enabled(s, Work(1, Finish));
  }
}
