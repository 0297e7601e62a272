/**
  The background_tasks table (internal/store/background_tasks.go).

  Row ids come from an AUTOINCREMENT column and rows are never deleted, so the
  table is a sequence and a row's id is its index. Each SQL statement is one
  atomic operation; the functions below give its effect, the class performs it,
  and the state machine in Runner.dfy interleaves the same functions.
*/
module TaskTable {
  import opened Wrappers

  datatype Status = Queued | Running | Success | Failure

  datatype Method = Native | Docker

  /** What a row asks for; `hasHandler`/`hasReconciler` say what was registered for its type. */
  datatype Job =
    | Install(node: nat, app: string, how: Method)
    | Uninstall(node: nat, app: string, how: Method)
    | PanelRestart
    | Other(hasHandler: bool, hasReconciler: bool)
  {
    predicate HasHandler() {
      match this
      case PanelRestart => false
      case Other(h, _) => h
      case _ => true
    }

    predicate HasReconciler() {
      match this
      case PanelRestart => false
      case Other(_, r) => r
      case _ => true
    }
  }

  datatype Row = Row(job: Job, node: Option<nat>, status: Status)

  predicate Terminal(s: Status) {
    s == Success || s == Failure
  }

  /** The key of the node lock: tasks without a node share key 0. */
  function NodeKey(r: Row): nat {
    match r.node
    case Some(n) => n
    case None => 0
  }

  /** The least id with the given status from `from` on (`ORDER BY id ASC LIMIT 1`). */
  function First(rows: seq<Row>, status: Status, from: nat): Option<nat>
    requires from <= |rows|
    decreases |rows| - from
  {
    if from == |rows| then None
    else if rows[from].status == status then Some(from)
    else First(rows, status, from + 1)
  }

  function FirstQueued(rows: seq<Row>): Option<nat> {
    First(rows, Queued, 0)
  }

  lemma {:induction false} FirstIsLeast(rows: seq<Row>, status: Status, from: nat)
    requires from <= |rows|
    ensures match First(rows, status, from)
            case Some(i) => from <= i < |rows| && rows[i].status == status
                            && forall j :: from <= j < i ==> rows[j].status != status
            case None => forall j :: from <= j < |rows| ==> rows[j].status != status
    decreases |rows| - from
  {
    if from < |rows| && rows[from].status != status {
      FirstIsLeast(rows, status, from + 1);
    }
  }

  /** `UPDATE ... SET status=running WHERE id=? AND status=queued`. */
  function MarkRunning(rows: seq<Row>, id: nat): seq<Row>
    requires id < |rows|
  {
    if rows[id].status == Queued then SetStatus(rows, id, Running) else rows
  }

  /** `UPDATE ... SET status=? WHERE id=?`: FinishTask and RequeueTask are unguarded. */
  function SetStatus(rows: seq<Row>, id: nat, status: Status): seq<Row>
    requires id < |rows|
  {
    rows[id := rows[id].(status := status)]
  }

  /** The ids of the running rows with index at least `from`, in order. */
  function RunningIds(rows: seq<Row>, from: nat): seq<nat>
    requires from <= |rows|
    decreases |rows| - from
  {
    if from == |rows| then []
    else if rows[from].status == Running then [from] + RunningIds(rows, from + 1)
    else RunningIds(rows, from + 1)
  }

  lemma {:induction false} RunningIdsExact(rows: seq<Row>, from: nat)
    requires from <= |rows|
    ensures forall i :: i in RunningIds(rows, from) <==> from <= i < |rows| && rows[i].status == Running
    ensures forall a, b :: 0 <= a < b < |RunningIds(rows, from)| ==> RunningIds(rows, from)[a] < RunningIds(rows, from)[b]
    ensures |RunningIds(rows, from)| <= |rows| - from
    decreases |rows| - from
  {
    if from < |rows| {
      RunningIdsExact(rows, from + 1);
      var tail := RunningIds(rows, from + 1);
      assert forall b :: 0 <= b < |tail| ==> tail[b] in tail;
    }
  }

  lemma {:induction false} RunningIdsExtend(rows: seq<Row>, from: nat, k: nat)
    requires from <= k < |rows|
    ensures RunningIds(rows[..k + 1], from) ==
            RunningIds(rows[..k], from) + (if rows[k].status == Running then [k] else [])
    decreases k - from
  {
    if from < k {
      RunningIdsExtend(rows, from + 1, k);
    } else {
      assert RunningIds(rows[..k + 1], k + 1) == [];
    }
  }

  class TaskStore {
    var rows: seq<Row>

    constructor ()
      ensures rows == []
    {
      rows := [];
    }

    method CreateTask(job: Job, node: Option<nat>, status: Status) returns (id: nat)
      modifies this
      ensures id == old(|rows|)
      ensures rows == old(rows) + [Row(job, node, status)]
    {
      id := |rows|;
      rows := rows + [Row(job, node, status)];
    }

    /** The SELECT half of ClaimQueuedTask. */
    method SelectQueued() returns (found: Option<nat>)
      ensures found == FirstQueued(rows)
    {
      var i := 0;
      while i < |rows|
        invariant 0 <= i <= |rows|
        invariant FirstQueued(rows) == First(rows, Queued, i)
      {
        if rows[i].status == Queued {
          return Some(i);
        }
        i := i + 1;
      }
      found := None;
    }

    /** The UPDATE half of ClaimQueuedTask; the caller never looks at `hit`. */
    method UpdateClaimed(id: nat) returns (hit: bool)
      requires id < |rows|
      modifies this
      ensures rows == MarkRunning(old(rows), id)
      ensures hit <==> rows != old(rows)
    {
      hit := rows[id].status == Queued;
      if hit {
        rows := rows[id := rows[id].(status := Running)];
      }
    }

    /** Both halves with nothing in between, as the method's comment intends. */
    method ClaimQueuedTask() returns (t: Option<nat>)
      modifies this
      ensures t == FirstQueued(old(rows))
      ensures t.None? ==> rows == old(rows)
      ensures t.Some? ==> t.value < old(|rows|) && old(rows)[t.value].status == Queued
                          && rows == SetStatus(old(rows), t.value, Running)
    {
      t := SelectQueued();
      FirstIsLeast(rows, Queued, 0);
      if t.Some? {
        var hit := UpdateClaimed(t.value);
      }
    }

    method FinishTask(id: nat, status: Status)
      requires id < |rows|
      modifies this
      ensures rows == SetStatus(old(rows), id, status)
    {
      rows := rows[id := rows[id].(status := status)];
    }

    method RequeueTask(id: nat)
      requires id < |rows|
      modifies this
      ensures rows == SetStatus(old(rows), id, Queued)
    {
      rows := rows[id := rows[id].(status := Queued)];
    }

    method ListRunningTasks() returns (ids: seq<nat>)
      ensures ids == RunningIds(rows, 0)
    {
      ids := [];
      var i := 0;
      while i < |rows|
        invariant 0 <= i <= |rows|
        invariant ids == RunningIds(rows[..i], 0)
      {
        RunningIdsExtend(rows, 0, i);
        if rows[i].status == Running {
          ids := ids + [i];
        }
        i := i + 1;
      }
      assert rows[..|rows|] == rows;
    }
  }
}
