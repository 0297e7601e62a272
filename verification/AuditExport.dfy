/**
  Querying the audit log (internal/store/audit.go:35-101) and exporting it page by
  page as CSV (internal/audit/handler.go:67-119).
*/
module AuditExport {
  datatype Row = Row(id: nat, ts: int, username: string, module': string, action: string, result: string, detail: string)

  datatype Filter = Filter(username: string, module': string, action: string, result: string,
                           start: int, end: int, page: int, pageSize: int)

  const MAX_ROWS := 100000
  const PAGE_SIZE := 500

  predicate Matches(f: Filter, r: Row) {
    && (f.username == "" || r.username == f.username)
    && (f.module' == "" || r.module' == f.module')
    && (f.action == "" || r.action == f.action)
    && (f.result == "" || r.result == f.result)
    && (f.start > 0 ==> r.ts >= f.start)
    && (f.end > 0 ==> r.ts <= f.end)
  }

  /** Ids are given out in order, so the log is in id order. */
  predicate Ordered(log: seq<Row>) {
    forall i, j :: 0 <= i < j < |log| ==> log[i].id < log[j].id
  }

  /** The rows that match, newest first. */
  function Matching(log: seq<Row>, f: Filter): seq<Row> {
    if log == [] then []
    else (if Matches(f, log[|log| - 1]) then [log[|log| - 1]] else []) + Matching(log[..|log| - 1], f)
  }

  predicate NewestFirst(rows: seq<Row>) {
    forall i, j :: 0 <= i < j < |rows| ==> rows[i].id > rows[j].id
  }

  lemma {:induction false} MatchingIsExact(log: seq<Row>, f: Filter, r: Row)
    ensures r in Matching(log, f) <==> r in log && Matches(f, r)
    ensures r in Matching(log, f) <==>
              && r in log
              && f.username in ["", r.username] && f.module' in ["", r.module']
              && f.action in ["", r.action] && f.result in ["", r.result]
              && (f.start <= 0 || f.start <= r.ts) && (f.end <= 0 || r.ts <= f.end)
  {
    if log != [] {
      var n := |log| - 1;
      MatchingIsExact(log[..n], f, r);
      assert log == log[..n] + [log[n]];
    }
  }

  lemma {:induction false} MatchingIsNewestFirst(log: seq<Row>, f: Filter)
    requires Ordered(log)
    ensures NewestFirst(Matching(log, f))
  {
    if log != [] {
      var n := |log| - 1;
      var rest := Matching(log[..n], f);
      MatchingIsNewestFirst(log[..n], f);
      forall i | 0 <= i < |rest| ensures rest[i].id < log[n].id {
        MatchingIsExact(log[..n], f, rest[i]);
        assert rest[i] in rest;
      }
    }
  }

  // ---- one page ----

  function Page(f: Filter): int { if f.page < 1 then 1 else f.page }

  /** Sizes outside 1..500 become 20. */
  function PageSize(f: Filter): int { if f.pageSize < 1 || f.pageSize > 500 then 20 else f.pageSize }

  function Min(a: int, b: int): int { if a < b then a else b }

  function Window(rows: seq<Row>, offset: int, limit: int): seq<Row>
    requires 0 <= offset && 0 <= limit
  {
    rows[Min(offset, |rows|)..Min(offset + limit, |rows|)]
  }

  lemma OffsetIsNat(f: Filter)
    ensures (Page(f) - 1) * PageSize(f) >= 0
  {
  }

  function Query(log: seq<Row>, f: Filter): (r: (seq<Row>, nat))
    ensures |r.0| <= PageSize(f) && r.1 == |Matching(log, f)|
  {
    OffsetIsNat(f);
    (Window(Matching(log, f), (Page(f) - 1) * PageSize(f), PageSize(f)), |Matching(log, f)|)
  }

  /** One conjunct of the WHERE clause. */
  datatype Cond = ByUser(string) | ByModule(string) | ByAction(string) | ByResult(string) | Since(int) | Until(int)

  predicate Holds(c: Cond, r: Row) {
    match c
    case ByUser(u) => r.username == u
    case ByModule(m) => r.module' == m
    case ByAction(a) => r.action == a
    case ByResult(x) => r.result == x
    case Since(t) => r.ts >= t
    case Until(t) => r.ts <= t
  }

  predicate AllHold(where: seq<Cond>, r: Row) {
    forall c :: c in where ==> Holds(c, r)
  }

  lemma MoreHold(where: seq<Cond>, c: Cond)
    ensures forall r :: AllHold(where + [c], r) <==> AllHold(where, r) && Holds(c, r)
  {
    forall r ensures AllHold(where + [c], r) <==> AllHold(where, r) && Holds(c, r) {
      assert c in where + [c];
      assert forall d :: d in where ==> d in where + [c];
    }
  }

  method Conditions(f: Filter) returns (where: seq<Cond>)
    ensures forall r :: AllHold(where, r) <==> Matches(f, r)
  {
    where := [];
    if f.username != "" {
      MoreHold(where, ByUser(f.username));
      where := where + [ByUser(f.username)];
    }
    if f.module' != "" {
      MoreHold(where, ByModule(f.module'));
      where := where + [ByModule(f.module')];
    }
    if f.action != "" {
      MoreHold(where, ByAction(f.action));
      where := where + [ByAction(f.action)];
    }
    if f.result != "" {
      MoreHold(where, ByResult(f.result));
      where := where + [ByResult(f.result)];
    }
    if f.start > 0 {
      MoreHold(where, Since(f.start));
      where := where + [Since(f.start)];
    }
    if f.end > 0 {
      MoreHold(where, Until(f.end));
      where := where + [Until(f.end)];
    }
  }

  /** SELECT ... WHERE ... ORDER BY id DESC */
  function Select(log: seq<Row>, where: seq<Cond>): seq<Row> {
    if log == [] then []
    else (if AllHold(where, log[|log| - 1]) then [log[|log| - 1]] else []) + Select(log[..|log| - 1], where)
  }

  lemma {:induction false} SelectIsMatching(log: seq<Row>, where: seq<Cond>, f: Filter)
    requires forall r :: AllHold(where, r) <==> Matches(f, r)
    ensures Select(log, where) == Matching(log, f)
  {
    if log != [] { SelectIsMatching(log[..|log| - 1], where, f); }
  }

  method QueryAuditLogs(log: seq<Row>, asked: Filter) returns (rows: seq<Row>, total: nat)
    ensures (rows, total) == Query(log, asked)
  {
    var f := asked;
    var where := Conditions(f);
    SelectIsMatching(log, where, f);
    var found := Select(log, where);
    total := |found|;
    if f.page < 1 {
      f := f.(page := 1);
    }
    if f.pageSize < 1 || f.pageSize > 500 {
      f := f.(pageSize := 20);
    }
    OffsetIsNat(f);
    rows := Window(found, (f.page - 1) * f.pageSize, f.pageSize);
  }

  lemma WindowAt(rows: seq<Row>, offset: nat, limit: nat, i: nat)
    ensures i < |Window(rows, offset, limit)| <==> i < limit && offset + i < |rows|
    ensures i < limit && offset + i < |rows| ==> Window(rows, offset, limit)[i] == rows[offset + i]
  {
  }

  /** Row `i` of the page asked for: pages count from 1, and a size outside 1..500 is 20. */
  lemma PageExact(log: seq<Row>, f: Filter, page: nat, size: nat, before: nat, i: nat)
    requires page == (if f.page >= 1 then f.page else 1) && size == (if 1 <= f.pageSize <= 500 then f.pageSize else 20)
    requires before == (page - 1) * size
    ensures i < |Query(log, f).0| <==> i < size && before + i < |Matching(log, f)|
    ensures i < size && before + i < |Matching(log, f)| ==> Query(log, f).0[i] == Matching(log, f)[before + i]
  {
    assert Page(f) == page && PageSize(f) == size;
    WindowAt(Matching(log, f), before, size, i);
  }

  // ---- the export ----

  datatype Line = Header | Data(row: Row) | QueryFailed | LimitReached

  function DataLines(rows: seq<Row>): (r: seq<Line>)
    ensures |r| == |rows| && forall i :: 0 <= i < |rows| ==> r[i] == Data(rows[i])
  {
    if rows == [] then [] else DataLines(rows[..|rows| - 1]) + [Data(rows[|rows| - 1])]
  }

  lemma DataLinesSnoc(rows: seq<Row>, n: nat)
    requires n < |rows|
    ensures DataLines(rows[..n + 1]) == DataLines(rows[..n]) + [Data(rows[n])]
  {
    assert rows[..n + 1][..n] == rows[..n];
  }

  /** How many rows the export may write. */
  function Exported(rows: seq<Row>): nat {
    Min(|rows|, MAX_ROWS)
  }

  /** The whole file: the first 100000 rows, with a note exactly when there are more. */
  function Complete(rows: seq<Row>): seq<Line> {
    [Header] + DataLines(rows[..Exported(rows)]) + if |rows| > MAX_ROWS then [LimitReached] else []
  }

  /** The file when a query failed after n rows. */
  function Cut(rows: seq<Row>, n: nat): seq<Line>
    requires n <= |rows|
  {
    [Header] + DataLines(rows[..n]) + [QueryFailed]
  }

  /** Line by line: the header, one line for each of the newest 100000 rows, and a note only if there are more. */
  lemma CompleteExact(rows: seq<Row>, i: nat)
    requires i < |Complete(rows)|
    ensures |Complete(rows)| == if |rows| > 100000 then 100002 else 1 + |rows|
    ensures Complete(rows)[i] == if i == 0 then Header else if i == 100001 then LimitReached else Data(rows[i - 1])
  {
  }

  /** A file cut short: the header, a line for each of the first n rows, and the failure. */
  lemma CutExact(rows: seq<Row>, n: nat, i: nat)
    requires n <= |rows| && i < |Cut(rows, n)|
    ensures |Cut(rows, n)| == n + 2
    ensures Cut(rows, n)[i] == if i == 0 then Header else if i == n + 1 then QueryFailed else Data(rows[i - 1])
  {
  }

  /** The part of a page that the limit still lets through. */
  method WritePage(ghost all: seq<Row>, logs: seq<Row>, out: seq<Line>, written: nat)
      returns (out': seq<Line>, written': nat, truncated: bool)
    requires written <= MAX_ROWS && written <= |all| && logs == Window(all, written, PAGE_SIZE)
    requires out == [Header] + DataLines(all[..written])
    ensures written' <= |all| && out' == [Header] + DataLines(all[..written'])
    ensures truncated || |logs| < PAGE_SIZE ==>
              written' == Exported(all) < written + PAGE_SIZE && (truncated <==> |all| > MAX_ROWS)
    ensures !truncated && |logs| == PAGE_SIZE ==> written' == written + PAGE_SIZE <= Exported(all)
  {
    out', written', truncated := out, written, false;
    for i := 0 to |logs|
      invariant written' == written + i <= MAX_ROWS && !truncated
      invariant written' <= |all| && out' == [Header] + DataLines(all[..written'])
    {
      if written' >= MAX_ROWS {
        truncated := true;
        break;
      }
      assert logs[i] == all[written + i];
      DataLinesSnoc(all, written');
      out' := out' + [Data(logs[i])];
      written' := written' + 1;
    }
  }

  /** The paging loop. It stops early, with the rows of the pages before, when the query numbered `failing` fails. */
  method ExportPages(log: seq<Row>, asked: Filter, failing: nat) returns (out: seq<Line>, truncated: bool, failed: bool)
    ensures failed <==> failing > 0 && (failing - 1) * PAGE_SIZE <= Exported(Matching(log, asked))
    ensures !failed ==> truncated == (|Matching(log, asked)| > MAX_ROWS)
    ensures var rows := Matching(log, asked);
            out == [Header] + DataLines(rows[..if failed then (failing - 1) * PAGE_SIZE else Exported(rows)])
  {
    var f := asked.(page := 1, pageSize := PAGE_SIZE);
    ghost var rows := Matching(log, asked);
    out := [Header];
    var written := 0;
    truncated := false;
    assert DataLines(rows[..0]) == [];
    while true
      invariant 1 <= f.page && f == asked.(page := f.page, pageSize := PAGE_SIZE)
      invariant written == (f.page - 1) * PAGE_SIZE <= Exported(rows)
      invariant out == [Header] + DataLines(rows[..written])
      invariant failing == 0 || failing >= f.page
      decreases MAX_ROWS - written
    {
      if failing == f.page {
        return out, false, true;
      }
      PageOf(log, asked, f);
      var logs, _ := QueryAuditLogs(log, f);
      out, written, truncated := WritePage(rows, logs, out, written);
      if truncated || |logs| < PAGE_SIZE {
        break;
      }
      f := f.(page := f.page + 1);
    }
    failed := false;
  }

  /**
    The export, on a log that does not change meanwhile. `failing` is the number of the query
    that fails, 0 when none does; a finished export is recorded in the log.
  */
  method ExportCSV(log: seq<Row>, asked: Filter, failing: nat) returns (out: seq<Line>, recorded: bool)
    ensures recorded <==> failing == 0 || (failing - 1) * PAGE_SIZE > Exported(Matching(log, asked))
    ensures recorded ==> out == Complete(Matching(log, asked))
    ensures !recorded ==> out == Cut(Matching(log, asked), (failing - 1) * PAGE_SIZE)
  {
    var truncated, failed;
    out, truncated, failed := ExportPages(log, asked, failing);
    if failed {
      return out + [QueryFailed], false;
    }
    if truncated {
      out := out + [LimitReached];
    } else {
      assert out + [] == out;
    }
    return out, true;
  }

  lemma PageOf(log: seq<Row>, asked: Filter, f: Filter)
    requires 1 <= f.page && f == asked.(page := f.page, pageSize := PAGE_SIZE)
    ensures Query(log, f).0 == Window(Matching(log, asked), (f.page - 1) * PAGE_SIZE, PAGE_SIZE)
  {
    SameRows(log, asked, f);
  }

  lemma {:induction false} SameRows(log: seq<Row>, f: Filter, g: Filter)
    requires g == f.(page := g.page, pageSize := g.pageSize)
    ensures Matching(log, f) == Matching(log, g)
  {
    if log != [] { SameRows(log[..|log| - 1], f, g); }
  }

  /** The export rests on its page size passing the query: one above 500 would end it after 20 rows. */
  lemma PageSizeMustPass(log: seq<Row>, f: Filter)
    requires f.pageSize > 500
    ensures |Query(log, f).0| <= 20 < f.pageSize
    ensures f.page == 1 ==> Query(log, f).0 == Matching(log, f)[..Min(20, |Matching(log, f)|)]
  {
  }
}
