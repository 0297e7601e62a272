/**
  Replacing the running binary (internal/agent/upgrade.go:143-210 and
  internal/update/update.go:361-428) on a file system where any rename, chmod or
  remove may fail without effect. Every operation is recorded with the state it
  left, so that what holds in between can be stated.
*/
module BinarySwap {
  datatype File = File(data: string, mode: nat)

  type Files = map<string, File>

  datatype Op = Rename(from: string, to: string) | Remove(path: string) | Chmod(path: string) | Write(path: string)

  datatype Step = Step(op: Op, ok: bool, after: Files)

  datatype Outcome = Upgraded | NoTemp | NotDownloaded | NotVerified | NotSwapped

  const EXECUTABLE := 493 // 0755

  function Backup(target: string): (p: string)
    ensures p != target
  {
    target + ".old"
  }

  function ModeOf(fs: Files, path: string): nat {
    if path in fs then fs[path].mode else EXECUTABLE
  }

  /** The old binary can be had, or the new one is in place. */
  predicate Safe(fs: Files, target: string, before: File, image: string) {
    || (target in fs && (fs[target] == before || fs[target].data == image))
    || (Backup(target) in fs && fs[Backup(target)] == before)
  }

  predicate AllSafe(steps: seq<Step>, from: nat, target: string, before: File, image: string) {
    forall i :: from <= i < |steps| ==> Safe(steps[i].after, target, before, image)
  }

  /** Everything that was there is still there, unchanged. */
  predicate Keeps(fs: Files, before: Files) {
    forall p :: p in before ==> p in fs && fs[p] == before[p]
  }

  predicate AllKeep(steps: seq<Step>, from: nat, before: Files) {
    forall i :: from <= i < |steps| ==> Keeps(steps[i].after, before)
  }

  predicate FailedRollback(step: Step, target: string) {
    step.op == Rename(Backup(target), target) && !step.ok
  }

  /** Putting the backup back was tried and failed. */
  predicate RollbackFailed(steps: seq<Step>, from: nat, target: string) {
    exists i :: from <= i < |steps| && FailedRollback(steps[i], target)
  }

  /** After an error: the old binary is in place, unless putting it back failed, and then it is the backup. */
  predicate OldKept(fs: Files, steps: seq<Step>, from: nat, target: string, before: File) {
    || (target in fs && fs[target] == before)
    || (RollbackFailed(steps, from, target) && Backup(target) in fs && fs[Backup(target)] == before)
  }

  /** Since `from`, this operation was tried with this result. */
  predicate Tried(steps: seq<Step>, from: nat, op: Op, ok: bool) {
    exists i :: from <= i < |steps| && steps[i].op == op && steps[i].ok == ok
  }

  predicate RollbackTried(steps: seq<Step>, from: nat, target: string) {
    exists i :: from <= i < |steps| && steps[i].op == Op.Rename(Backup(target), target)
  }

  /** The agent's swap gives up only if neither way led on: over the old binary, or with that moved aside. */
  predicate NoWayToSwap(steps: seq<Step>, from: nat, tmp: string, target: string) {
    && Tried(steps, from, Op.Rename(tmp, target), false)
    && (Tried(steps, from, Op.Rename(target, Backup(target)), false) || RollbackTried(steps, from, target))
  }

  /** The panel gives up only if the old binary could not be moved aside, or the new one not put there as a program. */
  predicate NoWayToReplace(steps: seq<Step>, from: nat, new': string, exe: string) {
    || Tried(steps, from, Op.Rename(exe, Backup(exe)), false)
    || Tried(steps, from, Op.Rename(new', exe), false)
    || Tried(steps, from, Op.Chmod(exe), false)
  }

  /** Why there is no image: each failure in its case, and all but the first clean up. */
  predicate FetchFailed(steps: seq<Step>, from: nat, tmp: string, failure: Outcome, genuine: bool, runs: bool) {
    && |steps| > 0
    && match failure
       case NoTemp => Tried(steps, from, Write(tmp), false)
       case NotDownloaded => (genuine ==> Tried(steps, from, Write(tmp), false)) && steps[|steps| - 1].op == Op.Remove(tmp)
       case NotVerified => genuine && !runs && steps[|steps| - 1].op == Op.Remove(tmp)
       case _ => false
  }

  /** Why the panel's update ended: each failure in its case. */
  predicate UpdateEnded(steps: seq<Step>, from: nat, newPath: string, exe: string, outcome: Outcome, genuine: bool) {
    match outcome
    case NotSwapped => genuine && NoWayToReplace(steps, from, newPath, exe)
    case NotDownloaded => Tried(steps, from, Write(newPath), false)
    case Upgraded => genuine
    case _ => true
  }

  lemma TriedAt(steps: seq<Step>, from: nat, i: nat)
    requires from <= i < |steps|
    ensures Tried(steps, from, steps[i].op, steps[i].ok)
  {
  }

  lemma RollbackAt(steps: seq<Step>, from: nat, i: nat, target: string)
    requires from <= i < |steps| && steps[i].op == Op.Rename(Backup(target), target)
    ensures RollbackTried(steps, from, target)
  {
  }

  lemma TriedStays(before: seq<Step>, after: seq<Step>, from: nat)
    requires before <= after
    ensures forall op, ok :: Tried(before, from, op, ok) ==> Tried(after, from, op, ok)
    ensures forall target :: RollbackTried(before, from, target) ==> RollbackTried(after, from, target)
  {
    forall op, ok | Tried(before, from, op, ok) ensures Tried(after, from, op, ok) {
      var i :| from <= i < |before| && before[i].op == op && before[i].ok == ok;
      assert after[i].op == op && after[i].ok == ok;
    }
    forall target | RollbackTried(before, from, target) ensures RollbackTried(after, from, target) {
      var i :| from <= i < |before| && before[i].op == Op.Rename(Backup(target), target);
      assert after[i].op == Op.Rename(Backup(target), target);
    }
  }

  lemma TriedLater(steps: seq<Step>, from: nat, later: nat)
    requires from <= later
    ensures forall op, ok :: Tried(steps, later, op, ok) ==> Tried(steps, from, op, ok)
    ensures forall target :: RollbackTried(steps, later, target) ==> RollbackTried(steps, from, target)
  {
  }

  lemma RollbackStays(before: seq<Step>, after: seq<Step>, from: nat, target: string)
    requires before <= after
    ensures RollbackFailed(before, from, target) ==> RollbackFailed(after, from, target)
  {
    if RollbackFailed(before, from, target) {
      var i :| from <= i < |before| && FailedRollback(before[i], target);
      assert FailedRollback(after[i], target);
    }
  }

  lemma RollbackLater(before: seq<Step>, after: seq<Step>, from: nat, target: string)
    requires before <= after && from <= |before|
    ensures RollbackFailed(after, |before|, target) ==> RollbackFailed(after, from, target)
  {
  }

  lemma KeptIsSafe(steps: seq<Step>, from: nat, before: Files, target: string, image: string)
    requires AllKeep(steps, from, before) && target in before
    ensures AllSafe(steps, from, target, before[target], image)
  {
  }

  lemma OthersAreSafe(steps: seq<Step>, from: nat, before: Files, path: string, target: string, image: string)
    requires AllKeep(steps, from, before - {path}) && target in before && target != path
    ensures AllSafe(steps, from, target, before[target], image)
  {
    KeptIsSafe(steps, from, before - {path}, target, image);
  }

  lemma SafeJoin(before: seq<Step>, after: seq<Step>, from: nat, target: string, old': File, image: string)
    requires before <= after && AllSafe(before, from, target, old', image)
    requires AllSafe(after, |before|, target, old', image)
    ensures AllSafe(after, from, target, old', image)
  {
    assert forall i :: 0 <= i < |before| ==> after[i] == before[i];
  }

  /** An operation on one path that did not exist before keeps everything that did. */
  lemma OtherPathKeeps(steps: seq<Step>, step: Step, from: nat, before: Files, was: Files, path: string)
    requires AllKeep(steps, from, before) && Keeps(was, before) && path !in before
    requires forall p :: p != path && p in was ==> p in step.after && step.after[p] == was[p]
    ensures AllKeep(steps + [step], from, before) && Keeps(step.after, before)
  {
  }

  class Disk {
    var files: Files
    ghost var steps: seq<Step>

    constructor (files: Files)
      ensures this.files == files && steps == []
    {
      this.files := files;
      steps := [];
    }

    method Rename(from: string, to: string) returns (ok: bool)
      modifies this
      ensures ok ==> from in old(files) && files == (old(files) - {from})[to := old(files)[from]]
      ensures !ok ==> files == old(files)
      ensures steps == old(steps) + [Step(Op.Rename(from, to), ok, files)]
    {
      ok := false;
      if from in files {
        if * {
          ok := true;
          files := (files - {from})[to := files[from]];
        }
      }
      steps := steps + [Step(Op.Rename(from, to), ok, files)];
    }

    method Remove(path: string) returns (ok: bool)
      modifies this
      ensures files == if ok then old(files) - {path} else old(files)
      ensures steps == old(steps) + [Step(Op.Remove(path), ok, files)]
    {
      ok := false;
      if path in files {
        if * {
          ok := true;
          files := files - {path};
        }
      }
      steps := steps + [Step(Op.Remove(path), ok, files)];
    }

    method Chmod(path: string) returns (ok: bool)
      modifies this
      ensures ok ==> path in old(files) && files == old(files)[path := File(old(files)[path].data, EXECUTABLE)]
      ensures !ok ==> files == old(files)
      ensures steps == old(steps) + [Step(Op.Chmod(path), ok, files)]
    {
      ok := false;
      if path in files {
        if * {
          ok := true;
          files := files[path := File(files[path].data, EXECUTABLE)];
        }
      }
      steps := steps + [Step(Op.Chmod(path), ok, files)];
    }

    /**
      A download: on success its destination holds all of `content`, after a
      failure anything at all or what was there before. An existing file keeps
      its mode.
    */
    method Download(path: string, content: string) returns (ok: bool)
      modifies this
      ensures files == old(files) || (path in files && files == old(files)[path := files[path]])
      ensures ok ==> path in files && files[path] == File(content, ModeOf(old(files), path))
      ensures steps == old(steps) + [Step(Write(path), ok, files)]
    {
      ok := false;
      var mode := ModeOf(files, path);
      if * {
        ok := true;
        files := files[path := File(content, mode)];
      } else if * {
        var part: string := *;
        files := files[path := File(part, mode)];
      }
      steps := steps + [Step(Write(path), ok, files)];
    }

    /** The agent's second way: the old binary is moved aside, and put back if the new one cannot take its place. */
    method SwapAside(tmp: string, target: string) returns (ok: bool)
      requires tmp in files && target in files && tmp != target && tmp != Backup(target)
      modifies this
      ensures old(steps) < steps
      ensures AllSafe(steps, |old(steps)|, target, old(files)[target], old(files)[tmp].data)
      ensures ok ==> target in files && files[target].data == old(files)[tmp].data
      ensures !ok ==> OldKept(files, steps, |old(steps)|, target, old(files)[target])
      ensures !ok ==> Tried(steps, |old(steps)|, Op.Rename(target, Backup(target)), false)
                      || RollbackTried(steps, |old(steps)|, target)
    {
      ghost var n := |steps|;
      var backup := Backup(target);
      var _ := Remove(backup);
      ok := Rename(target, backup);
      if !ok {
        TriedAt(steps, n, n + 1);
        return false;
      }
      ok := Rename(tmp, target);
      if !ok {
        var back := Rename(backup, target);
        assert !back ==> FailedRollback(steps[|steps| - 1], target);
        RollbackAt(steps, n, n + 3, target);
        return false;
      }
      var _ := Chmod(target);
      var _ := Remove(backup);
      return true;
    }

    /** The agent: one rename first, and only if that fails the old binary is moved aside. */
    method SwapExecutable(tmp: string, target: string) returns (ok: bool)
      requires tmp in files && target in files && tmp != target && tmp != Backup(target)
      modifies this
      ensures old(steps) < steps
      ensures AllSafe(steps, |old(steps)|, target, old(files)[target], old(files)[tmp].data)
      ensures ok ==> target in files && files[target].data == old(files)[tmp].data
      ensures !ok ==> OldKept(files, steps, |old(steps)|, target, old(files)[target])
      ensures ok || NoWayToSwap(steps, |old(steps)|, tmp, target)
    {
      ok := Rename(tmp, target);
      if ok {
        return true;
      }
      ghost var first := steps;
      ok := SwapAside(tmp, target);
      SafeJoin(first, steps, |old(steps)|, target, old(files)[target], old(files)[tmp].data);
      RollbackLater(first, steps, |old(steps)|, target);
      TriedLater(steps, |old(steps)|, |first|);
      TriedAt(steps, |old(steps)|, |old(steps)|);
    }

    /** The panel: the old binary is always moved aside first, and the mode of the new one is required. */
    method ReplaceBinary(exe: string, new': string) returns (ok: bool)
      requires new' in files && exe in files && new' != exe && new' != Backup(exe)
      modifies this
      ensures old(steps) < steps
      ensures AllSafe(steps, |old(steps)|, exe, old(files)[exe], old(files)[new'].data)
      ensures ok ==> exe in files && files[exe] == File(old(files)[new'].data, EXECUTABLE)
      ensures !ok ==> OldKept(files, steps, |old(steps)|, exe, old(files)[exe])
      ensures ok || NoWayToReplace(steps, |old(steps)|, new', exe)
    {
      ghost var n := |steps|;
      var backup := Backup(exe);
      ok := Rename(exe, backup);
      if !ok {
        TriedAt(steps, n, n);
        return false;
      }
      ok := Rename(new', exe);
      if !ok {
        var back := Rename(backup, exe);
        assert !back ==> FailedRollback(steps[|steps| - 1], exe);
        TriedAt(steps, n, n + 1);
        return false;
      }
      ok := Chmod(exe);
      if !ok {
        var _ := Remove(exe);
        var back := Rename(backup, exe);
        assert !back ==> FailedRollback(steps[|steps| - 1], exe);
        TriedAt(steps, n, n + 2);
        return false;
      }
      var _ := Remove(backup);
      return true;
    }

    method CreateTemp(path: string) returns (ok: bool)
      modifies this
      ensures files == if ok then old(files)[path := File("", 384)] else old(files)
      ensures steps == old(steps) + [Step(Write(path), ok, files)]
    {
      ok := false;
      if * {
        ok := true;
        files := files[path := File("", 384)];
      }
      steps := steps + [Step(Write(path), ok, files)];
    }

    /** A temporary file is made and removed again: its name is free for the download. */
    method FreeName(tmp: string) returns (ok: bool)
      requires tmp !in files
      modifies this
      ensures old(steps) < steps && AllKeep(steps, |old(steps)|, old(files)) && Keeps(files, old(files))
      ensures !ok ==> Tried(steps, |old(steps)|, Write(tmp), false)
    {
      ghost var before, from := files, |steps|;
      ghost var done, was := steps, files;
      ok := CreateTemp(tmp);
      OtherPathKeeps(done, steps[|done|], from, before, was, tmp);
      if !ok {
        TriedAt(steps, from, from);
        return;
      }
      done, was := steps, files;
      var _ := Remove(tmp);
      OtherPathKeeps(done, steps[|done|], from, before, was, tmp);
    }

    /** The temporary file and the download into it, checked on the way. */
    method DownloadImage(tmp: string, content: string, genuine: string -> bool)
      returns (ready: bool, failure: Outcome)
      requires tmp !in files
      modifies this
      ensures old(steps) < steps && AllKeep(steps, |old(steps)|, old(files)) && Keeps(files, old(files))
      ensures ready ==> genuine(content) && tmp in files && files[tmp].data == content
      ensures failure.NoTemp? || failure.NotDownloaded?
      ensures !ready && (failure == NoTemp || genuine(content)) ==> Tried(steps, |old(steps)|, Write(tmp), false)
      ensures !ready && failure != NoTemp ==> steps[|steps| - 1].op == Op.Remove(tmp)
    {
      ghost var before, from := files, |steps|;
      var ok := FreeName(tmp);
      if !ok {
        return false, NoTemp;
      }
      ghost var done, was := steps, files;
      ok := false;
      if genuine(content) {
        ok := Download(tmp, content);
        OtherPathKeeps(done, steps[|done|], from, before, was, tmp);
      }
      if !ok {
        ghost var tried := |done|;
        done, was := steps, files;
        var _ := Remove(tmp);
        OtherPathKeeps(done, steps[|done|], from, before, was, tmp);
        TriedAt(steps, from, tried);
        return false, NotDownloaded;
      }
      return true, NotDownloaded;
    }

    /** The agent's side of getting an image: everything that was there stays as it was. */
    method FetchImage(tmp: string, content: string, genuine: string -> bool, runs: string -> bool)
      returns (ready: bool, failure: Outcome)
      requires tmp !in files
      modifies this
      ensures old(steps) < steps && AllKeep(steps, |old(steps)|, old(files)) && Keeps(files, old(files))
      ensures ready ==> genuine(content) && runs(content) && tmp in files && files[tmp].data == content
      ensures !ready ==> FetchFailed(steps, |old(steps)|, tmp, failure, genuine(content), runs(content))
    {
      ghost var before, from := files, |steps|;
      ready, failure := DownloadImage(tmp, content, genuine);
      if ready && !runs(files[tmp].data) {
        ghost var done, was := steps, files;
        var _ := Remove(tmp);
        OtherPathKeeps(done, steps[|done|], from, before, was, tmp);
        return false, NotVerified;
      }
    }

    /** Swapping and the deferred removal of the temporary file. */
    method SwapAndClean(tmp: string, target: string) returns (ok: bool)
      requires tmp in files && target in files && tmp != target && tmp != Backup(target)
      modifies this
      ensures old(steps) < steps
      ensures AllSafe(steps, |old(steps)|, target, old(files)[target], old(files)[tmp].data)
      ensures ok ==> target in files && files[target].data == old(files)[tmp].data
      ensures !ok ==> OldKept(files, steps, |old(steps)|, target, old(files)[target])
      ensures ok || NoWayToSwap(steps, |old(steps)|, tmp, target)
      ensures steps[|steps| - 1].op == Op.Remove(tmp)
    {
      ok := SwapExecutable(tmp, target);
      ghost var swapped := steps;
      assert Safe(swapped[|swapped| - 1].after, target, old(files)[target], old(files)[tmp].data);
      var _ := Remove(tmp);
      RollbackStays(swapped, steps, |old(steps)|, target);
      TriedStays(swapped, steps, |old(steps)|);
    }

    /** The agent's upgrade: the target is touched only after the image was downloaded, checked and tried. */
    method ApplyUpgrade(dir: string, base: string, random: string, content: string,
                        genuine: string -> bool, runs: string -> bool)
      returns (outcome: Outcome)
      requires dir + base in files && TempName(dir, base, random) !in files
      modifies this
      ensures old(steps) < steps
      ensures AllSafe(steps, |old(steps)|, dir + base, old(files)[dir + base], content)
      ensures !(genuine(content) && runs(content)) ==> outcome.NoTemp? || outcome.NotDownloaded? || outcome.NotVerified?
      ensures outcome.NoTemp? || outcome.NotDownloaded? || outcome.NotVerified? ==> AllKeep(steps, |old(steps)|, old(files))
      ensures outcome == Upgraded ==> dir + base in files && files[dir + base].data == content
      ensures outcome == NotSwapped ==>
                OldKept(files, steps, |old(steps)|, dir + base, old(files)[dir + base])
      ensures var tmp := TempName(dir, base, random);
              if outcome == Upgraded then genuine(content) && runs(content)
              else if outcome == NotSwapped then
                genuine(content) && runs(content) && NoWayToSwap(steps, |old(steps)|, tmp, dir + base)
              else FetchFailed(steps, |old(steps)|, tmp, outcome, genuine(content), runs(content))
      ensures outcome != NoTemp ==> steps[|steps| - 1].op == Op.Remove(TempName(dir, base, random))
    {
      var target, tmp := dir + base, TempName(dir, base, random);
      TempIsOther(dir, base, random);
      var ready, failure := FetchImage(tmp, content, genuine, runs);
      KeptIsSafe(steps, |old(steps)|, old(files), target, content);
      if !ready {
        return failure;
      }
      ghost var fetched := steps;
      var ok := SwapAndClean(tmp, target);
      SafeJoin(fetched, steps, |old(steps)|, target, old(files)[target], content);
      RollbackLater(fetched, steps, |old(steps)|, target);
      TriedLater(steps, |old(steps)|, |fetched|);
      return if ok then Upgraded else NotSwapped;
    }

    /** The panel's side of getting an image, checked after the download. */
    method FetchUpdate(newPath: string, content: string, genuine: string -> bool)
      returns (ready: bool, failure: Outcome)
      modifies this
      ensures old(steps) < steps && AllKeep(steps, |old(steps)|, old(files) - {newPath})
      ensures Keeps(files, old(files) - {newPath})
      ensures ready ==> genuine(content) && newPath in files && files[newPath].data == content
      ensures failure.NotDownloaded? || failure.NotVerified?
      ensures !ready && failure == NotDownloaded ==> Tried(steps, |old(steps)|, Write(newPath), false)
      ensures !ready ==> steps[|steps| - 1].op == Op.Remove(newPath)
    {
      var ok := Download(newPath, content);
      if !ok {
        var _ := Remove(newPath);
        TriedAt(steps, |old(steps)|, |old(steps)|);
        return false, NotDownloaded;
      }
      var known := HashKnown();
      if !known || !genuine(files[newPath].data) {
        var _ := Remove(newPath);
        return false, NotVerified;
      }
      return true, NotVerified;
    }

    method ReplaceAndClean(exe: string, newPath: string) returns (ok: bool)
      requires newPath in files && exe in files && newPath != exe && newPath != Backup(exe)
      modifies this
      ensures old(steps) < steps
      ensures AllSafe(steps, |old(steps)|, exe, old(files)[exe], old(files)[newPath].data)
      ensures ok ==> exe in files && files[exe] == File(old(files)[newPath].data, EXECUTABLE)
      ensures !ok ==> OldKept(files, steps, |old(steps)|, exe, old(files)[exe])
      ensures ok || NoWayToReplace(steps, |old(steps)|, newPath, exe)
      ensures steps[|steps| - 1].op == Op.Remove(newPath)
    {
      ok := ReplaceBinary(exe, newPath);
      ghost var replaced := steps;
      assert Safe(replaced[|replaced| - 1].after, exe, old(files)[exe], old(files)[newPath].data);
      var _ := Remove(newPath);
      RollbackStays(replaced, steps, |old(steps)|, exe);
      TriedStays(replaced, steps, |old(steps)|);
    }

    /** The panel's update: the same, with the check made on the downloaded file. */
    method Apply(exe: string, content: string, genuine: string -> bool) returns (outcome: Outcome)
      requires exe in files
      modifies this
      ensures old(steps) < steps
      ensures AllSafe(steps, |old(steps)|, exe, old(files)[exe], content)
      ensures !genuine(content) ==> outcome.NotDownloaded? || outcome.NotVerified?
      ensures outcome.NotDownloaded? || outcome.NotVerified? ==>
                AllKeep(steps, |old(steps)|, old(files) - {NewPath(exe)})
      ensures outcome == Upgraded ==> exe in files && files[exe] == File(content, EXECUTABLE)
      ensures outcome == NotSwapped ==> OldKept(files, steps, |old(steps)|, exe, old(files)[exe])
      ensures UpdateEnded(steps, |old(steps)|, NewPath(exe), exe, outcome, genuine(content))
      ensures outcome != NoTemp && steps[|steps| - 1].op == Op.Remove(NewPath(exe))
    {
      var newPath := NewPath(exe);
      NewIsOther(exe);
      var ready, failure := FetchUpdate(newPath, content, genuine);
      OthersAreSafe(steps, |old(steps)|, old(files), newPath, exe, content);
      if !ready {
        return failure;
      }
      assert exe in files && files[exe] == old(files)[exe];
      ghost var fetched := steps;
      var ok := ReplaceAndClean(exe, newPath);
      SafeJoin(fetched, steps, |old(steps)|, exe, old(files)[exe], content);
      if ok {
        return Upgraded;
      }
      RollbackLater(fetched, steps, |old(steps)|, exe);
      TriedLater(steps, |old(steps)|, |fetched|);
      return NotSwapped;
    }

    /** Whether the release's digest can be had. */
    method HashKnown() returns (ok: bool)
    {
      ok := false;
      if * {
        ok := true;
      }
    }
  }

  function TempName(dir: string, base: string, random: string): string {
    dir + "." + base + ".new-" + random
  }

  lemma TempIsOther(dir: string, base: string, random: string)
    ensures TempName(dir, base, random) != dir + base
    ensures TempName(dir, base, random) != Backup(dir + base)
  {
    assert |TempName(dir, base, random)| >= |dir + base| + 6;
  }

  /** Where the panel downloads its new binary to. */
  function NewPath(exe: string): string {
    exe + ".new"
  }

  lemma NewIsOther(exe: string)
    ensures NewPath(exe) != exe && NewPath(exe) != Backup(exe)
  {
    assert (exe + ".new")[|exe| + 1] == 'n' && Backup(exe)[|exe| + 1] == 'o';
  }
}
