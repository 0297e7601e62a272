/** Editing /etc/fstab for mount-at-boot (internal/storage/storage.go:543-581). */
module Fstab {
  import opened Text

  function Entry(uuid: string, mount: string, fstype: string): string {
    "UUID=" + uuid + " " + mount + " " + fstype + " defaults,nofail,noatime 0 2"
  }

  /** An active line for this mount point or this UUID. */
  predicate Hit(line: string, uuid: string, mount: string) {
    var t := TrimSpace(line);
    t != "" && t[0] != '#' &&
    var f := Fields(t);
    |f| >= 2 && (f[1] == mount || f[0] == "UUID=" + uuid)
  }

  function Kept(ls: seq<string>, uuid: string, mount: string): seq<string> {
    if ls == [] then []
    else (if Hit(ls[0], uuid, mount) then [] else [ls[0]]) + Kept(ls[1..], uuid, mount)
  }

  /** Some matching line already is the entry to be written. */
  predicate Present(ls: seq<string>, uuid: string, mount: string, entry: string) {
    exists i :: 0 <= i < |ls| && Hit(ls[i], uuid, mount) && TrimSpace(ls[i]) == entry
  }

  predicate AnyHit(ls: seq<string>, uuid: string, mount: string) {
    exists i :: 0 <= i < |ls| && Hit(ls[i], uuid, mount)
  }

  function DropBlankTail(ls: seq<string>): seq<string> {
    if ls != [] && TrimSpace(ls[|ls| - 1]) == "" then DropBlankTail(ls[..|ls| - 1]) else ls
  }

  function JoinLines(ls: seq<string>): string {
    var out := TrimNewlines(Unlines(ls));
    if out == "" then "" else out + "\n"
  }

  function Update(original: string, uuid: string, mount: string, fstype: string, enabled: bool): (string, bool) {
    var ls := Lines(original);
    var entry := Entry(uuid, mount, fstype);
    var kept := Kept(ls, uuid, mount);
    if !enabled then (JoinLines(kept), |kept| != |ls|)
    else if Present(ls, uuid, mount, entry) then (original, false)
    else (JoinLines(DropBlankTail(kept) + [entry]), true)
  }

  lemma {:induction false} KeptSnoc(ls: seq<string>, line: string, uuid: string, mount: string)
    ensures Kept(ls + [line], uuid, mount) ==
            Kept(ls, uuid, mount) + if Hit(line, uuid, mount) then [] else [line]
  {
    if ls == [] {
      assert ls + [line] == [line];
    } else {
      assert (ls + [line])[1..] == ls[1..] + [line];
      KeptSnoc(ls[1..], line, uuid, mount);
    }
  }

  method UpdateFstab(original: string, uuid: string, mount: string, fstype: string, enabled: bool)
    returns (updated: string, changed: bool)
    ensures (updated, changed) == Update(original, uuid, mount, fstype, enabled)
  {
    var entry := Entry(uuid, mount, fstype);
    var ls := Lines(original);
    var kept: seq<string> := [];
    var found := false;
    var i := 0;
    while i < |ls|
      invariant 0 <= i <= |ls|
      invariant kept == Kept(ls[..i], uuid, mount)
      invariant found <==> enabled && Present(ls[..i], uuid, mount, entry)
    {
      var line := ls[i];
      assert ls[..i + 1] == ls[..i] + [line];
      KeptSnoc(ls[..i], line, uuid, mount);
      PresentSnoc(ls[..i], line, uuid, mount, entry);
      var trimmed := TrimSpace(line);
      var skip := false;
      if trimmed != "" && trimmed[0] != '#' {
        var f := Fields(trimmed);
        if |f| >= 2 && (f[1] == mount || f[0] == "UUID=" + uuid) {
          if enabled && trimmed == entry {
            found := true;
          }
          skip := true;
        }
      }
      if !skip {
        kept := kept + [line];
      }
      i := i + 1;
    }
    assert ls[..i] == ls;
    if !enabled {
      return JoinLines(kept), |kept| != |ls|;
    }
    if found {
      return original, false;
    }
    ghost var all := kept;
    while |kept| > 0 && TrimSpace(kept[|kept| - 1]) == ""
      invariant DropBlankTail(kept) == DropBlankTail(all)
    {
      kept := kept[..|kept| - 1];
    }
    return JoinLines(kept + [entry]), true;
  }

  lemma PresentSnoc(ls: seq<string>, line: string, uuid: string, mount: string, entry: string)
    ensures Present(ls + [line], uuid, mount, entry) <==>
            Present(ls, uuid, mount, entry) || (Hit(line, uuid, mount) && TrimSpace(line) == entry)
  {
    var more := ls + [line];
    assert more[|ls|] == line && forall i :: 0 <= i < |ls| ==> more[i] == ls[i];
    if Present(ls, uuid, mount, entry) {
      var i :| 0 <= i < |ls| && Hit(ls[i], uuid, mount) && TrimSpace(ls[i]) == entry;
      assert Hit(more[i], uuid, mount) && TrimSpace(more[i]) == entry;
    }
  }

  // ---- facts about the pieces ----

  /** Assumed of the arguments: a UUID without white space, and no line breaks. */
  predicate Clean(uuid: string, mount: string, fstype: string) {
    NoSpaces(uuid) && OneLine(mount) && OneLine(fstype)
  }

  lemma TwoFields(head: string, tail: string)
    requires Word(head) && tail != "" && !IsSpace(tail[|tail| - 1])
    ensures |Fields(head + " " + tail)| >= 2 && Fields(head + " " + tail)[0] == head
  {
    FieldsCons(head, tail);
    TrimLeftSpaces(tail);
    TrimLeftShorter(tail);
  }

  lemma EntryText(uuid: string, mount: string, fstype: string)
    requires Clean(uuid, mount, fstype)
    ensures var e := Entry(uuid, mount, fstype);
            OneLine(e) && |e| > 0 && e[0] == 'U' && e[|e| - 1] == '2'
  {
  }

  lemma EntryFacts(uuid: string, mount: string, fstype: string)
    requires Clean(uuid, mount, fstype)
    ensures var e := Entry(uuid, mount, fstype);
            Hit(e, uuid, mount) && TrimSpace(e) == e && OneLine(e) && e != "" && e[|e| - 1] != '\n'
  {
    var e := Entry(uuid, mount, fstype);
    var head := "UUID=" + uuid;
    var tail := mount + " " + fstype + " defaults,nofail,noatime 0 2";
    assert e == head + " " + tail;
    assert tail[|tail| - 1] == '2';
    EntryText(uuid, mount, fstype);
    TrimNothing(e);
    TwoFields(head, tail);
  }

  lemma AnyHitCons(ls: seq<string>, uuid: string, mount: string)
    requires ls != []
    ensures AnyHit(ls, uuid, mount) <==> Hit(ls[0], uuid, mount) || AnyHit(ls[1..], uuid, mount)
  {
    if AnyHit(ls, uuid, mount) && !Hit(ls[0], uuid, mount) {
      var i :| 0 <= i < |ls| && Hit(ls[i], uuid, mount);
      assert Hit(ls[1..][i - 1], uuid, mount);
    }
    if AnyHit(ls[1..], uuid, mount) {
      var i :| 0 <= i < |ls[1..]| && Hit(ls[1..][i], uuid, mount);
      assert Hit(ls[i + 1], uuid, mount);
    }
  }

  lemma {:induction false} KeptExact(ls: seq<string>, uuid: string, mount: string)
    ensures forall line :: line in Kept(ls, uuid, mount) <==> line in ls && !Hit(line, uuid, mount)
  {
    if ls != [] {
      KeptExact(ls[1..], uuid, mount);
    }
  }

  lemma {:induction false} KeptSize(ls: seq<string>, uuid: string, mount: string)
    ensures |Kept(ls, uuid, mount)| <= |ls|
    ensures |Kept(ls, uuid, mount)| == |ls| <==> !AnyHit(ls, uuid, mount)
    ensures !AnyHit(ls, uuid, mount) ==> Kept(ls, uuid, mount) == ls
  {
    if ls != [] {
      KeptSize(ls[1..], uuid, mount);
      AnyHitCons(ls, uuid, mount);
    }
  }

  /** No prefix of the kept lines matches. */
  lemma PrefixOfKept(ls: seq<string>, part: seq<string>, uuid: string, mount: string)
    requires part <= Kept(ls, uuid, mount) && AllOneLine(ls)
    ensures AllOneLine(part) && !AnyHit(part, uuid, mount)
  {
    KeptExact(ls, uuid, mount);
    forall i | 0 <= i < |part| ensures OneLine(part[i]) && !Hit(part[i], uuid, mount) {
      assert part[i] in Kept(ls, uuid, mount);
    }
  }

  lemma {:induction false} KeptConcat(a: seq<string>, b: seq<string>, uuid: string, mount: string)
    ensures Kept(a + b, uuid, mount) == Kept(a, uuid, mount) + Kept(b, uuid, mount)
  {
    if a == [] {
      assert a + b == b;
    } else {
      assert (a + b)[1..] == a[1..] + b;
      KeptConcat(a[1..], b, uuid, mount);
    }
  }

  lemma {:induction false} DropBlankTailFacts(ls: seq<string>)
    ensures DropBlankTail(ls) <= ls
    ensures DropBlankTail(ls) != [] ==> TrimSpace(DropBlankTail(ls)[|DropBlankTail(ls)| - 1]) != ""
    ensures forall i :: |DropBlankTail(ls)| <= i < |ls| ==> TrimSpace(ls[i]) == ""
    ensures DropBlankTail(DropBlankTail(ls)) == DropBlankTail(ls)
  {
    if ls != [] && TrimSpace(ls[|ls| - 1]) == "" {
      DropBlankTailFacts(ls[..|ls| - 1]);
    }
  }

  lemma BlankIsNoHit(line: string, uuid: string, mount: string)
    requires TrimSpace(line) == ""
    ensures !Hit(line, uuid, mount)
  {
  }

  /** Joining lines of which the last is not empty ends the file with one line break. */
  lemma {:induction false} UnlinesEnd(ls: seq<string>)
    requires ls != [] && ls[|ls| - 1] != ""
    ensures Unlines(ls) != "" && Unlines(ls)[|Unlines(ls)| - 1] == ls[|ls| - 1][|ls[|ls| - 1]| - 1]
  {
    if |ls| > 1 { UnlinesEnd(ls[1..]); }
  }

  lemma JoinLinesOf(ls: seq<string>)
    requires AllOneLine(ls) && ls != [] && ls[|ls| - 1] != ""
    ensures JoinLines(ls) == Unlines(ls) + "\n"
    ensures Lines(JoinLines(ls)) == ls + [""]
  {
    JoinLinesText(ls);
    UnlinesSnoc(ls);
    LinesUnlines(ls + [""]);
  }

  lemma JoinLinesText(ls: seq<string>)
    requires ls != [] && ls[|ls| - 1] != "" && OneLine(ls[|ls| - 1])
    ensures JoinLines(ls) == Unlines(ls) + "\n"
  {
    var last := ls[|ls| - 1];
    assert last[|last| - 1] in last;
    UnlinesEnd(ls);
    NothingTrimmed(Unlines(ls));
  }

  lemma NothingTrimmed(s: string)
    requires s != "" && s[|s| - 1] != '\n'
    ensures TrimNewlines(s) == s
  {
  }

  lemma {:induction false} UnlinesSnoc(ls: seq<string>)
    requires ls != []
    ensures Unlines(ls + [""]) == Unlines(ls) + "\n"
  {
    var more := ls + [""];
    if |ls| == 1 {
      assert more[1..] == [""];
    } else {
      assert more[1..] == ls[1..] + [""];
      UnlinesSnoc(ls[1..]);
    }
  }

  /** Empty lines at the end leave no trace in JoinLines. */
  lemma JoinLinesDropsEmpty(ls: seq<string>)
    ensures JoinLines(ls + [""]) == JoinLines(ls)
  {
    if ls == [] {
      assert Unlines(ls + [""]) == "";
    } else {
      UnlinesSnoc(ls);
      var s := Unlines(ls);
      assert (s + "\n")[..|s + "\n"| - 1] == s;
    }
  }

  function DropEmptyTail(ls: seq<string>): seq<string> {
    if ls != [] && ls[|ls| - 1] == "" then DropEmptyTail(ls[..|ls| - 1]) else ls
  }

  lemma {:induction false} JoinLinesLines(ls: seq<string>)
    requires AllOneLine(ls)
    ensures DropEmptyTail(ls) <= ls
    ensures Lines(JoinLines(ls)) == DropEmptyTail(ls) + [""]
  {
    if ls != [] && ls[|ls| - 1] == "" {
      var init := ls[..|ls| - 1];
      assert ls == init + [""];
      JoinLinesDropsEmpty(init);
      JoinLinesLines(init);
    } else if ls != [] {
      JoinLinesOf(ls);
    } else {
      assert JoinLines(ls) == "";
    }
  }

  /** A line matches, however it is laid out, if it is no comment, its second word is the mount point or its first the UUID. */
  lemma HitExact(line: string, uuid: string, mount: string, ws: seq<string>, gaps: seq<string>)
    requires Separated(ws, gaps) && line == Laid(ws, gaps)
    ensures Hit(line, uuid, mount) <==>
              |ws| >= 2 && ws[0][0] != '#' && (ws[0] == "UUID=" + uuid || ws[1] == mount)
  {
    FieldsLaid(ws, gaps);
    FieldsTrimmed(line);
    assert ws != [] ==> Word(ws[0]);
  }

  lemma OneField(w: string)
    requires Word(w)
    ensures Fields(w) == [w]
  {
    FieldsCons(w, "");
  }

  lemma FieldsOfTail(s: string, head: string, tail: string, fields: seq<string>)
    requires Word(head) && Fields(tail) == fields && s == head + " " + tail
    ensures Fields(s) == [head] + fields
  {
    FieldsCons(head, tail);
  }

  lemma Regroup(a: string, b: string, c: string, rest: string)
    ensures a + " " + b + " " + c + (" " + rest) == a + " " + (b + " " + (c + " " + rest))
  {
  }

  lemma ThreeFields(s: string, a: string, b: string, c: string, rest: string, fields: seq<string>)
    requires Word(a) && Word(b) && Word(c) && Fields(rest) == fields && s == a + " " + b + " " + c + (" " + rest)
    ensures Fields(s) == [a, b, c] + fields
  {
    Regroup(a, b, c, rest);
    FieldsOfTail(c + " " + rest, c, rest, fields);
    FieldsOfTail(b + " " + (c + " " + rest), b, c + " " + rest, [c] + fields);
    FieldsOfTail(s, a, b + " " + (c + " " + rest), [b] + ([c] + fields));
  }

  lemma LastFields(s: string, d: string, e: string, f: string)
    requires Word(d) && Word(e) && Word(f) && s == d + " " + (e + " " + f)
    ensures Fields(s) == [d, e, f]
  {
    OneField(f);
    FieldsOfTail(e + " " + f, e, f, [f]);
    FieldsOfTail(s, d, e + " " + f, [e, f]);
  }

  lemma Options(d: string, e: string, f: string)
    requires d == "defaults,nofail,noatime" && e == "0" && f == "2"
    ensures Word(d) && Word(e) && Word(f) && " " + (d + " " + (e + " " + f)) == " defaults,nofail,noatime 0 2"
  {
  }

  /** The entry as `mount` and `fsck` read it. */
  lemma EntryFields(uuid: string, mount: string, fstype: string, options: string, dump: string, pass: string)
    requires NoSpaces(uuid) && Word(mount) && Word(fstype)
    requires options == "defaults,nofail,noatime" && dump == "0" && pass == "2"
    ensures Fields(Entry(uuid, mount, fstype)) == ["UUID=" + uuid, mount, fstype] + [options, dump, pass]
  {
    var rest := options + " " + (dump + " " + pass);
    Options(options, dump, pass);
    LastFields(rest, options, dump, pass);
    ThreeFields(Entry(uuid, mount, fstype), "UUID=" + uuid, mount, fstype, rest, [options, dump, pass]);
  }

  // ---- results ----

  /** The lines of the file after a first enabling: everything that did not match, in order, then the entry. */
  lemma EnableKeepsOtherLines(o: string, uuid: string, mount: string, fstype: string)
    requires Clean(uuid, mount, fstype) && !Present(Lines(o), uuid, mount, Entry(uuid, mount, fstype))
    ensures Lines(Update(o, uuid, mount, fstype, true).0) ==
            DropBlankTail(Kept(Lines(o), uuid, mount)) + [Entry(uuid, mount, fstype), ""]
    ensures Update(o, uuid, mount, fstype, true).1
  {
    var entry := Entry(uuid, mount, fstype);
    var body := DropBlankTail(Kept(Lines(o), uuid, mount));
    EntryFacts(uuid, mount, fstype);
    UnlinesLines(o);
    DropBlankTailFacts(Kept(Lines(o), uuid, mount));
    PrefixOfKept(Lines(o), body, uuid, mount);
    JoinLinesOf(body + [entry]);
    assert body + [entry] + [""] == body + [entry, ""];
  }

  /** Enabling twice equals enabling once, and the second time reports no change. */
  lemma EnableIsIdempotent(o: string, uuid: string, mount: string, fstype: string)
    requires Clean(uuid, mount, fstype)
    ensures var once := Update(o, uuid, mount, fstype, true).0;
            Update(once, uuid, mount, fstype, true) == (once, false)
  {
    var entry := Entry(uuid, mount, fstype);
    if !Present(Lines(o), uuid, mount, entry) {
      EnableKeepsOtherLines(o, uuid, mount, fstype);
      EntryFacts(uuid, mount, fstype);
      var ls := Lines(Update(o, uuid, mount, fstype, true).0);
      var i := |ls| - 2;
      assert ls[i] == entry && Hit(ls[i], uuid, mount) && TrimSpace(ls[i]) == entry;
    }
  }

  /** Disabling removes every active matching line and only those; change is reported exactly when there was one. */
  lemma DisableRemovesExactlyMatches(o: string, uuid: string, mount: string, fstype: string)
    ensures var (d, changed) := Update(o, uuid, mount, fstype, false);
            Lines(d) == DropEmptyTail(Kept(Lines(o), uuid, mount)) + [""]
            && !AnyHit(Lines(d), uuid, mount)
            && (changed <==> AnyHit(Lines(o), uuid, mount))
  {
    var kept := Kept(Lines(o), uuid, mount);
    UnlinesLines(o);
    KeptSize(Lines(o), uuid, mount);
    PrefixOfKept(Lines(o), kept, uuid, mount);
    JoinLinesLines(kept);
    PrefixOfKept(Lines(o), DropEmptyTail(kept), uuid, mount);
    BlankIsNoHit("", uuid, mount);
  }

  lemma KeptOfEnabled(body: seq<string>, entry: string, uuid: string, mount: string)
    requires !AnyHit(body, uuid, mount) && Hit(entry, uuid, mount)
    ensures Kept(body + [entry, ""], uuid, mount) == body + [""]
  {
    KeptSize(body, uuid, mount);
    KeptConcat(body, [entry, ""], uuid, mount);
    BlankIsNoHit("", uuid, mount);
    assert [""][1..] == [] && Kept([""], uuid, mount) == [""];
    assert [entry, ""][1..] == [""] && Kept([entry, ""], uuid, mount) == [""];
  }

  /** If nothing matched before, disabling after enabling restores the file up to blank lines at its end. */
  lemma DisableUndoesEnable(o: string, uuid: string, mount: string, fstype: string)
    requires Clean(uuid, mount, fstype) && !AnyHit(Lines(o), uuid, mount)
    ensures var back := Update(Update(o, uuid, mount, fstype, true).0, uuid, mount, fstype, false).0;
            back == JoinLines(DropBlankTail(Lines(o)))
            && DropBlankTail(Lines(back)) == DropBlankTail(Lines(o))
  {
    var body := DropBlankTail(Lines(o));
    EntryFacts(uuid, mount, fstype);
    KeptSize(Lines(o), uuid, mount);
    EnableKeepsOtherLines(o, uuid, mount, fstype);
    UnlinesLines(o);
    DropBlankTailFacts(Lines(o));
    PrefixOfKept(Lines(o), body, uuid, mount);
    KeptOfEnabled(body, Entry(uuid, mount, fstype), uuid, mount);
    JoinLinesDropsEmpty(body);
    RestoredLines(body);
  }

  lemma RestoredLines(body: seq<string>)
    requires AllOneLine(body) && (body != [] ==> TrimSpace(body[|body| - 1]) != "")
    ensures DropBlankTail(Lines(JoinLines(body))) == body
  {
    JoinLinesLines(body);
    NoEmptyTail(body);
    BlankLineDropped(body);
    assert DropBlankTail(body) == body;
  }

  lemma NoEmptyTail(body: seq<string>)
    requires body != [] ==> TrimSpace(body[|body| - 1]) != ""
    ensures DropEmptyTail(body) == body
  {
  }

  lemma BlankLineDropped(body: seq<string>)
    ensures DropBlankTail(body + [""]) == DropBlankTail(body)
  {
    assert (body + [""])[..|body|] == body;
  }

  predicate OnlyEntryHits(ls: seq<string>, uuid: string, mount: string, entry: string) {
    forall i :: 0 <= i < |ls| && Hit(ls[i], uuid, mount) ==> TrimSpace(ls[i]) == entry
  }

  /**
    Enabling leaves only the entry for the mount point or UUID exactly when the
    entry was not there yet, or nothing else matched before: a file that already
    holds the entry is returned untouched, with any other old lines in it.
  */
  lemma OldEntriesGoneIff(o: string, uuid: string, mount: string, fstype: string)
    requires Clean(uuid, mount, fstype)
    ensures var entry := Entry(uuid, mount, fstype);
            OnlyEntryHits(Lines(Update(o, uuid, mount, fstype, true).0), uuid, mount, entry) <==>
            !Present(Lines(o), uuid, mount, entry) || OnlyEntryHits(Lines(o), uuid, mount, entry)
  {
    var entry := Entry(uuid, mount, fstype);
    if !Present(Lines(o), uuid, mount, entry) {
      var body := DropBlankTail(Kept(Lines(o), uuid, mount));
      EnableKeepsOtherLines(o, uuid, mount, fstype);
      EntryFacts(uuid, mount, fstype);
      UnlinesLines(o);
      DropBlankTailFacts(Kept(Lines(o), uuid, mount));
      PrefixOfKept(Lines(o), body, uuid, mount);
      BlankIsNoHit("", uuid, mount);
      EntryAlone(body, entry, uuid, mount);
    }
  }

  lemma EntryAlone(body: seq<string>, entry: string, uuid: string, mount: string)
    requires !AnyHit(body, uuid, mount) && TrimSpace(entry) == entry && !Hit("", uuid, mount)
    ensures OnlyEntryHits(body + [entry, ""], uuid, mount, entry)
  {
  }

  /** An older line for the mount point, as `mount` would be listed by device. */
  function OldLine(device: string, mount: string): string {
    Unwords([device, mount, "auto"])
  }

  lemma OldLineFacts(device: string, uuid: string, mount: string)
    requires Word(device) && device[0] == '/' && Word(mount)
    ensures var line := OldLine(device, mount);
            OneLine(line) && line != "" && line[0] == '/' && TrimSpace(line) == line && Hit(line, uuid, mount)
  {
    var ws := [device, mount, "auto"];
    assert Words(ws);
    UnwordsEnds(ws);
    FieldsUnwords(ws);
    TrimNothing(Unwords(ws));
  }

  /** A file with the entry and an older line for the same mount point keeps both. */
  lemma OldEntryStays(device: string, uuid: string, mount: string, fstype: string) returns (o: string)
    requires Word(device) && device[0] == '/' && Word(mount) && Clean(uuid, mount, fstype)
    ensures Lines(o) == [Entry(uuid, mount, fstype), OldLine(device, mount), ""]
    ensures Update(o, uuid, mount, fstype, true) == (o, false)
    ensures !OnlyEntryHits(Lines(o), uuid, mount, Entry(uuid, mount, fstype))
  {
    var entry, old' := Entry(uuid, mount, fstype), OldLine(device, mount);
    var ls := [entry, old', ""];
    EntryFacts(uuid, mount, fstype);
    EntryText(uuid, mount, fstype);
    OldLineFacts(device, uuid, mount);
    o := Unlines(ls);
    LinesUnlines(ls);
    assert Hit(ls[0], uuid, mount) && TrimSpace(ls[0]) == entry;
    assert Hit(ls[1], uuid, mount) && TrimSpace(ls[1]) != entry;
  }
}
