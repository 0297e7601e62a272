/**
  The status probe (internal/api/notify_probe.go:18-98): each round compares the
  listed nodes and applications with a snapshot and reports what came online or
  went offline.
*/
module Probe {
  type Items<K> = seq<(K, bool)>

  datatype Change<K> = Change(key: K, online: bool)

  predicate Distinct<K(==)>(items: Items<K>) {
    forall i, j :: 0 <= i < j < |items| ==> items[i].0 != items[j].0
  }

  function Statuses<K>(items: Items<K>): map<K, bool> {
    if items == [] then map[]
    else Statuses(items[..|items| - 1])[items[|items| - 1].0 := items[|items| - 1].1]
  }

  /** What differs from the snapshot; an item the snapshot does not know is no change. */
  function Changes<K(==)>(snap: map<K, bool>, items: Items<K>): seq<Change<K>> {
    if items == [] then []
    else
      var (k, online) := items[|items| - 1];
      Changes(snap, items[..|items| - 1])
      + if k in snap && snap[k] != online then [Change(k, online)] else []
  }

  predicate ListedAt<K(==)>(items: Items<K>, i: int, k: K) {
    0 <= i < |items| && items[i].0 == k
  }

  lemma {:induction false} StatusesListed<K>(items: Items<K>, k: K)
    ensures k in Statuses(items) <==> exists i :: ListedAt(items, i, k)
  {
    if items != [] {
      var n := |items| - 1;
      StatusesListed(items[..n], k);
      assert items[n].0 == k ==> ListedAt(items, n, k);
      if k in Statuses(items[..n]) {
        var i :| ListedAt(items[..n], i, k);
        assert ListedAt(items, i, k);
      }
      forall i | ListedAt(items, i, k) && items[n].0 != k ensures k in Statuses(items[..n]) {
        assert ListedAt(items[..n], i, k);
      }
    }
  }

  lemma {:induction false} StatusesExact<K>(items: Items<K>, i: int, k: K)
    requires Distinct(items) && ListedAt(items, i, k)
    ensures k in Statuses(items) && Statuses(items)[k] == items[i].1
  {
    var n := |items| - 1;
    if i < n { StatusesExact(items[..n], i, k); }
  }

  lemma AddThenUpdate<K>(a: map<K, bool>, b: map<K, bool>, k: K, online: bool)
    ensures a + b[k := online] == (a + b)[k := online]
  {
  }

  lemma NotYetListed<K>(items: Items<K>, i: nat)
    requires Distinct(items) && i < |items|
    ensures items[i].0 !in Statuses(items[..i])
    ensures Statuses(items[..i + 1]) == Statuses(items[..i])[items[i].0 := items[i].1]
  {
    StatusesListed(items[..i], items[i].0);
    assert items[..i + 1][..i] == items[..i];
  }

  /** The snapshot, the ids seen and the events once i items have been gone through. */
  predicate Observed<K(==)>(before: map<K, bool>, items: Items<K>, i: nat, first: bool,
                            online: map<K, bool>, current: set<K>, events: seq<Change<K>>)
    requires i <= |items|
  {
    && online == before + Statuses(items[..i]) && current == Statuses(items[..i]).Keys
    && events == if first then [] else Changes(before, items[..i])
  }

  lemma ChangesNext<K>(before: map<K, bool>, items: Items<K>, i: nat)
    requires i < |items|
    ensures var (k, on) := items[i];
            Changes(before, items[..i + 1])
            == Changes(before, items[..i]) + if k in before && before[k] != on then [Change(k, on)] else []
  {
    assert items[..i + 1][..i] == items[..i];
  }

  /** An item not yet listed has the status it had before; then it gets its own. */
  lemma ObserveNext<K>(before: map<K, bool>, items: Items<K>, i: nat, first: bool,
                       online: map<K, bool>, current: set<K>, events: seq<Change<K>>)
    requires i < |items| && Distinct(items) && Observed(before, items, i, first, online, current, events)
    ensures var (k, on) := items[i];
            var changed := !first && k in online && online[k] != on;
            Observed(before, items, i + 1, first, online[k := on], current + {k},
                     if changed then events + [Change(k, on)] else events)
  {
    NotYetListed(items, i);
    AddThenUpdate(before, Statuses(items[..i]), items[i].0, items[i].1);
    ChangesNext(before, items, i);
  }

  lemma OnlyListedStay<K>(before: map<K, bool>, items: Items<K>, online: map<K, bool>)
    requires online == before + Statuses(items)
    ensures (map k | k in online && k in Statuses(items).Keys :: online[k]) == Statuses(items)
  {
  }

  class Snapshot<K(==)> {
    var online: map<K, bool>

    constructor ()
      ensures online == map[]
    {
      online := map[];
    }

    method Observe(items: Items<K>, first: bool) returns (events: seq<Change<K>>)
      requires Distinct(items)
      modifies this
      ensures online == Statuses(items)
      ensures events == if first then [] else Changes(old(online), items)
    {
      events := [];
      ghost var before := online;
      var current: set<K> := {};
      for i := 0 to |items|
        invariant Observed(before, items, i, first, online, current, events)
      {
        ObserveNext(before, items, i, first, online, current, events);
        var k, on := items[i].0, items[i].1;
        current := current + {k};
        var existed := k in online;
        var prev := if existed then online[k] else false;
        online := online[k := on];
        if !first && existed && prev != on {
          events := events + [Change(k, on)];
        }
      }
      assert items[..|items|] == items;
      OnlyListedStay(before, items, online);
      Forget(current);
    }

    /** Drops what is no longer listed. */
    method Forget(current: set<K>)
      modifies this
      ensures online == map k | k in old(online) && k in current :: old(online)[k]
    {
      ghost var before := online;
      var ids := online.Keys;
      while ids != {}
        invariant ids <= before.Keys
        invariant online == map k | k in before && (k in ids || k in current) :: before[k]
        decreases |ids|
      {
        var id :| id in ids;
        ids := ids - {id};
        if id !in current {
          online := online - {id};
        }
      }
    }
  }

  // ---- rounds ----

  /** One round: the node list could not be read, or what was listed. */
  datatype Round = Failed | Listed(nodes: Items<int>, apps: Items<string>)

  predicate ValidRound(r: Round) {
    r.Listed? ==> Distinct(r.nodes) && Distinct(r.apps)
  }

  datatype Report = Report(nodes: seq<Change<int>>, apps: seq<Change<string>>)

  datatype Look<K> = NoLook | Look(items: Items<K>)

  function NodeLooks(rounds: seq<Round>): seq<Look<int>> {
    seq(|rounds|, i requires 0 <= i < |rounds| => if rounds[i].Failed? then NoLook else Look(rounds[i].nodes))
  }

  function AppLooks(rounds: seq<Round>): seq<Look<string>> {
    seq(|rounds|, i requires 0 <= i < |rounds| => if rounds[i].Failed? then NoLook else Look(rounds[i].apps))
  }

  /** The snapshot after n rounds is the last list that could be read. */
  function SnapAfter<K>(looks: seq<Look<K>>, n: nat): map<K, bool>
    requires n <= |looks|
  {
    if n == 0 then map[]
    else if looks[n - 1].NoLook? then SnapAfter(looks, n - 1)
    else Statuses(looks[n - 1].items)
  }

  function EventsAt<K(==)>(looks: seq<Look<K>>, i: nat): seq<Change<K>>
    requires i < |looks|
  {
    if looks[i].NoLook? then [] else Changes(SnapAfter(looks, i), looks[i].items)
  }

  /** What a round does to the two snapshots and reports; one whose node list fails does nothing. */
  predicate Probed(round: Round, first: bool, nodes: map<int, bool>, apps: map<string, bool>,
                   newNodes: map<int, bool>, newApps: map<string, bool>, report: Report) {
    match round
    case Failed => report == Report([], []) && newNodes == nodes && newApps == apps
    case Listed(nodeItems, appItems) =>
      && newNodes == Statuses(nodeItems) && newApps == Statuses(appItems)
      && report.nodes == (if first then [] else Changes(nodes, nodeItems))
      && report.apps == (if first then [] else Changes(apps, appItems))
  }

  class Prober {
    const nodeSnap: Snapshot<int>
    const appSnap: Snapshot<string>

    constructor ()
      ensures fresh(nodeSnap) && fresh(appSnap)
      ensures nodeSnap.online == map[] && appSnap.online == map[]
    {
      nodeSnap := new Snapshot();
      appSnap := new Snapshot();
    }

    method ProbeOnce(round: Round, first: bool) returns (report: Report)
      requires ValidRound(round)
      modifies nodeSnap, appSnap
      ensures Probed(round, first, old(nodeSnap.online), old(appSnap.online), nodeSnap.online, appSnap.online, report)
    {
      if round.Failed? {
        return Report([], []);
      }
      var nodes := nodeSnap.Observe(round.nodes, first);
      var apps := appSnap.Observe(round.apps, first);
      return Report(nodes, apps);
    }
  }

  predicate Reported(rounds: seq<Round>, i: nat, report: Report)
    requires i < |rounds|
  {
    report.nodes == EventsAt(NodeLooks(rounds), i) && report.apps == EventsAt(AppLooks(rounds), i)
  }

  predicate Tracks(rounds: seq<Round>, n: nat, nodes: map<int, bool>, apps: map<string, bool>)
    requires n <= |rounds|
  {
    nodes == SnapAfter(NodeLooks(rounds), n) && apps == SnapAfter(AppLooks(rounds), n)
  }

  /** Such a round leads from one state of the run to the next. */
  lemma RoundStep(rounds: seq<Round>, n: nat, nodes: map<int, bool>, apps: map<string, bool>,
                  newNodes: map<int, bool>, newApps: map<string, bool>, report: Report)
    requires n < |rounds| && Tracks(rounds, n, nodes, apps)
    requires Probed(rounds[n], n == 0, nodes, apps, newNodes, newApps, report)
    ensures Tracks(rounds, n + 1, newNodes, newApps) && Reported(rounds, n, report)
  {
    if rounds[n].Listed? {
      NothingKnown(rounds[n].nodes);
      NothingKnown(rounds[n].apps);
    }
  }

  /** The loop, for as many rounds as it runs. */
  method NotifyProbeLoop(rounds: seq<Round>) returns (reports: seq<Report>)
    requires forall i :: 0 <= i < |rounds| ==> ValidRound(rounds[i])
    ensures |reports| == |rounds|
    ensures forall i :: 0 <= i < |rounds| ==> Reported(rounds, i, reports[i])
  {
    var prober := new Prober();
    var first := true;
    reports := [];
    for n := 0 to |rounds|
      invariant |reports| == n && fresh(prober.nodeSnap) && fresh(prober.appSnap)
      invariant first <==> n == 0
      invariant Tracks(rounds, n, prober.nodeSnap.online, prober.appSnap.online)
      invariant forall i :: 0 <= i < n ==> Reported(rounds, i, reports[i])
    {
      ghost var nodes, apps := prober.nodeSnap.online, prober.appSnap.online;
      var report := prober.ProbeOnce(rounds[n], first);
      RoundStep(rounds, n, nodes, apps, prober.nodeSnap.online, prober.appSnap.online, report);
      reports := reports + [report];
      first := false;
    }
  }

  lemma {:induction false} NothingKnown<K>(items: Items<K>)
    ensures Changes(map[], items) == []
  {
    if items != [] { NothingKnown(items[..|items| - 1]); }
  }

  // ---- what a run reports ----

  ghost predicate ValidLooks<K>(looks: seq<Look<K>>) {
    forall i: nat :: ValidLook(looks, i)
  }

  predicate ValidLook<K(==)>(looks: seq<Look<K>>, i: nat) {
    i < |looks| && looks[i].Look? ==> Distinct(looks[i].items)
  }

  lemma {:induction false} SnapOfFailures<K>(looks: seq<Look<K>>, n: nat)
    requires n <= |looks| && forall i :: 0 <= i < n ==> looks[i].NoLook?
    ensures SnapAfter(looks, n) == map[]
  {
    if n > 0 { SnapOfFailures(looks, n - 1); }
  }

  /** The first list that can be read reports nothing, even after failed rounds. */
  lemma FirstListIsSilent<K>(looks: seq<Look<K>>, i: nat)
    requires i < |looks| && forall j :: 0 <= j < i ==> looks[j].NoLook?
    ensures EventsAt(looks, i) == []
  {
    SnapOfFailures(looks, i);
    if looks[i].Look? { NothingKnown(looks[i].items); }
  }

  /** After a round that could be read the snapshot knows the listed items, with their statuses, and nothing else. */
  lemma SnapshotIsListed<K>(looks: seq<Look<K>>, i: nat, k: K)
    requires i < |looks| && looks[i].Look? && Distinct(looks[i].items)
    ensures var snap, items := SnapAfter(looks, i + 1), looks[i].items;
            && (k in snap <==> exists j :: ListedAt(items, j, k))
            && forall j :: ListedAt(items, j, k) ==> snap[k] == items[j].1
  {
    var items := looks[i].items;
    StatusesListed(items, k);
    forall j | ListedAt(items, j, k) ensures Statuses(items)[k] == items[j].1 {
      StatusesExact(items, j, k);
    }
  }

  /** The events of one item. */
  function Of<K(==)>(events: seq<Change<K>>, k: K): seq<bool> {
    if events == [] then []
    else Of(events[..|events| - 1], k) + if events[|events| - 1].key == k then [events[|events| - 1].online] else []
  }

  lemma OfSnoc<K>(events: seq<Change<K>>, e: Change<K>, k: K)
    ensures Of(events + [e], k) == Of(events, k) + if e.key == k then [e.online] else []
  {
    assert (events + [e])[..|events|] == events;
  }

  /** The last item listed adds its own event, if it has one. */
  lemma ChangesSnoc<K>(snap: map<K, bool>, items: Items<K>, k: K)
    requires items != []
    ensures var n := |items| - 1;
            var (x, online) := items[n];
            Of(Changes(snap, items), k) == Of(Changes(snap, items[..n]), k)
                                           + if x == k && x in snap && snap[x] != online then [online] else []
  {
    var n := |items| - 1;
    var (x, online) := items[n];
    var init := Changes(snap, items[..n]);
    if x in snap && snap[x] != online {
      OfSnoc(init, Change(x, online), k);
    } else {
      assert init + [] == init;
    }
  }

  /** An item gets one event when it was known with another status, and none otherwise. */
  lemma {:induction false} ChangesOf<K>(snap: map<K, bool>, items: Items<K>, k: K)
    requires Distinct(items)
    ensures var now := Statuses(items);
            Of(Changes(snap, items), k) == if k in snap && k in now && snap[k] != now[k] then [now[k]] else []
  {
    if items != [] {
      var n := |items| - 1;
      ChangesOf(snap, items[..n], k);
      ChangesSnoc(snap, items, k);
      NotYetListed(items, n);
      assert items[..n + 1] == items;
    }
  }

  /** All events of one item in the rounds from `start` up to `end`. */
  function History<K(==)>(looks: seq<Look<K>>, start: nat, end: nat, k: K): seq<bool>
    requires start <= end <= |looks|
    decreases end
  {
    if start == end then [] else History(looks, start, end - 1, k) + Of(EventsAt(looks, end - 1), k)
  }

  /** Listed in every round from `start` up to `end` that could be read. */
  predicate Continuous<K(==)>(looks: seq<Look<K>>, start: nat, end: nat, k: K)
    requires start <= end <= |looks|
  {
    forall i :: start <= i < end ==> ListedIn(looks, i, k)
  }

  predicate ListedIn<K(==)>(looks: seq<Look<K>>, i: nat, k: K)
    requires i < |looks|
  {
    looks[i].Look? ==> k in Statuses(looks[i].items)
  }

  /** Each event reverses the status before it. */
  predicate Alternates(status: bool, events: seq<bool>) {
    forall i :: 0 <= i < |events| ==> events[i] == !(if i == 0 then status else events[i - 1])
  }

  function Replay(status: bool, events: seq<bool>): bool {
    if events == [] then status else events[|events| - 1]
  }

  lemma OneMoreEvent(status: bool, events: seq<bool>, now: bool)
    requires Alternates(status, events)
    ensures var more := events + if Replay(status, events) != now then [now] else [];
            Alternates(status, more) && Replay(status, more) == now
  {
    if Replay(status, events) == now {
      assert events + [] == events;
    } else {
      var more := events + [now];
      forall i | 0 <= i < |more| ensures more[i] == !(if i == 0 then status else more[i - 1]) {
        assert i < |events| ==> more[i] == events[i];
        assert i > 0 ==> more[i - 1] == events[i - 1];
      }
      assert Alternates(status, more);
    }
  }

  lemma RoundOf<K>(looks: seq<Look<K>>, i: nat, k: K)
    requires ValidLooks(looks) && i < |looks|
    ensures var snap, now := SnapAfter(looks, i), SnapAfter(looks, i + 1);
            Of(EventsAt(looks, i), k) == if k in snap && k in now && snap[k] != now[k] then [now[k]] else []
  {
    if looks[i].Look? {
      assert ValidLook(looks, i);
      ChangesOf(SnapAfter(looks, i), looks[i].items, k);
    }
  }

  lemma {:induction false} KnownSince<K>(looks: seq<Look<K>>, start: nat, end: nat, k: K)
    requires start < end <= |looks| && looks[start].Look? && Continuous(looks, start, end, k)
    ensures k in SnapAfter(looks, end)
    decreases end
  {
    assert ListedIn(looks, end - 1, k);
    if end > start + 1 && looks[end - 1].NoLook? { KnownSince(looks, start, end - 1, k); }
  }

  lemma FirstSeen<K>(looks: seq<Look<K>>, start: nat, k: K)
    requires ValidLooks(looks) && start < |looks| && looks[start].Look?
    requires k !in SnapAfter(looks, start)
    ensures History(looks, start, start + 1, k) == []
    ensures SnapAfter(looks, start + 1) == Statuses(looks[start].items)
  {
    RoundOf(looks, start, k);
    assert History(looks, start, start, k) == [];
  }

  /** The events so far account for the status in the snapshot. */
  predicate Accounted<K(==)>(looks: seq<Look<K>>, start: nat, end: nat, k: K, status: bool)
    requires start <= end <= |looks| && k in SnapAfter(looks, end)
  {
    Explains(status, History(looks, start, end, k), SnapAfter(looks, end)[k])
  }

  predicate Explains(status: bool, events: seq<bool>, now: bool) {
    Alternates(status, events) && Replay(status, events) == now
  }

  /** One round, given the status before and after it and the item's events in it. */
  lemma RoundExplains(status: bool, events: seq<bool>, before: bool, more: seq<bool>, now: bool)
    requires Explains(status, events, before) && more == if before != now then [now] else []
    ensures Explains(status, events + more, now)
  {
    OneMoreEvent(status, events, now);
  }

  lemma HistoryNext<K>(looks: seq<Look<K>>, start: nat, i: nat, end: nat, k: K)
    requires start <= i < |looks| && end == i + 1
    ensures History(looks, start, end, k) == History(looks, start, i, k) + Of(EventsAt(looks, i), k)
  {
  }

  lemma ReplayStep<K>(looks: seq<Look<K>>, start: nat, i: nat, end: nat, k: K, status: bool)
    requires ValidLooks(looks) && start <= i < |looks| && end == i + 1
    requires k in SnapAfter(looks, i) && k in SnapAfter(looks, end)
    requires Accounted(looks, start, i, k, status)
    ensures Accounted(looks, start, end, k, status)
  {
    var before, now := SnapAfter(looks, i)[k], SnapAfter(looks, end)[k];
    var events, more := History(looks, start, i, k), Of(EventsAt(looks, i), k);
    RoundOf(looks, i, k);
    HistoryNext(looks, start, i, end, k);
    RoundExplains(status, events, before, more, now);
  }

  lemma FirstAccounted<K>(looks: seq<Look<K>>, start: nat, k: K)
    requires ValidLooks(looks) && start < |looks| && looks[start].Look?
    requires k !in SnapAfter(looks, start) && ListedIn(looks, start, k)
    ensures k in Statuses(looks[start].items) && k in SnapAfter(looks, start + 1)
    ensures Accounted(looks, start, start + 1, k, Statuses(looks[start].items)[k])
  {
    FirstSeen(looks, start, k);
  }

  /**
    For an item that the round `start` lists for the first time, and every later round lists:
    its events alternate, and replaying them from its first status gives the snapshot.
  */
  lemma {:induction false} EventsReplay<K>(looks: seq<Look<K>>, start: nat, end: nat, k: K)
    requires ValidLooks(looks) && start < end <= |looks|
    requires looks[start].Look? && k !in SnapAfter(looks, start) && Continuous(looks, start, end, k)
    ensures k in Statuses(looks[start].items) && k in SnapAfter(looks, end)
    ensures Accounted(looks, start, end, k, Statuses(looks[start].items)[k])
    decreases end
  {
    assert ListedIn(looks, start, k);
    if end == start + 1 {
      FirstAccounted(looks, start, k);
    } else {
      KnownSince(looks, start, end, k);
      EventsReplay(looks, start, end - 1, k);
      ReplayStep(looks, start, end - 1, end, k, Statuses(looks[start].items)[k]);
    }
  }

  // ---- what one report means ----

  lemma {:induction false} EventsOf<K>(events: seq<Change<K>>, k: K, online: bool)
    ensures Change(k, online) in events <==> online in Of(events, k)
  {
    if events != [] {
      var n := |events| - 1;
      EventsOf(events[..n], k, online);
      assert events == events[..n] + [events[n]];
    }
  }

  /** The last list that could be read before round `i`. */
  predicate LastLook<K>(looks: seq<Look<K>>, p: nat, i: nat)
    requires i <= |looks|
  {
    p < i && looks[p].Look? && forall j :: p < j < i ==> looks[j].NoLook?
  }

  ghost predicate ListedAs<K>(look: Look<K>, k: K, online: bool) {
    look.Look? && exists j :: ListedAt(look.items, j, k) && look.items[j].1 == online
  }

  lemma {:induction false} SnapIsLastLook<K>(looks: seq<Look<K>>, i: nat) returns (p: nat)
    requires i <= |looks|
    ensures || (SnapAfter(looks, i) == map[] && forall j :: 0 <= j < i ==> looks[j].NoLook?)
            || (LastLook(looks, p, i) && SnapAfter(looks, i) == Statuses(looks[p].items))
    decreases i
  {
    p := 0;
    if i > 0 {
      if looks[i - 1].Look? { p := i - 1; } else { p := SnapIsLastLook(looks, i - 1); }
    }
  }

  lemma ListedStatus<K>(look: Look<K>, k: K, online: bool)
    requires look.Look? && Distinct(look.items)
    ensures k in Statuses(look.items) && Statuses(look.items)[k] == online <==> ListedAs(look, k, online)
  {
    var items := look.items;
    StatusesListed(items, k);
    forall j | ListedAt(items, j, k) ensures Statuses(items)[k] == items[j].1 {
      StatusesExact(items, j, k);
    }
  }

  lemma OneLastLook<K>(looks: seq<Look<K>>, p: nat, q: nat, i: nat)
    requires i <= |looks| && LastLook(looks, p, i) && LastLook(looks, q, i)
    ensures p == q
  {
  }

  /**
    A round reports an item exactly if it lists it with this status, and the last
    list that could be read before it had the item with the other one.
  */
  lemma EventMeans<K(!new)>(looks: seq<Look<K>>, i: nat, k: K, online: bool)
    requires ValidLooks(looks) && i < |looks|
    ensures Change(k, online) in EventsAt(looks, i) <==>
              ListedAs(looks[i], k, online) && exists p: nat :: LastLook(looks, p, i) && ListedAs(looks[p], k, !online)
  {
    EventsOf(EventsAt(looks, i), k, online);
    RoundOf(looks, i, k);
    var p := SnapIsLastLook(looks, i);
    if looks[i].Look? {
      assert ValidLook(looks, i);
      ListedStatus(looks[i], k, online);
      if LastLook(looks, p, i) {
        assert ValidLook(looks, p);
        ListedStatus(looks[p], k, !online);
        forall q: nat | LastLook(looks, q, i) ensures q == p { OneLastLook(looks, p, q, i); }
      }
    }
  }
}
