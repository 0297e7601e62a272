/**
  What happens to one login from its arrival on (internal/auth/handler.go:64-112),
  in every run of overlapping logins: when a captcha is asked for, what a wrong
  answer records, and what a success needs and clears.
*/
module LoginStory {
  import opened Wrappers
  import opened FailureLog
  import opened Login

  /** A step of the request: what it was asked, whether that was right, and how many failures it found. */
  datatype Deed = Deed(pc: Pc, right: bool, count: nat)

  /** The failures of the key in the window, by the log. */
  function Logged(p: Params, s: State, key: Key): nat {
    |Pruned(Of(s.log, key), s.now - p.window)|
  }

  function DeedOf(p: Params, s: State, r: Request, right: bool): Deed {
    Deed(r.pc, right,
         if r.pc.AskUser? || r.pc.CountUser? then Logged(p, s, r.user)
         else if r.pc.AskIp? || r.pc.CountIp? then Logged(p, s, r.ip) else 0)
  }

  /** The story of the request in slot i, one event on. */
  function Continued(p: Params, s: State, e: Event, i: nat, story: seq<Deed>): seq<Deed> {
    if e.Arrive? && e.slot == i then []
    else if e.Advance? && e.slot == i && InFlight(s, i) then story + [DeedOf(p, s, s.slots[i].value, e.right)]
    else story
  }

  function Story(p: Params, s: State, es: seq<Event>, i: nat, story: seq<Deed>): seq<Deed>
    decreases |es|
  {
    if es == [] || !Enabled(p, s, es[0]) then story
    else Story(p, Step(p, s, es[0]), es[1..], i, Continued(p, s, es[0], i, story))
  }

  predicate Few(story: seq<Deed>, j: nat, pc: Pc, bound: nat) {
    j < |story| && story[j].pc == pc && story[j].count < bound
  }

  predicate Many(story: seq<Deed>, j: nat, pc: Pc, bound: nat) {
    j < |story| && story[j].pc == pc && story[j].count >= bound
  }

  predicate LetIn(p: Params, story: seq<Deed>) {
    Few(story, 0, AskUser, p.maxFail) && Few(story, 1, AskIp, p.maxFail)
  }

  /** A captcha is asked for at once when the name, or else the address, has failed twice. */
  predicate CaptchaDue(p: Params, story: seq<Deed>) {
    LetIn(p, story)
    && ((|story| == 3 && Many(story, 2, CountUser, 2))
        || (|story| == 4 && Few(story, 2, CountUser, 2) && Many(story, 3, CountIp, 2)))
  }

  predicate PasswordDue(p: Params, story: seq<Deed>) {
    || (|story| == 4 && LetIn(p, story) && Few(story, 2, CountUser, 2) && Few(story, 3, CountIp, 2))
    || (story != [] && story[|story| - 1] == Deed(Captcha, true, 0) && CaptchaDue(p, story[..|story| - 1]))
  }

  predicate Wrong(p: Params, story: seq<Deed>) {
    story != [] &&
    var init, last := story[..|story| - 1], story[|story| - 1];
    (last == Deed(Captcha, false, 0) && CaptchaDue(p, init)) || (last == Deed(Password, false, 0) && PasswordDue(p, init))
  }

  predicate Right(p: Params, story: seq<Deed>) {
    story != [] && story[|story| - 1] == Deed(Password, true, 0) && PasswordDue(p, story[..|story| - 1])
  }

  /** The stories that can have led a request to where it stands. */
  predicate LedTo(p: Params, story: seq<Deed>, pc: Pc) {
    match pc
    case AskUser => story == []
    case AskIp => |story| == 1 && Few(story, 0, AskUser, p.maxFail)
    case CountUser => |story| == 2 && LetIn(p, story)
    case CountIp => |story| == 3 && LetIn(p, story) && Few(story, 2, CountUser, 2)
    case Captcha => CaptchaDue(p, story)
    case Password => PasswordDue(p, story)
    case FailUser => Wrong(p, story)
    case FailIp => story != [] && story[|story| - 1].pc.FailUser? && Wrong(p, story[..|story| - 1])
    case ResetUser => Right(p, story)
    case ResetIp =>
      story != [] && story[|story| - 1] == Deed(ResetUser, true, 0) && Right(p, story[..|story| - 1])
  }

  predicate Led(p: Params, s: State, i: nat, story: seq<Deed>) {
    InFlight(s, i) ==> LedTo(p, story, s.slots[i].value.pc)
  }

  // ---- every story is one of those ----

  lemma Extended(story: seq<Deed>, d: Deed)
    ensures (story + [d])[..|story|] == story && (story + [d])[|story|] == d
  {
  }

  lemma LookIsLogged(p: Params, s: State, key: Key)
    requires Refines(s.fails, s.log, s.now, p.window)
    ensures Count(p, s, key) == Logged(p, s, key)
  {
    CountIsLogged(p, s, key);
  }

  lemma AsksLead(p: Params, s: State, i: nat, right: bool, gone: set<Key>, story: seq<Deed>)
    requires Refines(s.fails, s.log, s.now, p.window) && InFlight(s, i) && Led(p, s, i, story)
    requires s.slots[i].value.pc.AskUser? || s.slots[i].value.pc.AskIp?
    ensures Led(p, AdvanceStep(p, s, i, right, gone), i, story + [DeedOf(p, s, s.slots[i].value, right)])
  {
    var r := s.slots[i].value;
    LookIsLogged(p, s, r.user);
    LookIsLogged(p, s, r.ip);
    Extended(story, DeedOf(p, s, r, right));
  }

  lemma CountsLead(p: Params, s: State, i: nat, right: bool, gone: set<Key>, story: seq<Deed>)
    requires Refines(s.fails, s.log, s.now, p.window) && InFlight(s, i) && Led(p, s, i, story)
    requires s.slots[i].value.pc.CountUser? || s.slots[i].value.pc.CountIp?
    ensures Led(p, AdvanceStep(p, s, i, right, gone), i, story + [DeedOf(p, s, s.slots[i].value, right)])
  {
    var r := s.slots[i].value;
    LookIsLogged(p, s, r.user);
    LookIsLogged(p, s, r.ip);
    Extended(story, DeedOf(p, s, r, right));
  }

  lemma AnswersLead(p: Params, s: State, i: nat, right: bool, gone: set<Key>, story: seq<Deed>)
    requires InFlight(s, i) && Led(p, s, i, story)
    requires s.slots[i].value.pc.Captcha? || s.slots[i].value.pc.Password?
    ensures Led(p, AdvanceStep(p, s, i, right, gone), i, story + [DeedOf(p, s, s.slots[i].value, right)])
  {
    Extended(story, DeedOf(p, s, s.slots[i].value, right));
  }

  lemma EndsLead(p: Params, s: State, i: nat, right: bool, gone: set<Key>, story: seq<Deed>)
    requires InFlight(s, i) && Led(p, s, i, story)
    requires var pc := s.slots[i].value.pc; pc.FailUser? || pc.FailIp? || pc.ResetUser? || pc.ResetIp?
    ensures Led(p, AdvanceStep(p, s, i, right, gone), i, story + [DeedOf(p, s, s.slots[i].value, right)])
  {
    Extended(story, DeedOf(p, s, s.slots[i].value, right));
  }

  lemma AdvanceLeads(p: Params, s: State, i: nat, right: bool, gone: set<Key>, story: seq<Deed>)
    requires Refines(s.fails, s.log, s.now, p.window) && InFlight(s, i) && Led(p, s, i, story)
    ensures Led(p, AdvanceStep(p, s, i, right, gone), i, story + [DeedOf(p, s, s.slots[i].value, right)])
  {
    var pc := s.slots[i].value.pc;
    if pc.AskUser? || pc.AskIp? {
      AsksLead(p, s, i, right, gone, story);
    } else if pc.CountUser? || pc.CountIp? {
      CountsLead(p, s, i, right, gone, story);
    } else if pc.Captcha? || pc.Password? {
      AnswersLead(p, s, i, right, gone, story);
    } else {
      EndsLead(p, s, i, right, gone, story);
    }
  }

  /** A step of another slot, or none of any, leaves the request where it is. */
  lemma OthersStay(p: Params, s: State, e: Event, i: nat)
    requires Enabled(p, s, e) && InFlight(s, i) && !(e.Advance? && e.slot == i)
    ensures InFlight(Step(p, s, e), i) && Step(p, s, e).slots[i] == s.slots[i]
  {
  }

  lemma OthersStayEmpty(p: Params, s: State, e: Event, i: nat)
    requires Enabled(p, s, e) && !InFlight(s, i) && InFlight(Step(p, s, e), i)
    ensures e.Arrive? && e.slot == i && Step(p, s, e).slots[i] == Some(Request(e.user, e.ip, AskUser))
  {
  }

  lemma StepLeads(p: Params, s: State, e: Event, i: nat, story: seq<Deed>)
    requires Refines(s.fails, s.log, s.now, p.window) && Enabled(p, s, e) && Led(p, s, i, story)
    ensures Led(p, Step(p, s, e), i, Continued(p, s, e, i, story))
  {
    if InFlight(s, i) {
      if e.Advance? && e.slot == i {
        AdvanceLeads(p, s, i, e.right, e.gone, story);
      } else {
        OthersStay(p, s, e, i);
      }
    } else if InFlight(Step(p, s, e), i) {
      OthersStayEmpty(p, s, e, i);
    }
  }

  lemma {:induction false} RunLeads(p: Params, s: State, es: seq<Event>, t: State, i: nat, story: seq<Deed>)
    requires p.maxFail > 0 && |s.slots| > 0 && Inv(p, s) && Run(p, s, es, t) && Led(p, s, i, story)
    ensures Led(p, t, i, Story(p, s, es, i, story))
    decreases |es|
  {
    if es != [] {
      StepLeads(p, s, es[0], i, story);
      StepKeeps(p, s, es[0]);
      RunLeads(p, Step(p, s, es[0]), es[1..], t, i, Continued(p, s, es[0], i, story));
    }
  }

  lemma InitIsInv(p: Params, k: nat, now: int)
    requires p.maxFail > 0
    ensures Inv(p, Init(k, now))
  {
    var s := Init(k, now);
    forall q: Key
      ensures KeyInv(p, s, q) && KeyOk(s.fails, s.log, s.now, p.window, q)
    {
      NothingOwed(s.slots, q);
      EmptyKeeps(0, now, p.window, Most(p, k));
    }
  }

  /** In every run, for every request in flight. */
  lemma EveryStory(p: Params, k: nat, now: int, es: seq<Event>, t: State, i: nat)
    requires p.maxFail > 0 && k > 0 && Run(p, Init(k, now), es, t) && InFlight(t, i)
    ensures LedTo(p, Story(p, Init(k, now), es, i, []), t.slots[i].value.pc)
  {
    InitIsInv(p, k, now);
    RunLeads(p, Init(k, now), es, t, i, []);
  }

  // ---- what that means ----

  predicate Did(story: seq<Deed>, pc: Pc, right: bool) {
    exists j :: 0 <= j < |story| && story[j].pc == pc && story[j].right == right
  }

  /** One of the two looks before the captcha found two failures or more. */
  predicate FoundTwo(story: seq<Deed>) {
    exists j :: 0 <= j < |story| && (story[j].pc.CountUser? || story[j].pc.CountIp?) && story[j].count >= 2
  }

  /** Nothing is reset, and so no session was issued, without the right password. */
  lemma ResetNeedsPassword(p: Params, k: nat, now: int, es: seq<Event>, t: State, i: nat)
    requires p.maxFail > 0 && k > 0 && Run(p, Init(k, now), es, t) && InFlight(t, i)
    requires t.slots[i].value.pc.ResetUser? || t.slots[i].value.pc.ResetIp?
    ensures Did(Story(p, Init(k, now), es, i, []), Password, true)
  {
    EveryStory(p, k, now, es, t, i);
    var story := Story(p, Init(k, now), es, i, []);
    var n := if t.slots[i].value.pc.ResetUser? then |story| - 1 else |story| - 2;
    assert story[n] == Deed(Password, true, 0);
  }

  lemma PasswordStory(p: Params, story: seq<Deed>)
    requires PasswordDue(p, story)
    ensures FoundTwo(story) <==> Did(story, Captcha, true)
  {
    var n := |story| - 1;
    if story[n] == Deed(Captcha, true, 0) {
      var init := story[..n];
      if |init| == 3 { assert init[2] == story[2]; } else { assert init[3] == story[3]; }
    }
  }

  /** The password is looked at after a right captcha exactly if a look found two failures, otherwise without one. */
  lemma CaptchaExactlyAfterTwo(p: Params, k: nat, now: int, es: seq<Event>, t: State, i: nat)
    requires p.maxFail > 0 && k > 0 && Run(p, Init(k, now), es, t) && InFlight(t, i)
    requires t.slots[i].value.pc.Password?
    ensures var story := Story(p, Init(k, now), es, i, []);
            FoundTwo(story) <==> Did(story, Captcha, true)
  {
    EveryStory(p, k, now, es, t, i);
    PasswordStory(p, Story(p, Init(k, now), es, i, []));
  }

  /** A request fails only by a wrong captcha or a wrong password, and then has recorded nothing yet. */
  lemma FailNeedsWrongAnswer(p: Params, k: nat, now: int, es: seq<Event>, t: State, i: nat)
    requires p.maxFail > 0 && k > 0 && Run(p, Init(k, now), es, t) && InFlight(t, i)
    requires t.slots[i].value.pc.FailUser?
    ensures var story := Story(p, Init(k, now), es, i, []);
            && story != [] && !story[|story| - 1].right
            && (story[|story| - 1].pc.Captcha? || story[|story| - 1].pc.Password?)
            && forall j :: 0 <= j < |story| ==> !story[j].pc.FailUser? && !story[j].pc.FailIp?
  {
    EveryStory(p, k, now, es, t, i);
    NoFailureBefore(p, Story(p, Init(k, now), es, i, []));
  }

  lemma NoFailureBefore(p: Params, story: seq<Deed>)
    requires Wrong(p, story)
    ensures forall j :: 0 <= j < |story| ==> !story[j].pc.FailUser? && !story[j].pc.FailIp?
  {
    var n := |story| - 1;
    var init := story[..n];
    assert forall j :: 0 <= j < n ==> story[j] == init[j];
    if PasswordDue(p, init) && |init| > 4 {
      assert forall j :: 0 <= j < |init| - 1 ==> init[j] == init[..|init| - 1][j];
    }
  }

  /** A request is turned away exactly if its name or address has reached the limit. */
  lemma RefusedIff(p: Params, k: nat, now: int, es: seq<Event>, s: State, i: nat, right: bool)
    requires p.maxFail > 0 && k > 0 && Run(p, Init(k, now), es, s) && Enabled(p, s, Advance(i, right, {}))
    requires s.slots[i].value.pc.AskUser? || s.slots[i].value.pc.AskIp?
    ensures var r := s.slots[i].value;
            var t := Step(p, s, Advance(i, right, {}));
            && (t.slots[i].None? <==> Logged(p, s, if r.pc.AskUser? then r.user else r.ip) >= p.maxFail)
            && t.log == s.log
  {
    InitIsInv(p, k, now);
    RunKeeps(p, Init(k, now), es, s);
    var r := s.slots[i].value;
    LookIsLogged(p, s, r.user);
    LookIsLogged(p, s, r.ip);
  }

  // ---- what is recorded ----

  /** One failure of the key is added now, keys evicted on the way start anew, nothing else changes. */
  predicate RecordsOne(s: State, t: State, key: Key, gone: set<Key>) {
    && t.now == s.now && key !in gone
    && (key in t.log && t.log[key] == Of(s.log, key) + [s.now])
    && (forall k :: k in t.log && k != key ==> k in s.log && k !in gone && t.log[k] == s.log[k])
    && (forall k :: k in s.log && k !in gone ==> k in t.log)
  }

  predicate LeavesAlone(e: Event, i: nat) { e.Advance? ==> e.slot != i }

  lemma {:induction false} RequestWaits(p: Params, s: State, es: seq<Event>, t: State, i: nat)
    requires InFlight(s, i) && Run(p, s, es, t) && forall j :: 0 <= j < |es| ==> LeavesAlone(es[j], i)
    ensures InFlight(t, i) && t.slots[i] == s.slots[i]
    decreases |es|
  {
    if es != [] {
      assert LeavesAlone(es[0], i);
      OthersStay(p, s, es[0], i);
      RequestWaits(p, Step(p, s, es[0]), es[1..], t, i);
    }
  }

  lemma LogFailRecords(s: State, t: State, key: Key, gone: set<Key>)
    requires t.log == LogFail(s.log, key, s.now, gone) && t.now == s.now && key !in gone
    ensures RecordsOne(s, t, key, gone)
  {
  }

  lemma NameRecorded(p: Params, s: State, i: nat, right: bool, gone: set<Key>)
    requires Enabled(p, s, Advance(i, right, gone)) && s.slots[i].value.pc.FailUser?
    ensures var r, t := s.slots[i].value, Step(p, s, Advance(i, right, gone));
            RecordsOne(s, t, r.user, gone) && InFlight(t, i) && t.slots[i] == Some(r.(pc := FailIp))
  {
    var t := Step(p, s, Advance(i, right, gone));
    LogFailRecords(s, t, s.slots[i].value.user, gone);
  }

  lemma AddressRecorded(p: Params, s: State, i: nat, right: bool, gone: set<Key>)
    requires Enabled(p, s, Advance(i, right, gone)) && s.slots[i].value.pc.FailIp?
    ensures var r, t := s.slots[i].value, Step(p, s, Advance(i, right, gone));
            RecordsOne(s, t, r.ip, gone) && t.slots[i].None?
  {
    var t := Step(p, s, Advance(i, right, gone));
    LogFailRecords(s, t, s.slots[i].value.ip, gone);
  }

  lemma WrongAnswerFails(p: Params, s: State, i: nat)
    requires Enabled(p, s, Advance(i, false, {}))
    requires s.slots[i].value.pc.Captcha? || s.slots[i].value.pc.Password?
    ensures var r, t := s.slots[i].value, Step(p, s, Advance(i, false, {}));
            t.log == s.log && InFlight(t, i) && t.slots[i] == Some(r.(pc := FailUser))
  {
  }

  /**
    A wrong captcha or password records nothing itself; the request's next step
    records one failure of its name, whatever other requests do in between.
  */
  lemma WrongAnswerRecordsName(p: Params, s: State, i: nat, es: seq<Event>, t: State, right: bool, gone: set<Key>)
    requires Enabled(p, s, Advance(i, false, {}))
    requires s.slots[i].value.pc.Captcha? || s.slots[i].value.pc.Password?
    requires Run(p, Step(p, s, Advance(i, false, {})), es, t) && forall j :: 0 <= j < |es| ==> LeavesAlone(es[j], i)
    requires Enabled(p, t, Advance(i, right, gone))
    ensures var r, u := s.slots[i].value, Step(p, t, Advance(i, right, gone));
            && Step(p, s, Advance(i, false, {})).log == s.log
            && RecordsOne(t, u, r.user, gone)
            && InFlight(u, i) && u.slots[i] == Some(r.(pc := FailIp))
  {
    WrongAnswerFails(p, s, i);
    RequestWaits(p, Step(p, s, Advance(i, false, {})), es, t, i);
    NameRecorded(p, t, i, right, gone);
  }

  /** And the step after that one of its address, and then the request is over. */
  lemma ThenRecordsAddress(p: Params, s: State, i: nat, es: seq<Event>, t: State, right: bool, gone: set<Key>)
    requires InFlight(s, i) && s.slots[i].value.pc.FailIp?
    requires Run(p, s, es, t) && forall j :: 0 <= j < |es| ==> LeavesAlone(es[j], i)
    requires Enabled(p, t, Advance(i, right, gone))
    ensures var u := Step(p, t, Advance(i, right, gone));
            RecordsOne(t, u, s.slots[i].value.ip, gone) && u.slots[i].None?
  {
    RequestWaits(p, s, es, t, i);
    AddressRecorded(p, t, i, right, gone);
  }

  /** All other steps of a request record nothing. */
  lemma OnlyFailuresRecord(p: Params, s: State, i: nat, right: bool, gone: set<Key>)
    requires Enabled(p, s, Advance(i, right, gone))
    requires !s.slots[i].value.pc.FailUser? && !s.slots[i].value.pc.FailIp?
    ensures var t := Step(p, s, Advance(i, right, gone));
            forall k :: k in t.log ==> k in s.log && t.log[k] == s.log[k]
  {
  }

  // ---- what a success clears ----

  /** This step records a failure of the key. */
  predicate Records(s: State, e: Event, key: Key) {
    e.Advance? && InFlight(s, e.slot) &&
    var r := s.slots[e.slot].value;
    (r.pc.FailUser? && r.user == key) || (r.pc.FailIp? && r.ip == key)
  }

  predicate Quiet(p: Params, s: State, es: seq<Event>, key: Key)
    decreases |es|
  {
    es != [] && Enabled(p, s, es[0]) ==> !Records(s, es[0], key) && Quiet(p, Step(p, s, es[0]), es[1..], key)
  }

  predicate Cleared(s: State, key: Key) { key !in s.fails && key !in s.log }

  lemma AdvanceKeepsClear(p: Params, s: State, i: nat, right: bool, gone: set<Key>, key: Key)
    requires InFlight(s, i) && Cleared(s, key) && !Records(s, Advance(i, right, gone), key)
    ensures Cleared(AdvanceStep(p, s, i, right, gone), key)
  {
  }

  lemma {:induction false} StaysClear(p: Params, s: State, es: seq<Event>, t: State, key: Key)
    requires Cleared(s, key) && Run(p, s, es, t) && Quiet(p, s, es, key)
    ensures Cleared(t, key)
    decreases |es|
  {
    if es != [] {
      if es[0].Advance? { AdvanceKeepsClear(p, s, es[0].slot, es[0].right, es[0].gone, key); }
      StaysClear(p, Step(p, s, es[0]), es[1..], t, key);
    }
  }

  /** Without a session nothing is cleared, and the request is over. */
  lemma NoSessionClearsNothing(p: Params, s: State, i: nat)
    requires Enabled(p, s, Advance(i, false, {})) && s.slots[i].value.pc.ResetUser?
    ensures var t := Step(p, s, Advance(i, false, {}));
            t.fails == s.fails && t.log == s.log && t.slots[i].None?
  {
  }

  /**
    With one, the request's next two steps clear its name and then its address,
    from the table and the log, and then it is over; the name is still clear
    then unless another request recorded a failure of it in between.
  */
  lemma SuccessClearsBoth(p: Params, s: State, i: nat, a: seq<Event>, s2: State, right: bool)
    requires Enabled(p, s, Advance(i, true, {})) && s.slots[i].value.pc.ResetUser?
    requires Run(p, Step(p, s, Advance(i, true, {})), a, s2) && forall j :: 0 <= j < |a| ==> LeavesAlone(a[j], i)
    requires Enabled(p, s2, Advance(i, right, {}))
    ensures var r, t1, t := s.slots[i].value, Step(p, s, Advance(i, true, {})), Step(p, s2, Advance(i, right, {}));
            && Cleared(t1, r.user) && Cleared(t, r.ip) && t.slots[i].None?
            && (Quiet(p, t1, a, r.user) ==> Cleared(t, r.user))
  {
    var r, t1 := s.slots[i].value, Step(p, s, Advance(i, true, {}));
    RequestWaits(p, t1, a, s2, i);
    if Quiet(p, t1, a, r.user) {
      StaysClear(p, t1, a, s2, r.user);
    }
  }

  /** The text a request records a failure of, when it is about to. */
  predicate AboutToFail(r: Request, key: Key) {
    (r.pc.FailUser? && key == r.user) || (r.pc.FailIp? && key == r.ip)
  }

  /** None of the key's failures in the table is in the window any more. */
  predicate NoneInWindow(p: Params, s: State, key: Key) {
    forall t :: t in Of(s.fails, key) ==> t <= s.now - p.window
  }

  lemma NothingKept(p: Params, s: State, key: Key)
    ensures key !in PruneKey(s.fails, key, s.now - p.window) <==> NoneInWindow(p, s, key)
  {
    var ts, cut := Of(s.fails, key), s.now - p.window;
    PrunedExact(ts, cut);
    if Pruned(ts, cut) != [] {
      var t := Pruned(ts, cut)[0];
      assert t in Pruned(ts, cut);
      assert t in Of(s.fails, key) && t > s.now - p.window;
    } else {
      forall t | t in Of(s.fails, key) ensures t <= s.now - p.window {
        assert t !in Pruned(ts, cut);
      }
    }
  }

  /** A request can always go on; keys are evicted only by a failure of a key that had none in the window, and never that key. */
  lemma EvictionsExact(p: Params, s: State, i: nat, right: bool, gone: set<Key>)
    requires InFlight(s, i)
    ensures Enabled(p, s, Advance(i, right, gone)) <==>
              gone == {} || exists key :: AboutToFail(s.slots[i].value, key) && key !in gone && NoneInWindow(p, s, key)
  {
    var r := s.slots[i].value;
    NothingKept(p, s, r.user);
    NothingKept(p, s, r.ip);
    if r.pc.FailUser? {
      assert AboutToFail(r, r.user);
    } else if r.pc.FailIp? {
      assert AboutToFail(r, r.ip);
    }
  }
}
