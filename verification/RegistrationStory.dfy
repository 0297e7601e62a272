/**
  What becomes of one registration and of one token over a run
  (internal/node/service.go:97-158, internal/store/registration_tokens.go): a
  registration is followed from its claim to its end by what its own steps met
  and what they did to the books.
*/
module RegistrationStory {
  import opened Wrappers
  import opened Registration

  /** The token was there, the step's outside work went well; nodes made and uses given back by the step. */
  datatype Deed = Deed(found: bool, ok: bool, made: int, freed: int)

  function Used(s: State, h: Hash): nat {
    if h in s.tokens then s.tokens[h].used else 0
  }

  function DeedOf(s: State, i: nat, ok: bool): Deed
    requires Enabled(s, Proceed(i, ok))
  {
    var h, t := s.flights[i].value.hash, Step(s, Proceed(i, ok));
    Deed(h in s.tokens, ok, At(t.created, h) - At(s.created, h), Used(s, h) - Used(t, h))
  }

  ghost function Deeds(s: State, es: seq<Event>, t: State, i: nat): seq<Deed>
    requires Run(s, es, t)
    decreases |es|
  {
    if es == [] then []
    else
      var rest := Deeds(Step(s, es[0]), es[1..], t, i);
      if es[0].Proceed? && es[0].slot == i then [DeedOf(s, i, es[0].ok)] + rest else rest
  }

  predicate Idle(d: Deed) { d.made == 0 && d.freed == 0 }

  predicate Frees(d: Deed) { d.made == 0 && d.freed == if d.found then 1 else 0 }

  /** What the rest of a registration's deeds looks like from each of its steps on. */
  predicate Ending(pc: Pc, ds: seq<Deed>) {
    match pc
    case Saving => |ds| == 1 && Idle(ds[0])
    case Releasing => |ds| == 1 && Frees(ds[0])
    case Creating =>
      && |ds| == 2
      && (if ds[0].ok then ds[0].made == 1 && ds[0].freed == 0 && Idle(ds[1]) else Idle(ds[0]) && Frees(ds[1]))
    case LookingUp =>
      && |ds| >= 2 && Idle(ds[0])
      && (if ds[0].found && ds[0].ok
          then |ds| == 3 && (if ds[1].ok then ds[1].made == 1 && ds[1].freed == 0 && Idle(ds[2])
                             else Idle(ds[1]) && Frees(ds[2]))
          else |ds| == 2 && Frees(ds[1]))
  }

  /** Slot `i` is not cut by a crash and not taken by another registration. */
  predicate Follows(es: seq<Event>, i: nat) {
    forall k :: 0 <= k < |es| ==> !es[k].Crash? && !(es[k].Claim? && es[k].slot == i)
  }

  lemma FollowsTail(es: seq<Event>, i: nat)
    requires es != [] && Follows(es, i)
    ensures Follows(es[1..], i)
  {
  }

  lemma {:induction false} NothingMore(s: State, es: seq<Event>, t: State, i: nat)
    requires Run(s, es, t) && Follows(es, i) && i < |s.flights| && s.flights[i].None?
    ensures Deeds(s, es, t, i) == []
    decreases |es|
  {
    if es != [] {
      FollowsTail(es, i);
      NothingMore(Step(s, es[0]), es[1..], t, i);
    }
  }

  lemma ReleaseFrees(s: State, i: nat, ok: bool)
    requires Inv(s) && Enabled(s, Proceed(i, ok)) && s.flights[i].value.pc.Releasing?
    ensures Frees(DeedOf(s, i, ok))
  {
    var h := s.flights[i].value.hash;
    assert TokenOk(s, h);
    HolderCounts(s.flights, i, h);
  }

  predicate Continues(f: Option<Flight>, ds: seq<Deed>) {
    if f.Some? then Ending(f.value.pc, ds) else ds == []
  }

  /** What one step does to the books and where it leads. */
  predicate OwnDeed(pc: Pc, d: Deed, next: Option<Flight>) {
    match pc
    case Saving => Idle(d) && next.None?
    case Releasing => Frees(d) && next.None?
    case Creating =>
      && next.Some? && d.freed == 0
      && (if d.ok then d.made == 1 && next.value.pc.Saving? else d.made == 0 && next.value.pc.Releasing?)
    case LookingUp =>
      && next.Some? && Idle(d)
      && (if d.found && d.ok then next.value.pc.Creating? else next.value.pc.Releasing?)
  }

  lemma OwnStepDeed(s: State, i: nat, ok: bool)
    requires Inv(s) && Enabled(s, Proceed(i, ok))
    ensures OwnDeed(s.flights[i].value.pc, DeedOf(s, i, ok), Step(s, Proceed(i, ok)).flights[i])
  {
    if s.flights[i].value.pc.Releasing? { ReleaseFrees(s, i, ok); }
  }

  lemma DeedJoins(pc: Pc, d: Deed, next: Option<Flight>, rest: seq<Deed>)
    requires OwnDeed(pc, d, next) && Continues(next, rest)
    ensures Ending(pc, [d] + rest)
  {
  }

  /** Leads from one step of the registration to its next, or to its end. */
  lemma OwnStep(s: State, i: nat, ok: bool, rest: seq<Deed>)
    requires Inv(s) && Enabled(s, Proceed(i, ok)) && Continues(Step(s, Proceed(i, ok)).flights[i], rest)
    ensures Ending(s.flights[i].value.pc, [DeedOf(s, i, ok)] + rest)
  {
    OwnStepDeed(s, i, ok);
    DeedJoins(s.flights[i].value.pc, DeedOf(s, i, ok), Step(s, Proceed(i, ok)).flights[i], rest);
  }

  lemma OthersLeaveIt(s: State, e: Event, i: nat)
    requires Enabled(s, e) && i < |s.flights| && s.flights[i].Some? && !e.Crash? && !(e.Proceed? && e.slot == i)
    ensures |Step(s, e).flights| == |s.flights| && Step(s, e).flights[i] == s.flights[i]
  {
  }

  lemma SameSlots(s: State, e: Event)
    requires Enabled(s, e)
    ensures |Step(s, e).flights| == |s.flights|
  {
  }

  lemma OneStepKeepsInv(s: State, e: Event)
    requires Inv(s) && Enabled(s, e)
    ensures Inv(Step(s, e))
  {
    assert [e][1..] == [] && Run(Step(s, e), [], Step(s, e));
    RunKeeps(s, [e], Step(s, e));
  }

  lemma {:induction false} Life(s: State, es: seq<Event>, t: State, i: nat)
    requires Inv(s) && Run(s, es, t) && Follows(es, i) && i < |s.flights| && i < |t.flights| && t.flights[i].None?
    ensures Continues(s.flights[i], Deeds(s, es, t, i))
    decreases |es|
  {
    if s.flights[i].None? {
      NothingMore(s, es, t, i);
    } else {
      var u := Step(s, es[0]);
      FollowsTail(es, i);
      OneStepKeepsInv(s, es[0]);
      SameSlots(s, es[0]);
      Life(u, es[1..], t, i);
      if es[0].Proceed? && es[0].slot == i {
        OwnStep(s, i, es[0].ok, Deeds(u, es[1..], t, i));
      } else {
        OthersLeaveIt(s, es[0], i);
      }
    }
  }

  /** A claim takes one use of a token that is there, not past its expiry and not used up; otherwise it does nothing. */
  lemma ClaimTakesOneUse(s: State, i: nat, h: Hash, now: int)
    requires Enabled(s, Claim(i, h, now))
    ensures var t := Step(s, Claim(i, h, now));
            var fits := h in s.tokens && s.tokens[h].used < s.tokens[h].maxUses
                        && (s.tokens[h].expires == None || now <= s.tokens[h].expires.value);
            && (fits ==> h in t.tokens && t.tokens[h].used == s.tokens[h].used + 1)
            && (fits <==> t.flights[i].Some?) && (!fits ==> t == s)
  {
  }

  /**
    A registration from its claim to its end, whatever else happens in between
    short of a crash. It makes one node exactly if the token was still there when
    it looked, and both its steps after that went well; it keeps its use then,
    even if the node's own token could not be stored. Otherwise it makes none and
    its last step gives its use back, unless the token is gone.
  */
  lemma RegistrationEnds(k: nat, before: seq<Event>, s: State, i: nat, h: Hash, now: int, es: seq<Event>, t: State)
    requires Run(Init(k), before, s) && Enabled(s, Claim(i, h, now))
    requires Step(s, Claim(i, h, now)).flights[i].Some? && Run(Step(s, Claim(i, h, now)), es, t) && Follows(es, i)
    requires i < |t.flights| && t.flights[i].None?
    ensures var ds := Deeds(Step(s, Claim(i, h, now)), es, t, i);
            && |ds| >= 2 && Idle(ds[0])
            && (ds[0].found && ds[0].ok && ds[1].ok ==>
                  |ds| == 3 && ds[1].made == 1 && ds[1].freed == 0 && Idle(ds[2]))
            && (ds[0].found && ds[0].ok && !ds[1].ok ==> |ds| == 3 && Idle(ds[1]) && Frees(ds[2]))
            && (!ds[0].found || !ds[0].ok ==> |ds| == 2 && Frees(ds[1]))
  {
    RunInv(k, before, s);
    OneStepKeepsInv(s, Claim(i, h, now));
    Life(Step(s, Claim(i, h, now)), es, t, i);
  }

  // ---- one token ----

  predicate HasTerms(s: State, h: Hash, expires: Option<int>, maxUses: nat) {
    h in s.limits && (h in s.tokens ==> s.tokens[h].expires == expires && s.tokens[h].maxUses == maxUses)
  }

  lemma {:induction false} TermsStay(s: State, es: seq<Event>, t: State, h: Hash, expires: Option<int>, maxUses: nat)
    requires HasTerms(s, h, expires, maxUses) && Run(s, es, t)
    ensures HasTerms(t, h, expires, maxUses) && (h in t.tokens <==> h in s.tokens && DeleteToken(h) !in es)
    decreases |es|
  {
    if es != [] {
      assert es == [es[0]] + es[1..];
      TermsStay(Step(s, es[0]), es[1..], t, h, expires, maxUses);
    }
  }

  /** A token stays until it is deleted, crashes included, with the expiry and the number of uses it was made with. */
  lemma TokenKeepsItsTerms(
      s: State, h: Hash, expires: Option<int>, maxUses: nat, es: seq<Event>, t: State)
    requires Enabled(s, NewToken(h, expires, maxUses)) && Run(Step(s, NewToken(h, expires, maxUses)), es, t)
    ensures h in t.tokens <==> DeleteToken(h) !in es
    ensures h in t.tokens ==> t.tokens[h].expires == expires && t.tokens[h].maxUses == maxUses
  {
    TermsStay(Step(s, NewToken(h, expires, maxUses)), es, t, h, expires, maxUses);
  }

  /** Nodes made and registrations that may still make one. */
  function Chances(s: State, h: Hash): nat {
    At(s.created, h) + InFlight(s.flights, h)
  }

  lemma ProceedAddsNoChance(s: State, i: nat, ok: bool, h: Hash)
    requires Enabled(s, Proceed(i, ok))
    ensures Chances(Step(s, Proceed(i, ok)), h) <= Chances(s, h)
  {
    if s.flights[i].value.pc.Releasing? {
      InFlightUpdate(s.flights, i, None, h);
    } else {
      ProceedMoves(s, i, ok, h);
      InFlightUpdate(s.flights, i, Step(s, Proceed(i, ok)).flights[i], h);
    }
  }

  lemma ClaimAddsNoChance(s: State, i: nat, g: Hash, now: int, h: Hash)
    requires Enabled(s, Claim(i, g, now)) && h !in s.tokens
    ensures Chances(Step(s, Claim(i, g, now)), h) <= Chances(s, h)
  {
    InFlightUpdate(s.flights, i, Some(Flight(g, LookingUp)), h);
  }

  lemma NoChanceAdded(s: State, e: Event, h: Hash)
    requires Enabled(s, e) && h !in s.tokens
    ensures Chances(Step(s, e), h) <= Chances(s, h)
  {
    match e {
      case Claim(i, g, now) => ClaimAddsNoChance(s, i, g, now, h);
      case Proceed(i, ok) => ProceedAddsNoChance(s, i, ok, h);
      case Crash => NothingInFlight(Step(s, Crash).flights, h);
      case _ =>
    }
  }

  lemma StaysDeleted(s: State, e: Event, h: Hash)
    requires Enabled(s, e) && h !in s.tokens && h in s.limits
    ensures h !in Step(s, e).tokens && h in Step(s, e).limits
  {
  }

  lemma {:induction false} NoneJoins(s: State, es: seq<Event>, t: State, h: Hash)
    requires Run(s, es, t) && h !in s.tokens && h in s.limits
    ensures Chances(t, h) <= Chances(s, h)
    decreases |es|
  {
    if es != [] {
      NoChanceAdded(s, es[0], h);
      StaysDeleted(s, es[0], h);
      NoneJoins(Step(s, es[0]), es[1..], t, h);
    }
  }

  /** Deleting a token ends it: at most the registrations already in flight still make a node, on any run after. */
  lemma DeletedAdmitsNoMore(k: nat, before: seq<Event>, s: State, h: Hash, es: seq<Event>, t: State)
    requires Run(Init(k), before, s) && Enabled(s, DeleteToken(h)) && Run(Step(s, DeleteToken(h)), es, t)
    ensures At(t.created, h) <= At(s.created, h) + InFlight(s.flights, h)
  {
    RunInv(k, before, s);
    assert TokenOk(s, h);
    NoneJoins(Step(s, DeleteToken(h)), es, t, h);
  }
}
