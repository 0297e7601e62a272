/**
  Registration tokens (internal/store/registration_tokens.go) and concurrent
  agent registrations that claim and release their uses
  (internal/node/service.go:97-158).

  A token is known by its hash; hashes of distinct random tokens are distinct.
*/
module Registration {
  import opened Wrappers

  type Hash = nat

  datatype Token = Token(expires: Option<int>, maxUses: nat, used: nat)

  datatype ClaimError = Invalid | Expired | Exhausted

  predicate Live(t: Token, now: int) {
    t.expires.None? || t.expires.value >= now
  }

  predicate CanClaim(tokens: map<Hash, Token>, h: Hash, now: int) {
    h in tokens && tokens[h].used < tokens[h].maxUses && Live(tokens[h], now)
  }

  function Claimed(tokens: map<Hash, Token>, h: Hash): map<Hash, Token>
    requires h in tokens
  {
    tokens[h := tokens[h].(used := tokens[h].used + 1)]
  }

  /** `max(used_count - 1, 0)`, on no row at all if the token is gone. */
  function Released(tokens: map<Hash, Token>, h: Hash): map<Hash, Token> {
    if h in tokens
    then tokens[h := tokens[h].(used := if tokens[h].used > 0 then tokens[h].used - 1 else 0)]
    else tokens
  }

  class TokenTable {
    var tokens: map<Hash, Token>

    constructor ()
      ensures tokens == map[]
    {
      tokens := map[];
    }

    /** Fewer than one use means one. */
    method CreateToken(h: Hash, expires: Option<int>, maxUses: int)
      modifies this
      ensures tokens == old(tokens)[h := Token(expires, if maxUses <= 0 then 1 else maxUses, 0)]
    {
      var uses := maxUses;
      if uses <= 0 {
        uses := 1;
      }
      tokens := tokens[h := Token(expires, uses, 0)];
    }

    method ClaimRegistrationToken(h: Hash, now: int) returns (r: Result<(), ClaimError>)
      modifies this
      ensures r.Ok? <==> CanClaim(old(tokens), h, now)
      ensures r.Ok? ==> h in old(tokens) && tokens == Claimed(old(tokens), h)
      ensures r.Err? ==> tokens == old(tokens)
      ensures r == Err(Invalid) <==> h !in old(tokens)
      ensures r == Err(Expired) <==> h in old(tokens) && !Live(old(tokens)[h], now)
      ensures r == Err(Exhausted) <==>
                h in old(tokens) && Live(old(tokens)[h], now) && old(tokens)[h].used >= old(tokens)[h].maxUses
    {
      var hit := h in tokens && tokens[h].used < tokens[h].maxUses && (tokens[h].expires.None? || tokens[h].expires.value >= now);
      if hit {
        tokens := tokens[h := tokens[h].(used := tokens[h].used + 1)];
        return Ok(());
      }
      if h !in tokens {
        return Err(Invalid);
      }
      if tokens[h].expires.Some? && tokens[h].expires.value < now {
        return Err(Expired);
      }
      r := Err(Exhausted);
    }

    method ReleaseRegistrationToken(h: Hash)
      modifies this
      ensures tokens == Released(old(tokens), h)
      ensures h in old(tokens) ==>
                var t := old(tokens)[h];
                tokens == old(tokens)[h := t.(used := if t.used == 0 then 0 else t.used - 1)]
      ensures h !in old(tokens) ==> tokens == old(tokens)
    {
      if h in tokens {
        var used := tokens[h].used;
        tokens := tokens[h := tokens[h].(used := if used > 0 then used - 1 else 0)];
      }
    }

    method DeleteRegistrationToken(h: Hash)
      modifies this
      ensures tokens == old(tokens) - {h}
    {
      tokens := tokens - {h};
    }
  }

  // ---- concurrent registrations ----

  /** Where Register stands after a successful claim. */
  datatype Pc =
    | LookingUp       // before GetRegistrationTokenByHash
    | Creating        // before CreateNode
    | Releasing       // a step failed, the use is to be given back
    | Saving          // node created, saveEncryptedToken still to come

  datatype Flight = Flight(hash: Hash, pc: Pc)

  /**
    `created` and `lost` count, per token, the nodes registered and the
    registrations a crash cut off before they created a node or released;
    `limits` remembers the uses of every token ever made.
  */
  datatype State = State(
    tokens: map<Hash, Token>,
    flights: seq<Option<Flight>>,
    created: map<Hash, nat>,
    lost: map<Hash, nat>,
    limits: map<Hash, nat>)

  datatype Event =
    | NewToken(h: Hash, expires: Option<int>, maxUses: nat)
    | DeleteToken(h: Hash)
    | Claim(slot: nat, h: Hash, now: int)
    | Proceed(slot: nat, ok: bool)
    | Crash

  function Init(k: nat): State {
    State(map[], seq(k, _ => None), map[], map[], map[])
  }

  function At(m: map<Hash, nat>, h: Hash): nat {
    if h in m then m[h] else 0
  }

  /** Registrations that hold a use of the token without having turned it into a node. */
  function Holds(f: Option<Flight>, h: Hash): nat {
    if f.Some? && f.value.hash == h && !f.value.pc.Saving? then 1 else 0
  }

  function InFlight(fs: seq<Option<Flight>>, h: Hash): nat {
    if fs == [] then 0 else Holds(fs[0], h) + InFlight(fs[1..], h)
  }

  predicate Enabled(s: State, e: Event) {
    match e
    case NewToken(h, _, maxUses) => h !in s.limits && maxUses > 0
    case DeleteToken(h) => h in s.tokens
    case Claim(i, h, now) => i < |s.flights| && s.flights[i].None?
    case Proceed(i, _) => i < |s.flights| && s.flights[i].Some?
    case Crash => true
  }

  function Put(s: State, i: nat, f: Option<Flight>): State
    requires i < |s.flights|
  {
    s.(flights := s.flights[i := f])
  }

  function Step(s: State, e: Event): State
    requires Enabled(s, e)
  {
    match e
    case NewToken(h, expires, maxUses) =>
      s.(tokens := s.tokens[h := Token(expires, maxUses, 0)], limits := s.limits[h := maxUses])
    case DeleteToken(h) => s.(tokens := s.tokens - {h})
    case Claim(i, h, now) =>
      if CanClaim(s.tokens, h, now)
      then Put(s.(tokens := Claimed(s.tokens, h)), i, Some(Flight(h, LookingUp)))
      else s
    case Proceed(i, ok) =>
      var f := s.flights[i].value;
      (match f.pc
       case LookingUp =>
         // the token may be gone by now; making the node token may fail
         Put(s, i, Some(f.(pc := if f.hash in s.tokens && ok then Creating else Releasing)))
       case Creating =>
         if ok
         then Put(s.(created := s.created[f.hash := At(s.created, f.hash) + 1]), i, Some(f.(pc := Saving)))
         else Put(s, i, Some(f.(pc := Releasing)))
       case Releasing => Put(s.(tokens := Released(s.tokens, f.hash)), i, None)
       case Saving => Put(s, i, None))
    case Crash =>
      s.(flights := seq(|s.flights|, _ => None),
         lost := map h | h in s.limits :: At(s.lost, h) + InFlight(s.flights, h))
  }

  ghost predicate Run(s: State, es: seq<Event>, t: State)
    decreases |es|
  {
    if es == [] then s == t
    else Enabled(s, es[0]) && Run(Step(s, es[0]), es[1..], t)
  }

  /** The uses a token's registrations account for. */
  function Accounted(s: State, h: Hash): nat {
    At(s.created, h) + InFlight(s.flights, h) + At(s.lost, h)
  }

  predicate TokenOk(s: State, h: Hash) {
    && (h !in s.limits ==> h !in s.tokens && Accounted(s, h) == 0)
    && (h in s.limits ==> Accounted(s, h) <= s.limits[h])
    && (h in s.tokens ==> h in s.limits && s.tokens[h].maxUses == s.limits[h] && s.tokens[h].used == Accounted(s, h))
  }

  ghost predicate Inv(s: State) {
    forall h: Hash :: TokenOk(s, h)
  }

  lemma {:induction false} InFlightUpdate(fs: seq<Option<Flight>>, i: nat, f: Option<Flight>, h: Hash)
    requires i < |fs|
    ensures InFlight(fs[i := f], h) == InFlight(fs, h) - Holds(fs[i], h) + Holds(f, h)
  {
    if i == 0 {
      assert fs[i := f][1..] == fs[1..];
    } else {
      assert fs[i := f][1..] == fs[1..][i - 1 := f];
      InFlightUpdate(fs[1..], i - 1, f, h);
    }
  }

  lemma {:induction false} NothingInFlight(fs: seq<Option<Flight>>, h: Hash)
    requires forall i :: 0 <= i < |fs| ==> fs[i].None?
    ensures InFlight(fs, h) == 0
  {
    if fs != [] { NothingInFlight(fs[1..], h); }
  }

  lemma {:induction false} HolderCounts(fs: seq<Option<Flight>>, i: nat, h: Hash)
    requires i < |fs| && Holds(fs[i], h) == 1
    ensures InFlight(fs, h) >= 1
  {
    if i > 0 { HolderCounts(fs[1..], i - 1, h); }
  }

  /** Moving a flight on keeps a token's books if what it holds becomes a node, or is held on. */
  lemma MoveKeepsToken(s: State, t: State, i: nat, h: Hash)
    requires Moves(s, t, i, h) && TokenOk(s, h)
    ensures TokenOk(t, h)
  {
    InFlightUpdate(s.flights, i, t.flights[i], h);
  }

  lemma ReleaseKeepsToken(s: State, i: nat, h: Hash)
    requires i < |s.flights| && s.flights[i].Some? && s.flights[i].value.pc.Releasing? && TokenOk(s, h)
    ensures TokenOk(Put(s.(tokens := Released(s.tokens, s.flights[i].value.hash)), i, None), h)
  {
    InFlightUpdate(s.flights, i, None, h);
    if s.flights[i].value.hash == h { HolderCounts(s.flights, i, h); }
  }

  predicate Moves(s: State, t: State, i: nat, h: Hash) {
    && i < |s.flights| && |t.flights| == |s.flights| && t.flights == s.flights[i := t.flights[i]]
    && t.tokens == s.tokens && t.lost == s.lost && t.limits == s.limits
    && At(t.created, h) + Holds(t.flights[i], h) == At(s.created, h) + Holds(s.flights[i], h)
  }

  lemma ProceedMoves(s: State, i: nat, ok: bool, h: Hash)
    requires Enabled(s, Proceed(i, ok)) && !s.flights[i].value.pc.Releasing?
    ensures Moves(s, Step(s, Proceed(i, ok)), i, h)
  {
  }

  lemma ProceedKeepsToken(s: State, i: nat, ok: bool, h: Hash)
    requires Enabled(s, Proceed(i, ok)) && TokenOk(s, h)
    ensures TokenOk(Step(s, Proceed(i, ok)), h)
  {
    if s.flights[i].value.pc.Releasing? {
      ReleaseKeepsToken(s, i, h);
    } else {
      ProceedMoves(s, i, ok, h);
      MoveKeepsToken(s, Step(s, Proceed(i, ok)), i, h);
    }
  }

  lemma ClaimKeepsToken(s: State, i: nat, g: Hash, now: int, h: Hash)
    requires Enabled(s, Claim(i, g, now)) && TokenOk(s, h)
    ensures TokenOk(Step(s, Claim(i, g, now)), h)
  {
    InFlightUpdate(s.flights, i, Some(Flight(g, LookingUp)), h);
  }

  lemma CrashKeepsToken(s: State, h: Hash)
    requires TokenOk(s, h)
    ensures TokenOk(Step(s, Crash), h)
  {
    NothingInFlight(Step(s, Crash).flights, h);
  }

  lemma StepKeepsToken(s: State, e: Event, h: Hash)
    requires Enabled(s, e) && TokenOk(s, h)
    ensures TokenOk(Step(s, e), h)
  {
    match e {
      case Claim(i, g, now) => ClaimKeepsToken(s, i, g, now, h);
      case Proceed(i, ok) => ProceedKeepsToken(s, i, ok, h);
      case Crash => CrashKeepsToken(s, h);
      case _ =>
    }
  }

  lemma {:induction false} RunKeeps(s: State, es: seq<Event>, t: State)
    requires Inv(s) && Run(s, es, t)
    ensures Inv(t)
    decreases |es|
  {
    if es != [] {
      forall h: Hash ensures TokenOk(Step(s, es[0]), h) {
        assert TokenOk(s, h);
        StepKeepsToken(s, es[0], h);
      }
      RunKeeps(Step(s, es[0]), es[1..], t);
    }
  }

  lemma RunInv(k: nat, es: seq<Event>, t: State)
    requires Run(Init(k), es, t)
    ensures Inv(t)
  {
    forall h: Hash ensures TokenOk(Init(k), h) {
      NothingInFlight(Init(k).flights, h);
    }
    RunKeeps(Init(k), es, t);
  }

  /**
    Conservation: in every interleaving, with crashes anywhere, a token's
    used_count is the nodes created, the registrations in flight and those lost
    to crashes, and never exceeds max_uses.
  */
  lemma UsesAreConserved(k: nat, es: seq<Event>, t: State, h: Hash)
    requires Run(Init(k), es, t) && h in t.tokens
    ensures t.tokens[h].used == At(t.created, h) + InFlight(t.flights, h) + At(t.lost, h)
    ensures t.tokens[h].used <= t.tokens[h].maxUses
  {
    RunInv(k, es, t);
    assert TokenOk(t, h);
  }

  predicate NoCrash(es: seq<Event>) {
    forall i :: 0 <= i < |es| ==> !es[i].Crash?
  }

  lemma {:induction false} NothingLost(s: State, es: seq<Event>, t: State)
    requires s.lost == map[] && NoCrash(es) && Run(s, es, t)
    ensures t.lost == map[]
    decreases |es|
  {
    if es != [] {
      assert forall i :: 0 <= i < |es[1..]| ==> es[1..][i] == es[i + 1];
      NothingLost(Step(s, es[0]), es[1..], t);
    }
  }

  /** Without a crash nothing is lost: used_count is exactly nodes created plus registrations in flight. */
  lemma UsesWithoutCrash(k: nat, es: seq<Event>, t: State, h: Hash)
    requires NoCrash(es) && Run(Init(k), es, t) && h in t.tokens
    ensures t.tokens[h].used == At(t.created, h) + InFlight(t.flights, h)
  {
    UsesAreConserved(k, es, t, h);
    NothingLost(Init(k), es, t);
  }

  /** No token, not even one deleted while registrations were in flight, admits more nodes than its uses. */
  lemma NeverMoreNodesThanUses(k: nat, es: seq<Event>, t: State, h: Hash)
    requires Run(Init(k), es, t) && h in t.limits
    ensures At(t.created, h) <= t.limits[h]
  {
    RunInv(k, es, t);
    assert TokenOk(t, h);
  }

  /** The clamp at 0 in the release is never what decides. */
  lemma ReleaseIsExact(k: nat, es: seq<Event>, t: State, i: nat)
    requires Run(Init(k), es, t) && i < |t.flights| && t.flights[i].Some? && t.flights[i].value.pc.Releasing?
    requires t.flights[i].value.hash in t.tokens
    ensures var h := t.flights[i].value.hash;
            h in Released(t.tokens, h) && Released(t.tokens, h)[h].used == t.tokens[h].used - 1
  {
    var h := t.flights[i].value.hash;
    RunInv(k, es, t);
    assert TokenOk(t, h);
    HolderCounts(t.flights, i, h);
  }
}
