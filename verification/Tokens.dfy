/** How long tokens outlive the verification of their route, over runs in which requests take time. */
module Tokens {
  import opened Common
  import opened Models
  import opened Schema
  import opened Registration
  import opened Runs
  import opened History
  import opened Invariants
  import opened Endpoints

  /** A request whose route passed the gate at instant `at`, and which has not been answered yet. */
  datatype Gate = Gate(route: Id, at: Time)

  datatype Token = Token(gate: Gate, claims: Claims)

  datatype World = World(store: Store, now: Time, gates: map<nat, Gate>, issued: seq<Token>)

  /** Rotations and registrations pass the gate in one event and are answered with a token in a later one. */
  datatype Event =
    | Commit(step: Step, at: Time)
    | Rotate(request: nat, presentable: bool, sub: Id, at: Time)
    | Enter(request: nat, req: Request, text: Option<string>, draw: Draw, at: Time)
    | Issue(request: nat, at: Time)

  ghost function Next(cfg: Config, configured: int, w: World, e: Event): World {
    match e
    case Commit(step, at) => w.(store := Apply(cfg, w.store, step), now := at)
    case Rotate(request, presentable, sub, at) =>
      if MayRotate(w.store, presentable, sub) then w.(now := at, gates := w.gates[request := Gate(sub, at)])
      else w.(now := at)
    case Enter(request, req, text, draw, at) =>
      var id := EndpointResult(cfg, w.store, req, text, draw);
      var s' := Apply(cfg, w.store, Register(req, text, draw));
      if id.Ok? then w.(store := s', now := at, gates := w.gates[request := Gate(id.value, at)])
      else w.(store := s', now := at)
    case Issue(request, at) =>
      if request !in w.gates then w.(now := at)
      else
        var gate := w.gates[request];
        World(w.store, at, w.gates - {request}, w.issued + [Token(gate, PikoClaims(gate.route, at, None, configured))])
  }

  ghost function Play(cfg: Config, configured: int, w: World, events: seq<Event>): World
    decreases |events|
  {
    if events == [] then w
    else
      var n := |events| - 1;
      Next(cfg, configured, Play(cfg, configured, w, events[..n]), events[n])
  }

  predicate IsVerified(s: Store, r: Id) {
    r in s.routes && s.routes[r].verification == Verified
  }

  /** At some moment of the run whose clock read `at`, the route was VERIFIED. */
  ghost predicate WasVerified(cfg: Config, configured: int, w: World, events: seq<Event>, r: Id, at: Time) {
    exists i :: 0 <= i <= |events| && VerifiedAt(cfg, configured, w, events, i, r, at)
  }

  ghost predicate VerifiedAt(cfg: Config, configured: int, w: World, events: seq<Event>, i: nat, r: Id, at: Time)
    requires i <= |events|
  {
    var world := Play(cfg, configured, w, events[..i]);
    world.now == at && IsVerified(world.store, r)
  }

  /** A rotation whose token passes its checks, for a VERIFIED route, or a registration that answers with the route. */
  ghost predicate Opens(cfg: Config, s: Store, e: Event, r: Id) {
    match e
    case Rotate(_, presentable, sub, _) => presentable && sub == r && IsVerified(s, r)
    case Enter(_, req, text, draw, _) => EndpointResult(cfg, s, req, text, draw) == Ok(r)
    case _ => false
  }


  /** Event `i` of the run opened the gate. */
  ghost predicate OpenedBy(cfg: Config, configured: int, w: World, events: seq<Event>, i: nat, gate: Gate)
    requires i < |events|
  {
    var before := Play(cfg, configured, w, events[..i]).store;
    && events[i].at == gate.at
    && Opens(cfg, before, events[i], gate.route)
  }

  ghost predicate Opened(cfg: Config, configured: int, w: World, events: seq<Event>, gate: Gate) {
    && WasVerified(cfg, configured, w, events, gate.route, gate.at)
    && exists i :: 0 <= i < |events| && OpenedBy(cfg, configured, w, events, i, gate)
  }

  /** The clock never runs backwards. */
  ghost predicate Monotone(w: World, events: seq<Event>) {
    && (forall i :: 0 <= i < |events| ==> w.now <= events[i].at)
    && (forall i, j :: 0 <= i < j < |events| ==> events[i].at <= events[j].at)
  }

  /** A registration that answers with a route leaves it stored and VERIFIED. */
  lemma RegisteredIsVerified(cfg: Config, s: Store, req: Request, text: Option<string>, draw: Draw)
    requires EndpointResult(cfg, s, req, text, draw).Ok?
    ensures IsVerified(EndpointRegistered(cfg, s, req, text, draw), EndpointResult(cfg, s, req, text, draw).value)
  {
    var r := EndpointResult(cfg, s, req, text, draw).value;
    if r in s.routes {
      RegisterOnRoute(cfg, s, req, text, draw, r);
    } else {
      AnsweredIsStored(cfg, s, req, text, draw);
      NewRouteRowIs(cfg, s, req, text, draw, r);
    }
  }

  lemma AnsweredIsStored(cfg: Config, s: Store, req: Request, text: Option<string>, draw: Draw)
    requires EndpointResult(cfg, s, req, text, draw).Ok?
    ensures EndpointResult(cfg, s, req, text, draw).value in EndpointRegistered(cfg, s, req, text, draw).routes
  {
    var own := OwnCommunity(s, cfg.isUuid, req.uid, text).value;
    DecidedPlan(s, cfg.bindSubdomain, req, own, cfg.tunnelUrl, draw);
    CompletedIsStored(s, Decide(s, cfg.bindSubdomain, req, own, cfg.tunnelUrl, draw).value);
  }

  lemma CompletedIsStored(s: Store, plan: Plan)
    requires CompleteResult(s, plan).Ok?
    requires plan.Create? ==> plan.row.domain in s.domains
    requires plan.Create? ==> plan.row.owners <= s.Entities()
    requires plan.Create? && plan.row.community.Some? ==> plan.row.community.value in s.communities
    ensures CompleteResult(s, plan).value in Complete(s, plan).routes
  {
  }

  lemma {:induction false} PlayKeepsValid(cfg: Config, configured: int, w: World, events: seq<Event>)
    requires w.store.Valid()
    ensures Play(cfg, configured, w, events).store.Valid()
    decreases |events|
  {
    if events != [] {
      var n := |events| - 1;
      PlayKeepsValid(cfg, configured, w, events[..n]);
      NextKeepsValid(cfg, configured, Play(cfg, configured, w, events[..n]), events[n]);
    }
  }

  lemma NextKeepsValid(cfg: Config, configured: int, w: World, e: Event)
    requires w.store.Valid()
    ensures Next(cfg, configured, w, e).store.Valid()
  {
    match e
    case Commit(step, at) => ApplyKeepsValid(cfg, w.store, step);
    case Enter(request, req, text, draw, at) => RegisterKeepsValid(cfg, w.store, req, text, draw);
    case _ =>
  }

  lemma WasVerifiedStays(cfg: Config, configured: int, w: World, events: seq<Event>, r: Id, at: Time)
    requires events != [] && WasVerified(cfg, configured, w, events[..|events| - 1], r, at)
    ensures WasVerified(cfg, configured, w, events, r, at)
  {
    var init := events[..|events| - 1];
    var i :| 0 <= i <= |init| && VerifiedAt(cfg, configured, w, init, i, r, at);
    assert init[..i] == events[..i];
    assert VerifiedAt(cfg, configured, w, events, i, r, at);
  }

  lemma OpenedStays(cfg: Config, configured: int, w: World, events: seq<Event>, gate: Gate)
    requires events != [] && Opened(cfg, configured, w, events[..|events| - 1], gate)
    ensures Opened(cfg, configured, w, events, gate)
  {
    var init := events[..|events| - 1];
    WasVerifiedStays(cfg, configured, w, events, gate.route, gate.at);
    var i :| 0 <= i < |init| && OpenedBy(cfg, configured, w, init, i, gate);
    assert init[..i] == events[..i] && init[i] == events[i];
    assert OpenedBy(cfg, configured, w, events, i, gate);
  }

  lemma VerifiedNow(cfg: Config, configured: int, w: World, events: seq<Event>, r: Id)
    requires IsVerified(Play(cfg, configured, w, events).store, r)
    ensures WasVerified(cfg, configured, w, events, r, Play(cfg, configured, w, events).now)
  {
    assert events[..|events|] == events;
    assert VerifiedAt(cfg, configured, w, events, |events|, r, Play(cfg, configured, w, events).now);
  }

  /** An event opens at most the gate of its own request, for a route VERIFIED then, and issues only at an open gate. */
  lemma NextGates(cfg: Config, configured: int, w: World, e: Event)
    requires w.store.Valid()
    ensures
      var w' := Next(cfg, configured, w, e);
      && w'.now == e.at
      && (forall q :: q in w'.gates ==>
            || (q in w.gates && w'.gates[q] == w.gates[q])
            || (w'.gates[q].at == e.at && IsVerified(w'.store, w'.gates[q].route)
                && Opens(cfg, w.store, e, w'.gates[q].route)))
      && (forall t | t in w'.issued && t !in w.issued ::
            exists q :: q in w.gates && t == Token(w.gates[q], PikoClaims(w.gates[q].route, e.at, None, configured)))
  {
    if e.Enter? && EndpointResult(cfg, w.store, e.req, e.text, e.draw).Ok? {
      RegisteredIsVerified(cfg, w.store, e.req, e.text, e.draw);
    }
  }

  /** The token's gate was opened while its route was VERIFIED, and it expires one lifespan after it was made. */
  ghost predicate WellIssued(cfg: Config, configured: int, w: World, events: seq<Event>, t: Token) {
    && Opened(cfg, configured, w, events, t.gate)
    && t.claims.sub == t.gate.route
    && t.gate.at <= t.claims.iat
    && t.claims.exp == t.claims.iat + configured * SECOND
  }

  /**
   Over every run: each token goes back to a rotation with a token that passed its checks, or to a registration that was
   accepted, and stands for a route that was VERIFIED then. It expires
   exactly the configured lifespan after it was made, whatever leeway rotation allows the presented token.
   */
  lemma {:induction false} EveryTokenWasEarned(cfg: Config, configured: int, w: World, events: seq<Event>)
    requires w.store.Valid() && w.gates == map[] && w.issued == [] && Monotone(w, events)
    ensures
      var end := Play(cfg, configured, w, events);
      && (forall q :: q in end.gates ==>
            Opened(cfg, configured, w, events, end.gates[q]) && end.gates[q].at <= end.now)
      && (forall t :: t in end.issued ==> WellIssued(cfg, configured, w, events, t))
      && end.now == if events == [] then w.now else events[|events| - 1].at
    decreases |events|
  {
    if events != [] {
      var n := |events| - 1;
      var init := events[..n];
      assert Monotone(w, init) by {
        assert forall i :: 0 <= i < n ==> init[i] == events[i];
      }
      EveryTokenWasEarned(cfg, configured, w, init);
      PlayKeepsValid(cfg, configured, w, init);
      var before := Play(cfg, configured, w, init);
      var end := Play(cfg, configured, w, events);
      NextGates(cfg, configured, before, events[n]);
      assert before.now <= events[n].at;
      forall q | q in end.gates
        ensures Opened(cfg, configured, w, events, end.gates[q])
        ensures end.gates[q].at <= end.now
      {
        if q in before.gates && end.gates[q] == before.gates[q] {
          OpenedStays(cfg, configured, w, events, end.gates[q]);
        } else {
          VerifiedNow(cfg, configured, w, events, end.gates[q].route);
          assert OpenedBy(cfg, configured, w, events, n, end.gates[q]);
        }
      }
      forall t | t in end.issued
        ensures WellIssued(cfg, configured, w, events, t)
      {
        OpenedStays(cfg, configured, w, events, t.gate);
      }
    }
  }

  /** From instant `from` on, the route is not VERIFIED at any moment of the run. */
  ghost predicate UnverifiedFrom(cfg: Config, configured: int, w: World, events: seq<Event>, r: Id, from: Time) {
    forall i, at :: 0 <= i <= |events| && at >= from ==> !VerifiedAt(cfg, configured, w, events, i, r, at)
  }

  /**
   If a route stays unverified from some instant on, every token ever issued for it expires before that instant plus
   the lifespan plus the time its own request took between the gate and the token.
   */
  lemma TokensRunOut(cfg: Config, configured: int, w: World, events: seq<Event>, r: Id, from: Time)
    requires w.store.Valid() && w.gates == map[] && w.issued == [] && Monotone(w, events)
    requires UnverifiedFrom(cfg, configured, w, events, r, from)
    ensures forall t :: t in Play(cfg, configured, w, events).issued && t.claims.sub == r ==>
      t.claims.exp < from + (t.claims.iat - t.gate.at) + configured * SECOND
  {
    EveryTokenWasEarned(cfg, configured, w, events);
    forall t | t in Play(cfg, configured, w, events).issued && t.claims.sub == r
      ensures t.gate.at < from
    {
      assert WellIssued(cfg, configured, w, events, t);
    }
  }

  /** No request took longer than `delay` from its gate to its token. */
  ghost predicate Prompt(end: World, delay: int) {
    forall t :: t in end.issued ==> t.claims.iat - t.gate.at <= delay
  }

  /** If the route is unverified from `from` on and requests are prompt, its tokens end one lifespan after `from`. */
  ghost predicate LifespanBounds(cfg: Config, configured: int, w: World, events: seq<Event>, r: Id, from: Time,
      delay: int)
  {
    var end := Play(cfg, configured, w, events);
    Monotone(w, events) && UnverifiedFrom(cfg, configured, w, events, r, from) && Prompt(end, delay) ==>
      forall t :: t in end.issued && t.claims.sub == r ==> t.claims.exp < from + configured * SECOND
  }

  /**
   The lifespan alone bounds the tokens of an unverified route exactly if requests take no time: with `delay` allowed,
   a rotation that passes the gate just before its route is unverified gets a token that outlives it by that much more.
   */
  lemma LifespanBoundsExactly(cfg: Config, configured: int, w: World, r: Id, delay: nat)
    requires w.store.Valid() && w.gates == map[] && w.issued == [] && IsVerified(w.store, r)
    ensures (forall events, from :: LifespanBounds(cfg, configured, w, events, r, from, delay)) <==> delay == 0
  {
    if delay == 0 {
      forall events, from
        ensures LifespanBounds(cfg, configured, w, events, r, from, delay)
      {
        if Monotone(w, events) && UnverifiedFrom(cfg, configured, w, events, r, from) {
          TokensRunOut(cfg, configured, w, events, r, from);
        }
      }
    } else {
      SlowRotationOutlives(cfg, configured, w, r, delay);
      assert !LifespanBounds(cfg, configured, w, SlowRotation(w, r, delay), r, w.now + 1, delay);
    }
  }

  function SlowRotation(w: World, r: Id, delay: nat): seq<Event> {
    [Rotate(0, true, r, w.now), Commit(UnverifyOne(r), w.now), Issue(0, w.now + delay)]
  }

  /** The run in which a rotation passes the gate, its route is unverified, and the token is made `delay` later. */
  lemma SlowRotationOutlives(cfg: Config, configured: int, w: World, r: Id, delay: nat)
    requires w.store.Valid() && w.gates == map[] && w.issued == [] && IsVerified(w.store, r)
    ensures
      var events := SlowRotation(w, r, delay);
      var end := Play(cfg, configured, w, events);
      && Monotone(w, events) && Prompt(end, delay)
      && UnverifiedFrom(cfg, configured, w, events, r, w.now + 1)
      && |end.issued| == 1 && end.issued[0].claims.sub == r
      && end.issued[0].claims.exp == w.now + delay + configured * SECOND
  {
    var events := SlowRotation(w, r, delay);
    assert events[..0] == [];
    assert events[..1] == [] + [events[0]];
    assert events[..2] == events[..1] + [events[1]];
    assert events[..3] == events == events[..2] + [events[2]];
    PlayLast(cfg, configured, w, [], events[0]);
    PlayLast(cfg, configured, w, events[..1], events[1]);
    PlayLast(cfg, configured, w, events[..2], events[2]);
    forall i, at | 0 <= i <= |events| && at >= w.now + 1
      ensures !VerifiedAt(cfg, configured, w, events, i, r, at)
    {
      assert i == 0 || i == 1 || i == 2 || i == 3;
    }
  }

  lemma PlayLast(cfg: Config, configured: int, w: World, init: seq<Event>, last: Event)
    ensures Play(cfg, configured, w, init + [last]) == Next(cfg, configured, Play(cfg, configured, w, init), last)
  {
    assert (init + [last])[..|init|] == init;
  }
}
