/**
 Registrations that overlap: each reads the store in one step and commits in a later one, with any other
 registrations and any other workflows in between.
 */
module Interleaving {
  import opened Common
  import opened Models
  import opened Schema
  import opened Repository
  import opened Cells
  import opened Registration
  import opened Communities
  import opened Runs
  import opened History
  import opened Invariants

  /** A registration between its read and its commit. */
  datatype Open = Open(caller: Id, plan: Plan)

  datatype Machine = Machine(store: Store, pending: map<nat, Open>)

  datatype Event =
    | Read(txn: nat, req: Request, community: Option<Id>, draw: Draw)
    | Commit(txn: nat)
    | Atomic(step: Step)

  ghost function Next(cfg: Config, m: Machine, e: Event): Machine {
    match e
    case Read(txn, req, community, draw) =>
      var plan := Decide(m.store, cfg.bindSubdomain, req, community, cfg.tunnelUrl, draw);
      if plan.Err? || txn in m.pending then m
      else m.(pending := m.pending[txn := Open(Holder(Uids(m.store.users), req.uid).value, plan.value)])
    case Commit(txn) =>
      if txn !in m.pending then m
      else Machine(Complete(m.store, m.pending[txn].plan), m.pending - {txn})
    case Atomic(step) => m.(store := Apply(cfg, m.store, step))
  }

  ghost function Play(cfg: Config, m: Machine, events: seq<Event>): Machine
    decreases |events|
  {
    if events == [] then m
    else
      var n := |events| - 1;
      Next(cfg, Play(cfg, m, events[..n]), events[n])
  }

  /** What a plan was decided on still holds: the caller owns the route to rebind, the domain takes new routes. */
  ghost predicate Sound(s: Store, o: Open) {
    match o.plan
    case Rebind(r, _, _, _) => r in s.routes && o.caller in s.routes[r].owners
    case Create(_, row) => row.domain in s.domains && !s.domains[row.domain].restricted && row.owners == {o.caller}
  }

  ghost predicate Ready(m: Machine) {
    m.store.Valid() && forall t :: t in m.pending ==> Sound(m.store, m.pending[t])
  }

  lemma SoundStays(s: Store, s': Store, o: Open)
    requires Sound(s, o) && Grows(s, s')
    ensures Sound(s', o)
  {
    if o.plan.Rebind? {
      assert SameIdentity(s.routes[o.plan.route], s'.routes[o.plan.route]);
    }
  }

  lemma NextGrows(cfg: Config, m: Machine, e: Event)
    requires Ready(m)
    ensures Next(cfg, m, e).store.Valid() && Grows(m.store, Next(cfg, m, e).store)
  {
    match e
    case Read(txn, req, community, draw) =>
    case Commit(txn) =>
      if txn in m.pending {
        CompleteKeepsValid(m.store, m.pending[txn].plan);
        CompleteGrows(m.store, m.pending[txn].plan);
      }
    case Atomic(step) =>
      ApplyKeepsValid(cfg, m.store, step);
      ApplyGrows(cfg, m.store, step);
  }

  lemma NextKeepsReady(cfg: Config, m: Machine, e: Event)
    requires Ready(m)
    ensures Ready(Next(cfg, m, e)) && Grows(m.store, Next(cfg, m, e).store)
  {
    NextGrows(cfg, m, e);
    var m' := Next(cfg, m, e);
    forall t | t in m.pending
      ensures Sound(m'.store, m.pending[t])
    {
      SoundStays(m.store, m'.store, m.pending[t]);
    }
    if e.Read? {
      DecidedPlan(m.store, cfg.bindSubdomain, e.req, e.community, cfg.tunnelUrl, e.draw);
    }
  }

  /**
   Whatever the interleaving, URLs stay unique, every pending rebind is still that of an owner when it commits, and
   routes keep their id, URL, target, domain and owners.
   */
  lemma {:induction false} EveryInterleaving(cfg: Config, m: Machine, events: seq<Event>)
    requires Ready(m)
    ensures Ready(Play(cfg, m, events)) && Grows(m.store, Play(cfg, m, events).store)
    decreases |events|
  {
    if events != [] {
      var n := |events| - 1;
      var before := Play(cfg, m, events[..n]);
      EveryInterleaving(cfg, m, events[..n]);
      NextKeepsReady(cfg, before, events[n]);
      GrowsTransitive(m.store, before.store, Play(cfg, m, events).store);
    }
  }

  /** A commit that inserts succeeds exactly if its row fits, its keys are free and its references hold by then. */
  lemma CreateCommits(s: Store, id: Id, row: Route)
    requires s.Valid()
    ensures row.src in Srcs(s.routes).Values ==>
      Complete(s, Create(id, row)) == s && CompleteResult(s, Create(id, row)) in {Err(UowAlreadyExists), Err(UowError)}
    ensures InsertRoute(s, id, row).Stored? <==> id !in s.routes && id in Complete(s, Create(id, row)).routes
    ensures InsertRoute(s, id, row).Stored? ==>
      CompleteResult(s, Create(id, row)) == Ok(id) && Complete(s, Create(id, row)).routes[id] == row
    ensures InsertRoute(s, id, row) == Violated(ForeignKey) ==>
      CompleteResult(s, Create(id, row)) == Ok(id) && Complete(s, Create(id, row)) == s
    ensures row.src in Srcs(s.routes).Values ==>
      (CompleteResult(s, Create(id, row)) == Err(UowError) <==>
         |row.name| > 128 || |row.src| > 2000 || |row.dst| > 2000)
  {
  }

  /**
   At most one creator of a URL wins. Once a pending creation has been stored, every later commit of another creation
   of the same URL fails without a trace, after any events in between, and the winner's route is still as it was made.
   */
  lemma AtMostOneCreatorWins(cfg: Config, m: Machine, winner: nat, events: seq<Event>, loser: nat)
    requires Ready(m) && winner in m.pending && m.pending[winner].plan.Create?
    requires InsertRoute(m.store, m.pending[winner].plan.id, m.pending[winner].plan.row).Stored?
    requires
      var later := Play(cfg, Next(cfg, m, Commit(winner)), events);
      && loser in later.pending && later.pending[loser].plan.Create?
      && later.pending[loser].plan.row.src == m.pending[winner].plan.row.src
    ensures
      var won := m.pending[winner].plan;
      var later := Play(cfg, Next(cfg, m, Commit(winner)), events);
      && won.id in later.store.routes && SameIdentity(won.row, later.store.routes[won.id])
      && CompleteResult(later.store, later.pending[loser].plan).Err?
      && Next(cfg, later, Commit(loser)).store == later.store
  {
    var won := m.pending[winner].plan;
    var m1 := Next(cfg, m, Commit(winner));
    CreateCommits(m.store, won.id, won.row);
    NextKeepsReady(cfg, m, Commit(winner));
    EveryInterleaving(cfg, m1, events);
    var later := Play(cfg, m1, events);
    assert SameIdentity(m1.store.routes[won.id], later.store.routes[won.id]);
    assert Srcs(later.store.routes)[won.id] == won.row.src;
    CreateCommits(later.store, later.pending[loser].plan.id, later.pending[loser].plan.row);
  }

  /** With no event between its read and its commit, a registration is the serial one. */
  lemma UninterruptedIsSerial(cfg: Config, m: Machine, txn: nat, req: Request, community: Option<Id>, draw: Draw)
    requires txn !in m.pending
    ensures Next(cfg, Next(cfg, m, Read(txn, req, community, draw)), Commit(txn)) ==
            m.(store := Registered(m.store, cfg.bindSubdomain, req, community, cfg.tunnelUrl, draw))
  {
    var read := Next(cfg, m, Read(txn, req, community, draw));
    if txn in read.pending {
      assert read.pending - {txn} == m.pending;
    }
  }

  // ---------------------------------------------------------------- rebinds that overlap

  /** A commit moves a route from one community to another exactly if it rebinds it with another stored community. */
  lemma CommitMovesExactly(cfg: Config, m: Machine, txn: nat, r: Id)
    requires txn in m.pending && r in m.store.routes && m.store.routes[r].community.Some?
    ensures
      var plan := m.pending[txn].plan;
      var after := Next(cfg, m, Commit(txn)).store;
      && r in after.routes
      && (after.routes[r].community != m.store.routes[r].community <==>
            && plan.Rebind? && plan.route == r
            && plan.join.Some? && plan.join.value in m.store.communities
            && plan.join != m.store.routes[r].community)
  {
  }

  ghost predicate Uncommitted(events: seq<Event>, txn: nat) {
    forall i :: 0 <= i < |events| ==> events[i] != Commit(txn)
  }

  lemma {:induction false} PendingStays(cfg: Config, m: Machine, txn: nat, events: seq<Event>)
    requires txn in m.pending && Uncommitted(events, txn)
    ensures txn in Play(cfg, m, events).pending && Play(cfg, m, events).pending[txn] == m.pending[txn]
    decreases |events|
  {
    if events != [] {
      var n := |events| - 1;
      assert Uncommitted(events[..n], txn) by {
        assert forall i :: 0 <= i < n ==> events[..n][i] == events[i];
      }
      PendingStays(cfg, m, txn, events[..n]);
    }
  }

  /**
   What becomes of a rebind, whatever happens between its read and its commit. It always succeeds and renews the
   contact. It moves the route between communities exactly if the route had none at the read, the caller brought one,
   and the route is in another by the commit. It leaves the route VERIFIED exactly if it was not at the read, or still
   is at the commit: a column that the body found as it wanted it is not written.
   */
  lemma OverlappedRebind(cfg: Config, m: Machine, txn: nat, req: Request, community: Option<Id>, draw: Draw, r: Id,
      events: seq<Event>)
    requires Ready(m) && txn !in m.pending && r in m.store.routes
    requires community.Some? ==> community.value in m.store.communities
    requires
      var plan := Decide(m.store, cfg.bindSubdomain, req, community, cfg.tunnelUrl, draw);
      plan.Ok? && plan.value.Rebind? && plan.value.route == r
    requires Uncommitted(events, txn)
    ensures
      var later := Play(cfg, Next(cfg, m, Read(txn, req, community, draw)), events);
      var after := Next(cfg, later, Commit(txn)).store;
      && txn in later.pending && r in later.store.routes && r in after.routes
      && CompleteResult(later.store, later.pending[txn].plan) == Ok(r)
      && after.routes[r].lastContact == draw.at
      && var was, now, end := m.store.routes[r], later.store.routes[r], after.routes[r];
      && (now.community.Some? && end.community != now.community <==>
            was.community == None && community.Some? && now.community.Some? && now.community != community)
      && (end.verification == Verified <==> was.verification != Verified || now.verification == Verified)
  {
    var later := Play(cfg, Next(cfg, m, Read(txn, req, community, draw)), events);
    StillPending(cfg, m, txn, req, community, draw, r, events);
    CompleteOnRoute(later.store, later.pending[txn].plan, r);
  }

  /** By its commit the plan is as decided, and its route and its community are still there. */
  lemma StillPending(cfg: Config, m: Machine, txn: nat, req: Request, community: Option<Id>, draw: Draw, r: Id,
      events: seq<Event>)
    requires Ready(m) && txn !in m.pending && r in m.store.routes
    requires community.Some? ==> community.value in m.store.communities
    requires
      var plan := Decide(m.store, cfg.bindSubdomain, req, community, cfg.tunnelUrl, draw);
      plan.Ok? && plan.value.Rebind? && plan.value.route == r
    requires Uncommitted(events, txn)
    ensures
      var later := Play(cfg, Next(cfg, m, Read(txn, req, community, draw)), events);
      var was := m.store.routes[r];
      && txn in later.pending && r in later.store.routes
      && later.pending[txn].plan ==
           Rebind(r, if was.community.None? then community else None, was.verification != Verified, draw.at)
      && (community.Some? ==> community.value in later.store.communities)
  {
    var read := Next(cfg, m, Read(txn, req, community, draw));
    DecidedPlan(m.store, cfg.bindSubdomain, req, community, cfg.tunnelUrl, draw);
    NextKeepsReady(cfg, m, Read(txn, req, community, draw));
    EveryInterleaving(cfg, read, events);
    PendingStays(cfg, read, txn, events);
  }

  /** An owner's registration of a VERIFIED route that is unverified before the commit is accepted, and leaves it so. */
  lemma AcceptedButUnverified(cfg: Config, m: Machine, txn: nat, req: Request, draw: Draw, r: Id)
    requires Ready(m) && txn !in m.pending && r in m.store.routes && m.store.routes[r].verification == Verified
    requires RequestedSrc(m.store, cfg.bindSubdomain, req, draw) == Ok(m.store.routes[r].src)
    requires Holder(Uids(m.store.users), req.uid).Some?
    requires Holder(Uids(m.store.users), req.uid).value in m.store.routes[r].owners
    requires m.store.routes[r].community == None
    ensures
      var later := Next(cfg, Next(cfg, m, Read(txn, req, None, draw)), Atomic(UnverifyOne(r)));
      && txn in later.pending && CompleteResult(later.store, later.pending[txn].plan) == Ok(r)
      && r in Next(cfg, later, Commit(txn)).store.routes
      && Next(cfg, later, Commit(txn)).store.routes[r].verification == Unverified
      && Next(cfg, later, Commit(txn)).store.routes[r].lastContact == draw.at
  {
    RebindDecided(m.store, cfg.bindSubdomain, req, None, cfg.tunnelUrl, draw, r);
  }

  lemma RebindDecided(s: Store, bind: bool, req: Request, community: Option<Id>, dst: string, draw: Draw, r: Id)
    requires Injective(Srcs(s.routes)) && r in s.routes && s.routes[r].community == None
    requires RequestedSrc(s, bind, req, draw) == Ok(s.routes[r].src)
    requires Holder(Uids(s.users), req.uid).Some? && Holder(Uids(s.users), req.uid).value in s.routes[r].owners
    ensures Decide(s, bind, req, community, dst, draw) ==
            Ok(Rebind(r, community, s.routes[r].verification != Verified, draw.at))
  {
    assert Srcs(s.routes)[r] == s.routes[r].src;
    assert Holder(Srcs(s.routes), s.routes[r].src) == Some(r);
  }

  lemma JoinKeepsCommunities(s: Store, isUuid: string -> bool, uid: string, route: Id, text: string)
    ensures AfterJoin(s, isUuid, uid, route, text).communities == s.communities
  {
  }

  /**
   What does not survive overlapping: a registration never moves a route between communities when it runs alone, but one
   that read the route while it had none overwrites whatever community the route was given before the commit. Every
   such overlap moves the route.
   */
  lemma OverlappingRebindMoves(cfg: Config, m: Machine, txn: nat, req: Request, draw: Draw, r: Id, mine: Id,
      joined: Step)
    requires Injective(Srcs(m.store.routes)) && txn !in m.pending
    requires r in m.store.routes && m.store.routes[r].community == None && mine in m.store.communities
    requires RequestedSrc(m.store, cfg.bindSubdomain, req, draw) == Ok(m.store.routes[r].src)
    requires Holder(Uids(m.store.users), req.uid).Some?
    requires Holder(Uids(m.store.users), req.uid).value in m.store.routes[r].owners
    requires joined.Join? && r in Apply(cfg, m.store, joined).routes
    requires Apply(cfg, m.store, joined).routes[r].community.Some?
    requires Apply(cfg, m.store, joined).routes[r].community != Some(mine)
    ensures
      var m2 := Next(cfg, Next(cfg, m, Read(txn, req, Some(mine), draw)), Atomic(joined));
      var m3 := Next(cfg, m2, Commit(txn));
      && r in m2.store.routes && m2.store.routes[r].community.Some? && m2.store.routes[r].community != Some(mine)
      && r in m3.store.routes && m3.store.routes[r].community == Some(mine)
  {
    RebindDecided(m.store, cfg.bindSubdomain, req, Some(mine), cfg.tunnelUrl, draw, r);
    var plan := Rebind(r, Some(mine), m.store.routes[r].verification != Verified, draw.at);
    var given := Apply(cfg, m.store, joined);
    JoinKeepsCommunities(m.store, cfg.isUuid, joined.uid, joined.route, joined.text);
    CompleteOnRoute(given, plan, r);
    var m2 := Next(cfg, Next(cfg, m, Read(txn, req, Some(mine), draw)), Atomic(joined));
    assert m2.store == given && txn in m2.pending && m2.pending[txn].plan == plan;
  }
}
