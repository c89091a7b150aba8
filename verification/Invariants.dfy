/** Which step may change what of a route, and the invariants that follow over every run. */
module Invariants {
  import opened Common
  import opened Models
  import opened Schema
  import opened Repository
  import opened Cells
  import opened Refresh
  import opened Sweep
  import opened Registration
  import opened Communities
  import opened Domains
  import opened Runs
  import opened History

  // ---------------------------------------------------------------- one step on one route

  lemma AdministrationLeavesRoutes(cfg: Config, s: Store, step: Step)
    requires Administers(step)
    ensures Apply(cfg, s, step).routes == s.routes && Apply(cfg, s, step).rules == s.rules
    ensures Apply(cfg, s, step).requests == s.requests
  {
  }

  /** A commit reaches at most the route its plan rebinds, and answers with that route only if it does. */
  lemma CompleteOnRoute(s: Store, plan: Plan, r: Id)
    requires r in s.routes
    ensures
      var s' := Complete(s, plan);
      && s'.rules == s.rules && s'.requests == s.requests
      && r in s'.routes
      && (CompleteResult(s, plan) == Ok(r) ==> plan.Rebind? && plan.route == r)
      && (!(plan.Rebind? && plan.route == r) ==> s'.routes[r] == s.routes[r])
      && (plan.Rebind? && plan.route == r && (plan.join.Some? ==> plan.join.value in s.communities) ==>
            && CompleteResult(s, plan) == Ok(r)
            && s'.routes[r] == ReboundRow(s.routes[r], plan.join, plan.verify, plan.at))
  {
  }

  /** The row of a route for which a registration by one of its owners was accepted. */
  ghost function RegisteredRow(row: Route, community: Option<Id>, at: Time): Route {
    row.(lastContact := at, verification := Verified,
         community := if row.community.None? then community else row.community)
  }

  /** A registration by `uid` leaves the community of a route, or gives it one of the caller's own. */
  ghost predicate BroughtByOwner(s: Store, before: Option<Id>, after: Option<Id>, uid: string) {
    after == before || (after.Some? && after.value in s.communities && OwnsCommunity(s, after.value, uid))
  }

  /** A registration that answers with an existing route rebinds it for one of its owners; no other touches it. */
  lemma RegisterOnRoute(cfg: Config, s: Store, req: Request, text: Option<string>, draw: Draw, r: Id)
    requires r in s.routes
    ensures
      var s' := EndpointRegistered(cfg, s, req, text, draw);
      var own := OwnCommunity(s, cfg.isUuid, req.uid, text);
      && s'.rules == s.rules && s'.requests == s.requests
      && r in s'.routes
      && (EndpointResult(cfg, s, req, text, draw) == Ok(r) ==>
            && own.Ok?
            && req.uid in Uids(s.users).Values && Holder(Uids(s.users), req.uid).value in s.routes[r].owners
            && RequestedSrc(s, cfg.bindSubdomain, req, draw) == Ok(s.routes[r].src)
            && s'.routes[r] == RegisteredRow(s.routes[r], own.value, draw.at)
            && BroughtByOwner(s, s.routes[r].community, s'.routes[r].community, req.uid))
      && (EndpointResult(cfg, s, req, text, draw) != Ok(r) ==> s'.routes[r] == s.routes[r])
  {
    var own := OwnCommunity(s, cfg.isUuid, req.uid, text);
    if own.Ok? {
      DecidedPlan(s, cfg.bindSubdomain, req, own.value, cfg.tunnelUrl, draw);
      var plan := Decide(s, cfg.bindSubdomain, req, own.value, cfg.tunnelUrl, draw);
      if plan.Ok? {
        CompleteOnRoute(s, plan.value, r);
      }
    }
  }

  /** A new route is what its registration asked for: its own draw, the caller as only owner, VERIFIED and DOWN. */
  lemma NewRouteRowIs(cfg: Config, s: Store, req: Request, text: Option<string>, draw: Draw, r: Id)
    requires r !in s.routes && r in EndpointRegistered(cfg, s, req, text, draw).routes
    ensures
      var own := OwnCommunity(s, cfg.isUuid, req.uid, text);
      var src := RequestedSrc(s, cfg.bindSubdomain, req, draw);
      var row := EndpointRegistered(cfg, s, req, text, draw).routes[r];
      && r == draw.id && own.Ok? && src.Ok? && req.uid in Uids(s.users).Values
      && row.domain == ResolveDomain(s.domains, req.domainName).value && row.community == own.value
      && row.name == req.name && row.src == src.value && row.dst == cfg.tunnelUrl && row.token == draw.token
      && row.owners == {Holder(Uids(s.users), req.uid).value}
      && row.verification == Verified && row.status == Down && row.lastContact == draw.at
      && BroughtByOwner(s, None, row.community, req.uid)
  {
    var own := OwnCommunity(s, cfg.isUuid, req.uid, text);
    DecidedPlan(s, cfg.bindSubdomain, req, own.value, cfg.tunnelUrl, draw);
    CreatedRow(s, Decide(s, cfg.bindSubdomain, req, own.value, cfg.tunnelUrl, draw).value, r);
  }

  lemma CreatedRow(s: Store, plan: Plan, r: Id)
    requires r !in s.routes && r in Complete(s, plan).routes
    ensures plan.Create? && plan.id == r && Complete(s, plan).routes[r] == plan.row
  {
  }

  lemma SweepOnRoute(s: Store, now: Time, staleDuration: int, replies: Id -> Reply, r: Id)
    requires s.Valid() && r in s.routes
    ensures CellOf(SweepAll(s, now, staleDuration, replies), r) ==
            if Active(s.routes[r]) then SweptCell(s, r, now, staleDuration, replies(r)) else CellOf(s, r)
  {
    SweptCellsPlaced(s, ActiveRoutes(s.routes), now, staleDuration, replies);
    PutAllCells(s, SweptCells(s, ActiveRoutes(s.routes), now, staleDuration, replies));
  }

  lemma RefreshOnRoute(s: Store, q: Id, reply: Reply, r: Id)
    requires s.Valid() && r in s.routes
    ensures CellOf(Updated(s, q, reply), r) == if q == r then UpdateCell(s, r, reply) else CellOf(s, r)
  {
    if q in s.routes {
      UpdateFits(s, q, reply);
      PutThenRead(s, q, UpdateCell(s, q, reply));
    }
  }

  /** What a step makes of one route, from the route's own row and rules and the step's own answer. */
  ghost function CellAfter(cfg: Config, s: Store, step: Step, r: Id): Cell
    requires r in s.routes
  {
    var cell := CellOf(s, r);
    match step
    case Register(req, text, draw) =>
      var own := OwnCommunity(s, cfg.isUuid, req.uid, text);
      if own.Ok? && EndpointResult(cfg, s, req, text, draw) == Ok(r)
      then cell.(row := RegisteredRow(cell.row, own.value, draw.at)) else cell
    case RefreshTask(route, reply) => if route == r then UpdateCell(s, r, reply) else cell
    case SweepRoutes(now, replies) =>
      if Active(cell.row) then SweptCell(s, r, now, cfg.staleDuration, replies(r)) else cell
    case UnverifyOne(route) => if route == r then cell.(row := UnverifiedRow(cell.row)) else cell
    case Join(uid, route, text) =>
      if route == r && JoinResult(s, cfg.isUuid, uid, route, text) == Ok(None)
      then cell.(row := cell.row.(community := FindCommunity(s.communities, cfg.isUuid, text, None).value)) else cell
    case Leave(uid, route, community) =>
      if route == r && LeaveResult(s, uid, route, community).Ok?
      then cell.(row := cell.row.(community := None)) else cell
    case _ => cell
  }

  lemma StepOnRoute(cfg: Config, s: Store, step: Step, r: Id)
    requires s.Valid() && r in s.routes
    ensures r in Apply(cfg, s, step).routes
    ensures CellOf(Apply(cfg, s, step), r) == CellAfter(cfg, s, step, r)
  {
    if Administers(step) {
      AdministrationLeavesRoutes(cfg, s, step);
    } else {
      match step
      case Register(req, text, draw) => RegisterOnRoute(cfg, s, req, text, draw, r);
      case RefreshTask(route, reply) => RefreshOnRoute(s, route, reply, r);
      case SweepRoutes(now, replies) => SweepOnRoute(s, now, cfg.staleDuration, replies, r);
      case UnverifyOne(route) => UnverifyOnRoute(cfg, s, route, r);
      case Join(uid, route, text) => JoinOnRoute(cfg, s, uid, route, text, r);
      case Leave(uid, route, community) => LeaveOnRoute(cfg, s, uid, route, community, r);
    }
  }

  lemma UnverifyOnRoute(cfg: Config, s: Store, route: Id, r: Id)
    requires r in s.routes
    ensures r in Unverify(s, route).routes && CellOf(Unverify(s, route), r) == CellAfter(cfg, s, UnverifyOne(route), r)
  {
  }

  lemma LeaveOnRoute(cfg: Config, s: Store, uid: string, route: Id, community: Id, r: Id)
    requires r in s.routes
    ensures
      var s' := AfterLeave(s, uid, route, community);
      r in s'.routes && CellOf(s', r) == CellAfter(cfg, s, Leave(uid, route, community), r)
  {
  }

  lemma JoinOnRoute(cfg: Config, s: Store, uid: string, route: Id, text: string, r: Id)
    requires r in s.routes
    ensures
      var s' := AfterJoin(s, cfg.isUuid, uid, route, text);
      && r in s'.routes && CellOf(s', r) == CellAfter(cfg, s, Join(uid, route, text), r)
  {
  }

  lemma JoinOnRequests(s: Store, isUuid: string -> bool, uid: string, route: Id, text: string)
    ensures forall q :: q in AfterJoin(s, isUuid, uid, route, text).requests && q !in s.requests ==>
      q.route in s.routes && q.entity !in s.routes[q.route].owners
  {
  }

  /** The step leaves everything of the route but perhaps its community. */
  ghost predicate LeavesAlone(cfg: Config, s: Store, step: Step, r: Id) {
    match step
    case Register(req, text, draw) => EndpointResult(cfg, s, req, text, draw) != Ok(r)
    case RefreshTask(route, _) => route != r
    case UnverifyOne(route) => route != r
    case SweepRoutes(_, _) => r in s.routes ==> !Active(s.routes[r])
    case _ => true
  }

  lemma LeftAlone(cfg: Config, s: Store, step: Step, r: Id)
    requires s.Valid() && r in s.routes && LeavesAlone(cfg, s, step, r)
    ensures
      var s' := Apply(cfg, s, step);
      && r in s'.routes
      && RulesOf(s'.rules, r) == RulesOf(s.rules, r)
      && s'.routes[r] == s.routes[r].(community := s'.routes[r].community)
  {
    StepOnRoute(cfg, s, step, r);
    var cell := CellOf(Apply(cfg, s, step), r);
    assert cell.rules == RulesOf(s.rules, r) && cell.row == s.routes[r].(community := cell.row.community);
  }

  // ---------------------------------------------------------------- ownership

  /** On a taken URL a registration succeeds exactly for the owners of its route, and a refusal changes nothing. */
  lemma RegisterNeedsOwnership(cfg: Config, s: Store, req: Request, text: Option<string>, draw: Draw, r: Id)
    requires Injective(Srcs(s.routes)) && r in s.routes
    requires RequestedSrc(s, cfg.bindSubdomain, req, draw) == Ok(s.routes[r].src)
    requires OwnCommunity(s, cfg.isUuid, req.uid, text).Ok?
    ensures req.uid in Uids(s.users).Values
    ensures
      var owner := Holder(Uids(s.users), req.uid).value in s.routes[r].owners;
      var result := EndpointResult(cfg, s, req, text, draw);
      && (owner ==> result == Ok(r))
      && (!owner ==> result == Err(NotAllowed) && EndpointRegistered(cfg, s, req, text, draw) == s)
  {
    var src := s.routes[r].src;
    assert Srcs(s.routes)[r] == src;
    assert src in Srcs(s.routes).Values;
    assert Holder(Srcs(s.routes), src) == Some(r);
  }

  /** A registration is refused exactly when its URL is someone else's, or is free in a restricted domain. */
  lemma RefusedExactly(cfg: Config, s: Store, req: Request, text: Option<string>, draw: Draw)
    ensures EndpointResult(cfg, s, req, text, draw) == Err(NotAllowed) <==>
      var src := RequestedSrc(s, cfg.bindSubdomain, req, draw);
      && OwnCommunity(s, cfg.isUuid, req.uid, text).Ok? && src.Ok?
      && if src.value in Srcs(s.routes).Values
         then Holder(Uids(s.users), req.uid).value !in s.routes[Holder(Srcs(s.routes), src.value).value].owners
         else s.domains[ResolveDomain(s.domains, req.domainName).value].restricted
  {
  }

  /** Over every run: whoever owned the URL at the start is who can register it at the end. */
  lemma OwnershipIsPermanent(cfg: Config, s: Store, steps: seq<Step>, r: Id, req: Request, text: Option<string>,
      draw: Draw)
    requires s.Valid() && r in s.routes
    requires
      var s' := Run(cfg, s, steps);
      && RequestedSrc(s', cfg.bindSubdomain, req, draw) == Ok(s.routes[r].src)
      && OwnCommunity(s', cfg.isUuid, req.uid, text).Ok?
    ensures
      var s' := Run(cfg, s, steps);
      && r in s'.routes && SameIdentity(s.routes[r], s'.routes[r])
      && req.uid in Uids(s'.users).Values
      && (EndpointResult(cfg, s', req, text, draw).Ok? <==> Holder(Uids(s'.users), req.uid).value in s.routes[r].owners)
  {
    RunKeepsValid(cfg, s, steps);
    RunGrows(cfg, s, steps);
    RegisterNeedsOwnership(cfg, Run(cfg, s, steps), req, text, draw, r);
  }

  // ---------------------------------------------------------------- communities and requests

  /** The owner on whose behalf a step may change the community of a route. */
  ghost function Actor(s: Store, step: Step): Option<Id> {
    match step
    case Register(req, _, _) => Holder(Uids(s.users), req.uid)
    case Join(uid, _, _) => Holder(Uids(s.users), uid)
    case Leave(uid, _, _) => Holder(Uids(s.users), uid)
    case _ => None
  }

  /** Moving a route, instead of asking to, takes one of its owners. */
  lemma MoversAreOwners(s: Store, isUuid: string -> bool, uid: string, route: Id, text: string)
    requires JoinResult(s, isUuid, uid, route, text) == Ok(None)
    ensures uid in Uids(s.users).Values && route in s.routes
    ensures Holder(Uids(s.users), uid).value in s.routes[route].owners
  {
  }

  lemma CommunityOfCellAfter(cfg: Config, s: Store, step: Step, r: Id)
    requires r in s.routes && CellAfter(cfg, s, step, r).row.community != s.routes[r].community
    ensures Actor(s, step).Some? && Actor(s, step).value in s.routes[r].owners
    ensures step.Register? ==> s.routes[r].community == None
  {
    match step
    case Register(req, text, draw) => RegisterOnRoute(cfg, s, req, text, draw, r);
    case Join(uid, route, text) => MoversAreOwners(s, cfg.isUuid, uid, route, text);
    case _ =>
  }

  /** A step changes the community of a route only for one of its owners, and a registration never moves it. */
  lemma CommunityChangesOnlyByOwner(cfg: Config, s: Store, step: Step, r: Id)
    requires s.Valid() && r in s.routes
    ensures
      var s' := Apply(cfg, s, step);
      && r in s'.routes
      && (s'.routes[r].community != s.routes[r].community ==>
            && Actor(s, step).Some? && Actor(s, step).value in s.routes[r].owners
            && (step.Register? ==> s.routes[r].community == None))
  {
    StepOnRoute(cfg, s, step, r);
    var cell := CellOf(Apply(cfg, s, step), r);
    if cell.row.community != s.routes[r].community {
      CommunityOfCellAfter(cfg, s, step, r);
    }
  }

  /** Nobody has a pending request to bring in a route of their own. */
  ghost predicate NoOwnRequests(s: Store) {
    forall q :: q in s.requests ==> q.route in s.routes && q.entity !in s.routes[q.route].owners
  }

  lemma ApplyKeepsNoOwnRequests(cfg: Config, s: Store, step: Step)
    requires s.Valid() && NoOwnRequests(s)
    ensures NoOwnRequests(Apply(cfg, s, step))
  {
    ApplyGrows(cfg, s, step);
    RequestsAfter(cfg, s, step);
    var s' := Apply(cfg, s, step);
    forall q | q in s'.requests
      ensures q.route in s'.routes && q.entity !in s'.routes[q.route].owners
    {
      assert q.route in s.routes && q.entity !in s.routes[q.route].owners;
      assert SameIdentity(s.routes[q.route], s'.routes[q.route]);
    }
  }

  /** A new request is filed only by a user who does not own the route. */
  lemma RequestsAfter(cfg: Config, s: Store, step: Step)
    ensures forall q :: q in Apply(cfg, s, step).requests && q !in s.requests ==>
      q.route in s.routes && q.entity !in s.routes[q.route].owners
  {
    if Administers(step) {
      AdministrationLeavesRoutes(cfg, s, step);
    } else if step.Join? {
      JoinOnRequests(s, cfg.isUuid, step.uid, step.route, step.text);
    }
  }

  /** Over every run: one request per entity, community and route, and none by an owner of its route. */
  lemma {:induction false} RequestsOverRuns(cfg: Config, s: Store, steps: seq<Step>)
    requires s.Valid() && NoOwnRequests(s)
    ensures NoOwnRequests(Run(cfg, s, steps)) && Run(cfg, s, steps).ValidRequests()
    decreases |steps|
  {
    RunKeepsValid(cfg, s, steps);
    if steps != [] {
      var n := |steps| - 1;
      RequestsOverRuns(cfg, s, steps[..n]);
      RunKeepsValid(cfg, s, steps[..n]);
      ApplyKeepsNoOwnRequests(cfg, Run(cfg, s, steps[..n]), steps[n]);
    }
  }

  // ---------------------------------------------------------------- default domain

  lemma RegisterKeepsDirectory(cfg: Config, s: Store, req: Request, text: Option<string>, draw: Draw)
    ensures
      var s' := Apply(cfg, s, Register(req, text, draw));
      s'.users == s.users && s'.domains == s.domains
  {
    var own := OwnCommunity(s, cfg.isUuid, req.uid, text);
    if own.Ok? {
      var plan := Decide(s, cfg.bindSubdomain, req, own.value, cfg.tunnelUrl, draw);
      if plan.Ok? {
        CompleteFrame(s, plan.value);
      }
    }
  }

  lemma CompleteFrame(s: Store, plan: Plan)
    ensures Complete(s, plan).users == s.users && Complete(s, plan).domains == s.domains
  {
  }

  lemma JoinKeepsDomains(s: Store, isUuid: string -> bool, uid: string, route: Id, text: string)
    ensures AfterJoin(s, isUuid, uid, route, text).domains == s.domains
  {
  }

  lemma WorkflowsKeepDomains(cfg: Config, s: Store, step: Step)
    requires !Administers(step)
    ensures Apply(cfg, s, step).domains == s.domains
  {
    match step
    case Register(req, text, draw) => RegisterKeepsDirectory(cfg, s, req, text, draw);
    case Join(uid, route, text) => JoinKeepsDomains(s, cfg.isUuid, uid, route, text);
    case RefreshTask(route, reply) =>
    case SweepRoutes(now, replies) =>
    case UnverifyOne(route) =>
    case Leave(uid, route, community) =>
  }

  /** The number of defaults never grows past one, and choosing a known domain makes it the only one. */
  lemma ApplyKeepsOneDefault(cfg: Config, s: Store, step: Step)
    requires |Defaults(s.domains)| <= 1
    ensures |Defaults(Apply(cfg, s, step).domains)| <= 1
  {
    if !Administers(step) {
      WorkflowsKeepDomains(cfg, s, step);
    } else if step.AddDomain? {
      ApiDomainKeepsDefaults(s, step.id, step.name, step.value);
    } else if step.ChooseDefault? && step.id in s.domains {
      ExactlyOneDefault(s, step.id);
    }
  }

  /** Over every run from at most one default domain, `get_default` never finds two. */
  lemma {:induction false} DefaultNeverAmbiguous(cfg: Config, s: Store, steps: seq<Step>)
    requires |Defaults(s.domains)| <= 1
    ensures |Defaults(Run(cfg, s, steps).domains)| <= 1
    ensures DefaultDomain(Run(cfg, s, steps).domains) != Err(MultipleResults)
    decreases |steps|
  {
    if steps != [] {
      var n := |steps| - 1;
      DefaultNeverAmbiguous(cfg, s, steps[..n]);
      ApplyKeepsOneDefault(cfg, Run(cfg, s, steps[..n]), steps[n]);
    }
  }

  // ---------------------------------------------------------------- verification

  lemma VerificationOfCellAfter(cfg: Config, s: Store, step: Step, r: Id)
    requires r in s.routes && s.routes[r].verification != Verified
    requires CellAfter(cfg, s, step, r).row.verification == Verified
    ensures step.Register? && Actor(s, step).Some? && Actor(s, step).value in s.routes[r].owners
  {
    if step.Register? {
      RegisterOnRoute(cfg, s, step.req, step.communityText, step.draw, r);
    }
  }

  /** Only a registration by an owner makes a route VERIFIED. */
  lemma OnlyOwnersVerify(cfg: Config, s: Store, step: Step, r: Id)
    requires s.Valid() && r in s.routes
    ensures
      var s' := Apply(cfg, s, step);
      && r in s'.routes
      && (s'.routes[r].verification == Verified && s.routes[r].verification != Verified ==>
            step.Register? && Actor(s, step).Some? && Actor(s, step).value in s.routes[r].owners)
  {
    StepOnRoute(cfg, s, step, r);
    var cell := CellOf(Apply(cfg, s, step), r);
    if cell.row.verification == Verified && s.routes[r].verification != Verified {
      VerificationOfCellAfter(cfg, s, step, r);
    }
  }

  ghost predicate NoRegistration(steps: seq<Step>) {
    forall i :: 0 <= i < |steps| ==> !steps[i].Register?
  }

  lemma NoNewRoutes(cfg: Config, s: Store, step: Step)
    requires !step.Register?
    ensures Apply(cfg, s, step).routes.Keys == s.routes.Keys
  {
    if Administers(step) {
      AdministrationLeavesRoutes(cfg, s, step);
    } else {
      match step
      case RefreshTask(route, reply) =>
      case SweepRoutes(now, replies) =>
      case UnverifyOne(route) =>
      case Join(uid, route, text) => JoinKeepsKeys(s, cfg.isUuid, uid, route, text);
      case Leave(uid, route, community) =>
    }
  }

  lemma JoinKeepsKeys(s: Store, isUuid: string -> bool, uid: string, route: Id, text: string)
    ensures AfterJoin(s, isUuid, uid, route, text).routes.Keys == s.routes.Keys
  {
  }

  /** Over every run without registrations, sweeps included, the set of VERIFIED routes only shrinks. */
  lemma {:induction false} VerifiedOnlyShrinks(cfg: Config, s: Store, steps: seq<Step>)
    requires s.Valid() && NoRegistration(steps)
    ensures Run(cfg, s, steps).routes.Keys == s.routes.Keys
    ensures forall r :: r in s.routes && Run(cfg, s, steps).routes[r].verification == Verified ==>
      s.routes[r].verification == Verified
    decreases |steps|
  {
    if steps != [] {
      var n := |steps| - 1;
      var before := Run(cfg, s, steps[..n]);
      VerifiedOnlyShrinks(cfg, s, steps[..n]);
      RunKeepsValid(cfg, s, steps[..n]);
      NoNewRoutes(cfg, before, steps[n]);
      forall r | r in before.routes {
        OnlyOwnersVerify(cfg, before, steps[n], r);
      }
    }
  }

  /** No step of the run registers, refreshes or unverifies the route by name; sweeps are free. */
  ghost predicate OnlySwept(cfg: Config, s: Store, steps: seq<Step>, r: Id) {
    forall i :: 0 <= i < |steps| ==>
      steps[i].SweepRoutes? || LeavesAlone(cfg, Run(cfg, s, steps[..i]), steps[i], r)
  }

  lemma OnlySweptPrefix(cfg: Config, s: Store, steps: seq<Step>, r: Id, n: nat)
    requires OnlySwept(cfg, s, steps, r) && n <= |steps|
    ensures OnlySwept(cfg, s, steps[..n], r)
  {
    forall i | 0 <= i < n
      ensures steps[..n][i].SweepRoutes? || LeavesAlone(cfg, Run(cfg, s, steps[..n][..i]), steps[..n][i], r)
    {
      assert steps[..n][..i] == steps[..i];
    }
  }

  /**
   A route in a failing status, or not VERIFIED, is out of the sweeps' reach: over every run that touches it only
   by sweeps it keeps its status, verification, rules and last contact, however many sweeps there are.
   */
  lemma {:induction false} FailingRoutesAreFrozen(cfg: Config, s: Store, steps: seq<Step>, r: Id)
    requires s.Valid() && r in s.routes && OnlySwept(cfg, s, steps, r)
    requires s.routes[r].verification != Verified ||
      s.routes[r].status in {Misconfigured, MissingEntity, UpgradeRequired, ServerError}
    ensures
      var s' := Run(cfg, s, steps);
      && r in s'.routes
      && RulesOf(s'.rules, r) == RulesOf(s.rules, r)
      && s'.routes[r] == s.routes[r].(community := s'.routes[r].community)
    decreases |steps|
  {
    if steps != [] {
      var n := |steps| - 1;
      OnlySweptPrefix(cfg, s, steps, r, n);
      FailingRoutesAreFrozen(cfg, s, steps[..n], r);
      RunKeepsValid(cfg, s, steps[..n]);
      LeftAlone(cfg, Run(cfg, s, steps[..n]), steps[n], r);
    }
  }

  // ---------------------------------------------------------------- UNVERIFIED implies DOWN

  ghost predicate UnverifiedDown(s: Store) {
    forall r :: r in s.routes && s.routes[r].verification == Unverified ==> s.routes[r].status == Down
  }

  /** A queued refresh that runs when its route is already UNVERIFIED, and records a status other than DOWN. */
  ghost predicate LateRefresh(s: Store, step: Step) {
    && step.RefreshTask? && step.route in s.routes && s.routes[step.route].verification == Unverified
    && var verdict := Judge(s.users, s.groups, step.route, step.reply.response);
    && (verdict.Accept? || (verdict.Mark? && verdict.status != Down))
  }

  /** A late refresh is the only step that breaks "UNVERIFIED implies DOWN", and it always does. */
  lemma UnverifiedDownExactly(cfg: Config, s: Store, step: Step)
    requires s.Valid() && UnverifiedDown(s)
    ensures UnverifiedDown(Apply(cfg, s, step)) <==> !LateRefresh(s, step)
  {
    var s' := Apply(cfg, s, step);
    ApplyGrows(cfg, s, step);
    forall r | r in s.routes
      ensures DownIfUnverified(s'.routes[r]) <==> !(LateRefresh(s, step) && step.route == r)
    {
      UnverifiedDownOnRoute(cfg, s, step, r);
    }
    forall r | r in s'.routes && r !in s.routes
      ensures s'.routes[r].verification == Verified
    {
      NewRoutesAreVerified(cfg, s, step, r);
    }
  }

  predicate DownIfUnverified(row: Route) {
    row.verification == Unverified ==> row.status == Down
  }

  lemma CellAfterDown(cfg: Config, s: Store, step: Step, r: Id)
    requires r in s.routes && DownIfUnverified(s.routes[r])
    ensures DownIfUnverified(CellAfter(cfg, s, step, r).row) <==> !(LateRefresh(s, step) && step.route == r)
  {
  }

  lemma UnverifiedDownOnRoute(cfg: Config, s: Store, step: Step, r: Id)
    requires s.Valid() && UnverifiedDown(s) && r in s.routes && r in Apply(cfg, s, step).routes
    ensures DownIfUnverified(Apply(cfg, s, step).routes[r]) <==> !(LateRefresh(s, step) && step.route == r)
  {
    StepOnRoute(cfg, s, step, r);
    CellAfterDown(cfg, s, step, r);
    assert Apply(cfg, s, step).routes[r] == CellOf(Apply(cfg, s, step), r).row;
  }

  lemma NewRoutesAreVerified(cfg: Config, s: Store, step: Step, r: Id)
    requires s.Valid() && r !in s.routes && r in Apply(cfg, s, step).routes
    ensures Apply(cfg, s, step).routes[r].verification == Verified && Apply(cfg, s, step).routes[r].status == Down
  {
    if step.Register? {
      NewRouteRowIs(cfg, s, step.req, step.communityText, step.draw, r);
    } else {
      NoNewRoutes(cfg, s, step);
    }
  }

  /** Over every run without a late refresh, every UNVERIFIED route is DOWN. */
  lemma {:induction false} UnverifiedDownOverRuns(cfg: Config, s: Store, steps: seq<Step>)
    requires s.Valid() && UnverifiedDown(s)
    requires forall i :: 0 <= i < |steps| ==> !LateRefresh(Run(cfg, s, steps[..i]), steps[i])
    ensures UnverifiedDown(Run(cfg, s, steps))
    decreases |steps|
  {
    if steps != [] {
      var n := |steps| - 1;
      var init := steps[..n];
      assert forall i :: 0 <= i < n ==> init[..i] == steps[..i];
      UnverifiedDownOverRuns(cfg, s, init);
      RunKeepsValid(cfg, s, init);
      UnverifiedDownExactly(cfg, Run(cfg, s, init), steps[n]);
    }
  }
}
