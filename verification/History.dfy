/** What no run undoes: identities, owners, references; and which step may touch which part of a route. */
module History {
  import opened Common
  import opened Models
  import opened Schema
  import opened UnitOfWork
  import opened Repository
  import opened Cells
  import opened Refresh
  import opened Sweep
  import opened Registration
  import opened Communities
  import opened Domains
  import opened Runs

  // ---------------------------------------------------------------- one step, seen from one route

  /** Everything in two stores but routes, rules, requests and default flags agrees on what the first one has. */
  ghost predicate DirectoryGrows(s: Store, s': Store) {
    && (forall u :: u in s.users ==> u in s'.users && s'.users[u] == s.users[u])
    && (forall g :: g in s.groups ==> g in s'.groups && s'.groups[g] == s.groups[g])
    && (forall c :: c in s.communities ==> c in s'.communities && s'.communities[c] == s.communities[c])
    && (forall d :: d in s.domains ==>
          d in s'.domains && s'.domains[d] == s.domains[d].(isDefault := s'.domains[d].isDefault))
  }

  /** Routes persist with their identity, and no new one is in a restricted domain. */
  ghost predicate RoutesGrow(s: Store, s': Store) {
    && (forall r :: r in s.routes ==> r in s'.routes && SameIdentity(s.routes[r], s'.routes[r]))
    && (forall r :: r in s'.routes && r !in s.routes ==>
          s'.routes[r].domain in s'.domains && !s'.domains[s'.routes[r].domain].restricted)
  }

  ghost predicate Grows(s: Store, s': Store) {
    DirectoryGrows(s, s') && RoutesGrow(s, s') && s.requests <= s'.requests
  }

  lemma GrowsTransitive(a: Store, b: Store, c: Store)
    requires Grows(a, b) && Grows(b, c)
    ensures Grows(a, c)
  {
    forall r | r in c.routes && r !in a.routes
      ensures c.routes[r].domain in c.domains && !c.domains[c.routes[r].domain].restricted
    {
      if r in b.routes {
        assert SameIdentity(b.routes[r], c.routes[r]);
      }
    }
  }

  lemma PutGrows(s: Store, r: Id, cell: Cell)
    requires Fits(s, r, cell)
    ensures Grows(s, Put(s, r, cell))
  {
  }

  lemma RowUpdateGrows(s: Store, r: Id, row: Route)
    requires r in s.routes && SameIdentity(s.routes[r], row)
    ensures Grows(s, s.(routes := s.routes[r := row]))
  {
  }

  lemma InsertGrows(s: Store, row: Row)
    requires !row.NewRoute?
    ensures Grows(s, AfterCommit(s, Insert(s, row)))
  {
    if Insert(s, row).Stored? {
      assert Insert(s, row).store.routes == s.routes;
    }
  }

  lemma JoinGrows(s: Store, isUuid: string -> bool, uid: string, route: Id, text: string)
    ensures Grows(s, AfterJoin(s, isUuid, uid, route, text))
  {
    var r := JoinResult(s, isUuid, uid, route, text);
    if r.Ok? {
      if r.value.Some? {
        InsertGrows(s, NewRequest(r.value.value));
      } else {
        RowUpdateGrows(s, route, s.routes[route].(community := FindCommunity(s.communities, isUuid, text, None).value));
      }
    }
  }

  lemma CompleteGrows(s: Store, plan: Plan)
    requires plan.Create? && plan.row.domain in s.domains ==> !s.domains[plan.row.domain].restricted
    ensures Grows(s, Complete(s, plan))
  {
  }

  lemma DecidedPlan(s: Store, bind: bool, req: Request, community: Option<Id>, dst: string, draw: Draw)
    ensures
      var plan := Decide(s, bind, req, community, dst, draw);
      && (plan.Ok? && plan.value.Create? ==>
            && plan.value.row.domain in s.domains && !s.domains[plan.value.row.domain].restricted
            && plan.value.id == draw.id
            && req.uid in Uids(s.users).Values
            && RequestedSrc(s, bind, req, draw) == Ok(plan.value.row.src)
            && plan.value.row == NewRouteRow(req, ResolveDomain(s.domains, req.domainName).value, community,
                 plan.value.row.src, dst, Holder(Uids(s.users), req.uid).value, draw)
            && plan.value.row.src !in Srcs(s.routes).Values)
      && (plan.Ok? && plan.value.Rebind? ==>
            && plan.value.route in s.routes
            && RequestedSrc(s, bind, req, draw) == Ok(s.routes[plan.value.route].src)
            && req.uid in Uids(s.users).Values
            && Holder(Uids(s.users), req.uid).value in s.routes[plan.value.route].owners
            && plan.value.join == (if s.routes[plan.value.route].community.None? then community else None)
            && plan.value.verify == (s.routes[plan.value.route].verification != Verified)
            && plan.value.at == draw.at)
  {
  }

  lemma SweepGrows(s: Store, now: Time, staleDuration: int, replies: Id -> Reply)
    requires s.Valid()
    ensures Grows(s, SweepAll(s, now, staleDuration, replies))
  {
    forall r | r in s.routes
      ensures SameIdentity(s.routes[r], SweepAll(s, now, staleDuration, replies).routes[r])
    {
      SweptCellFits(s, r, now, staleDuration, replies(r));
    }
  }

  lemma RegisterGrows(cfg: Config, s: Store, req: Request, text: Option<string>, draw: Draw)
    ensures Grows(s, EndpointRegistered(cfg, s, req, text, draw))
  {
    var own := OwnCommunity(s, cfg.isUuid, req.uid, text);
    if own.Ok? {
      DecidedPlan(s, cfg.bindSubdomain, req, own.value, cfg.tunnelUrl, draw);
      var plan := Decide(s, cfg.bindSubdomain, req, own.value, cfg.tunnelUrl, draw);
      if plan.Ok? {
        CompleteGrows(s, plan.value);
      }
    }
  }

  /** Steps that only add rows to the directory, the domains or the communities, or choose a default. */
  ghost predicate Administers(step: Step) {
    step.AddUser? || step.AddGroup? || step.AddDomain? || step.ChooseDefault? || step.AddCommunity?
  }

  lemma AdministrationGrows(cfg: Config, s: Store, step: Step)
    requires Administers(step)
    ensures Grows(s, Apply(cfg, s, step))
  {
    match step
    case AddUser(id, user) => InsertGrows(s, NewUser(id, user));
    case AddGroup(id, group) => InsertGrows(s, NewGroup(id, group));
    case AddDomain(id, name, value) => InsertGrows(s, NewDomain(id, ApiDomain(name, value)));
    case ChooseDefault(id) =>
    case AddCommunity(id, uid, name) =>
      if uid in Uids(s.users).Values {
        InsertGrows(s, CommunityRow(s, id, uid, name));
      }
  }

  lemma ApplyGrows(cfg: Config, s: Store, step: Step)
    requires s.Valid()
    ensures Grows(s, Apply(cfg, s, step))
  {
    if Administers(step) {
      AdministrationGrows(cfg, s, step);
    } else {
      match step
      case Register(req, text, draw) => RegisterGrows(cfg, s, req, text, draw);
      case RefreshTask(route, reply) =>
        if route in s.routes {
          UpdateFits(s, route, reply);
          PutGrows(s, route, UpdateCell(s, route, reply));
        }
      case SweepRoutes(now, replies) => SweepGrows(s, now, cfg.staleDuration, replies);
      case UnverifyOne(route) =>
        if route in s.routes {
          RowUpdateGrows(s, route, UnverifiedRow(s.routes[route]));
        }
      case Join(uid, route, text) => JoinGrows(s, cfg.isUuid, uid, route, text);
      case Leave(uid, route, community) =>
        if LeaveResult(s, uid, route, community).Ok? {
          RowUpdateGrows(s, route, s.routes[route].(community := None));
        }
    }
  }

  /**
   Over every run: users, groups, communities and domains stay; a route keeps its id, URL, target, domain, token and
   owners for ever; no run puts a new route in a restricted domain, whether the domain was named or the default; and
   no membership request is ever dropped.
   */
  lemma {:induction false} RunGrows(cfg: Config, s: Store, steps: seq<Step>)
    requires s.Valid()
    ensures Grows(s, Run(cfg, s, steps))
    decreases |steps|
  {
    if steps != [] {
      var n := |steps| - 1;
      var before := Run(cfg, s, steps[..n]);
      RunGrows(cfg, s, steps[..n]);
      RunKeepsValid(cfg, s, steps[..n]);
      ApplyGrows(cfg, before, steps[n]);
      GrowsTransitive(s, before, Run(cfg, s, steps));
    }
  }
}
