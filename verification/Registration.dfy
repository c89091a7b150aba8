/** Registering a route, split where `register_route` splits: what the body decides, and what its commit does. */
module Registration {
  import opened Common
  import opened Models
  import opened Schema
  import opened UnitOfWork
  import opened Repository
  import opened Cells
  import opened Refresh

  /** A call to register: who, under which name, in which domain (the default one when absent or unknown). */
  datatype Request = Request(uid: string, name: string, domainName: Option<string>)

  /** What the call draws from outside the store: a route id, a route token, a UUID for ephemeral domains, the clock. */
  datatype Draw = Draw(id: Id, token: string, uuid: string, at: Time)

  /** The writes a body leaves to its commit: bind an existing route again, or insert a new one. */
  datatype Plan =
    | Rebind(route: Id, join: Option<Id>, verify: bool, at: Time)
    | Create(id: Id, row: Route)

  predicate KnownDomain(domains: map<Id, Domain>, name: Option<string>) {
    name.Some? && name.value in DomainNames(domains).Values
  }

  /** A known name decides; otherwise it takes exactly one default, and none is not the same error as two. */
  ghost function ResolveDomain(domains: map<Id, Domain>, name: Option<string>): (r: Result<Id>)
    ensures r.Ok? ==> r.value in domains
    ensures KnownDomain(domains, name) ==> r.Ok? && domains[r.value].name == name.value
    ensures !KnownDomain(domains, name) && |Defaults(domains)| == 1 ==> r.Ok? && domains[r.value].isDefault
    ensures !KnownDomain(domains, name) && Defaults(domains) == {} ==> r == Err(RepoNotFound)
    ensures !KnownDomain(domains, name) && |Defaults(domains)| > 1 ==> r == Err(MultipleResults)
  {
    var named := if name.Some? then Holder(DomainNames(domains), name.value) else None;
    if named.Some? then Ok(named.value)
    else
      var d := DefaultDomain(domains);
      if d.Ok? then assert d.value in Defaults(domains); d else d
  }

  function NewRouteRow(req: Request, domain: Id, community: Option<Id>, src: string, dst: string, owner: Id, draw: Draw)
    : Route
  {
    Route(domain, community, req.name, src, dst, draw.token, {owner}, Verified, Down, draw.at)
  }

  /** The URL a request asks for, once its domain and its user are known. */
  ghost function RequestedSrc(s: Store, bind: bool, req: Request, draw: Draw): Result<string> {
    var d := ResolveDomain(s.domains, req.domainName);
    if d.Err? then Err(d.error)
    else if req.uid !in Uids(s.users).Values then Err(RepoNotFound)
    else Ok(SrcUrl(s.domains[d.value], req.name, req.uid, draw.uuid, bind))
  }

  /** The body of `register_route` as a function of the store it reads. */
  ghost function Decide(s: Store, bind: bool, req: Request, community: Option<Id>, dst: string, draw: Draw)
    : Result<Plan>
  {
    var src := RequestedSrc(s, bind, req, draw);
    if src.Err? then Err(src.error)
    else
      var domain := ResolveDomain(s.domains, req.domainName).value;
      var user := Holder(Uids(s.users), req.uid).value;
      var found := Holder(Srcs(s.routes), src.value);
      if found.Some? then
        var row := s.routes[found.value];
        if user !in row.owners then Err(NotAllowed)
        else
          var join := if row.community.None? then community else None;
          Ok(Rebind(found.value, join, row.verification != Verified, draw.at))
      else if s.domains[domain].restricted then Err(NotAllowed)
      else Ok(Create(draw.id, NewRouteRow(req, domain, community, src.value, dst, user, draw)))
  }

  function ReboundRow(row: Route, join: Option<Id>, verify: bool, at: Time): Route {
    row.(lastContact := at,
         verification := if verify then Verified else row.verification,
         community := if join.Some? then join else row.community)
  }

  /**
   The commit of a plan against the store as it is then, which need not be the store the plan was decided on.
   Only changed columns are written; a foreign key that no longer holds rolls back and reports success.
   */
  function Complete(s: Store, plan: Plan): Store {
    match plan
    case Rebind(r, join, verify, at) =>
      if r !in s.routes || (join.Some? && join.value !in s.communities) then s
      else s.(routes := s.routes[r := ReboundRow(s.routes[r], join, verify, at)])
    case Create(id, row) =>
      AfterCommit(s, InsertRoute(s, id, row))
  }

  function CompleteResult(s: Store, plan: Plan): Result<Id> {
    match plan
    case Rebind(r, join, verify, at) => if r !in s.routes then Err(UowError) else Ok(r)
    case Create(id, row) =>
      match OutcomeOf(InsertRoute(s, id, row))
      case RaisedAlreadyExists => Err(UowAlreadyExists)
      case RaisedUowError => Err(UowError)
      case Committed => Ok(id)
      case RolledBackQuietly => Ok(id)
  }

  /** `register_route` with nothing between its body and its commit. */
  ghost function Registered(s: Store, bind: bool, req: Request, community: Option<Id>, dst: string, draw: Draw): Store {
    var plan := Decide(s, bind, req, community, dst, draw);
    if plan.Err? then s else Complete(s, plan.value)
  }

  ghost function RegisterResult(s: Store, bind: bool, req: Request, community: Option<Id>, dst: string, draw: Draw)
    : Result<Id>
  {
    var plan := Decide(s, bind, req, community, dst, draw);
    if plan.Err? then Err(plan.error) else CompleteResult(s, plan.value)
  }

  /**
   Registration never raises the NotFound that `register_route` has ready for a missing default domain: the lookup has
   raised the repository's own by then. That one also stands for an unknown user, and for nothing else.
   */
  lemma NotFoundExactly(s: Store, bind: bool, req: Request, community: Option<Id>, dst: string, draw: Draw)
    ensures RegisterResult(s, bind, req, community, dst, draw) != Err(NotFound)
    ensures RegisterResult(s, bind, req, community, dst, draw) == Err(RepoNotFound) <==>
      || (!KnownDomain(s.domains, req.domainName) && Defaults(s.domains) == {})
      || ((KnownDomain(s.domains, req.domainName) || |Defaults(s.domains)| == 1) && req.uid !in Uids(s.users).Values)
  {
  }

  lemma CompleteKeepsValid(s: Store, plan: Plan)
    requires s.Valid()
    ensures Complete(s, plan).Valid()
  {
    match plan
    case Rebind(r, join, verify, at) =>
      if r in s.routes && (join.Some? ==> join.value in s.communities) {
        RebindKeepsValid(s, r, join, verify, at);
      }
    case Create(id, row) =>
      if InsertRoute(s, id, row).Stored? {
        InsertRouteKeepsValid(s, id, row);
      }
  }

  lemma RebindKeepsValid(s: Store, r: Id, join: Option<Id>, verify: bool, at: Time)
    requires s.Valid() && r in s.routes && (join.Some? ==> join.value in s.communities)
    ensures s.(routes := s.routes[r := ReboundRow(s.routes[r], join, verify, at)]).Valid()
  {
    var row := ReboundRow(s.routes[r], join, verify, at);
    RowUpdateIsPut(s, r, row);
    assert Fits(s, r, CellOf(s, r).(row := row));
    PutKeepsValid(s, r, CellOf(s, r).(row := row));
  }

  /** `get_by_name(name) or get_default()`. */
  method LocateDomain(domains: map<Id, Domain>, name: Option<string>) returns (r: Result<Id>)
    requires ValidDomains(domains)
    ensures r == ResolveDomain(domains, name)
  {
    if name.Some? {
      var named := FindBy(DomainNames(domains), name.value);
      if named.Some? {
        return Ok(named.value);
      }
    }
    r := GetDefault(domains);
  }

  /** The branch for a URL that is already someone's route. */
  method RebindRoute(session: Session, found: Id, user: Id, community: Option<Id>, at: Time) returns (r: Result<Id>)
    requires session.store.Valid() && session.pending == [] && session.store == session.db.store
    requires found in session.store.routes && (community.Some? ==> community.value in session.store.communities)
    modifies session, session.db
    ensures
      var s := old(session.store);
      var row := s.routes[found];
      var plan := Rebind(found, if row.community.None? then community else None, row.verification != Verified, at);
      if user in row.owners then session.db.store == Complete(s, plan) && r == Ok(found)
      else session.db.store == s && r == Err(NotAllowed)
  {
    var store := session.store;
    var row := store.routes[found];
    if user !in row.owners {
      return Err(NotAllowed);
    }
    ghost var join := if row.community.None? then community else None;
    ghost var verify := row.verification != Verified;
    RebindKeepsValid(store, found, join, verify, at);
    if community.Some? && row.community.None? {
      row := row.(community := community);
    }
    row := row.(lastContact := at);
    row := row.(verification := Verified);
    assert row == ReboundRow(store.routes[found], join, verify, at);
    session.store := store.(routes := store.routes[found := row]);
    var outcome := session.Commit();
    return Ok(found);
  }

  /** The branch for a new route. */
  method CreateRoute(session: Session, id: Id, route: Route) returns (r: Result<Id>)
    requires session.store.Valid() && session.pending == [] && session.store == session.db.store
    modifies session, session.db
    ensures session.db.store == Complete(old(session.store), Create(id, route))
    ensures r == CompleteResult(old(session.store), Create(id, route))
  {
    ghost var before := session.store;
    session.Add(NewRoute(id, route));
    assert InsertAll(before, [NewRoute(id, route)]) == InsertRoute(before, id, route);
    var outcome := session.Commit();
    if outcome == RaisedAlreadyExists {
      return Err(UowAlreadyExists);
    }
    if outcome == RaisedUowError {
      return Err(UowError);
    }
    return Ok(id);
  }

  /** `register_route`; callers pass only a stored community. */
  method RegisterRoute(db: Database, bind: bool, req: Request, community: Option<Id>, dst: string, draw: Draw)
    returns (r: Result<Id>)
    requires db.store.Valid() && (community.Some? ==> community.value in db.store.communities)
    modifies db
    ensures db.store == Registered(old(db.store), bind, req, community, dst, draw)
    ensures r == RegisterResult(old(db.store), bind, req, community, dst, draw)
    ensures db.store.Valid()
  {
    var session := new Session(db);
    var store := session.store;
    ghost var plan := Decide(store, bind, req, community, dst, draw);
    if plan.Ok? {
      CompleteKeepsValid(store, plan.value);
    }
    var domain := LocateDomain(store.domains, req.domainName);
    if domain.Err? {
      return Err(domain.error);
    }
    var user := FindBy(Uids(store.users), req.uid);
    if user.None? {
      return Err(RepoNotFound);
    }
    var src := SrcUrl(store.domains[domain.value], req.name, req.uid, draw.uuid, bind);
    var found := FindBy(Srcs(store.routes), src);
    if found.Some? {
      r := RebindRoute(session, found.value, user.value, community, draw.at);
      return r;
    }
    if store.domains[domain.value].restricted {
      return Err(NotAllowed);
    }
    r := CreateRoute(session, draw.id, NewRouteRow(req, domain.value, community, src, dst, user.value, draw));
  }
}
