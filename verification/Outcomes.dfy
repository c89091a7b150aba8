/** What each workflow answers and stores, spelled out on the rows themselves. */
module Outcomes {
  import opened Common
  import opened Models
  import opened Schema
  import opened Repository
  import opened Registration
  import opened Communities
  import opened Runs

  // ---------------------------------------------------------------- one INSERT

  /** The store with one row more. */
  function With(s: Store, row: Row): Store {
    match row
    case NewUser(id, u) => s.(users := s.users[id := u])
    case NewGroup(id, g) => s.(groups := s.groups[id := g])
    case NewDomain(id, d) => s.(domains := s.domains[id := d])
    case NewRoute(id, r) => s.(routes := s.routes[id := r])
    case NewCommunity(id, c) => s.(communities := s.communities[id := c])
    case NewRule(x) => s.(rules := s.rules + {x})
    case NewRequest(q) => s.(requests := s.requests + {q})
  }

  /** The primary key of the row is free. */
  predicate KeyFree(s: Store, row: Row) {
    match row
    case NewUser(id, _) => id !in s.users && id !in s.groups
    case NewGroup(id, _) => id !in s.users && id !in s.groups
    case NewDomain(id, _) => id !in s.domains
    case NewRoute(id, _) => id !in s.routes
    case NewCommunity(id, _) => id !in s.communities
    case NewRule(x) => x !in s.rules
    case NewRequest(q) => q !in s.requests
  }

  predicate FitsColumns(row: Row) {
    match row
    case NewUser(_, u) => |u.uid| <= 128
    case NewGroup(_, g) => |g.name| <= 128
    case NewDomain(_, d) => |d.name| <= 128 && |d.value| <= 2048
    case NewRoute(_, r) => |r.name| <= 128 && |r.src| <= 2000 && |r.dst| <= 2000
    case NewCommunity(_, c) => |c.name| <= 128
    case NewRule(_) => true
    case NewRequest(q) => |q.community| <= 36
  }

  lemma ExtendExactly<T>(column: map<Id, T>, id: Id, value: T)
    requires Injective(column) && id !in column
    ensures Injective(column[id := value]) <==> value !in column.Values
  {
    if value in column.Values {
      var k :| k in column && column[k] == value;
      assert column[id := value][k] == column[id := value][id];
    } else {
      ExtendInjective(column, id, value);
    }
  }

  /** The answer to an INSERT, from what the store would be: widths first, then keys, then references. */
  ghost function Judged(s: Store, row: Row): Insertion {
    if !FitsColumns(row) then Violated(TooLong)
    else if !KeyFree(s, row) || !With(s, row).UniqueKeys() then Violated(Unique)
    else if !With(s, row).References() then Violated(ForeignKey)
    else Stored(With(s, row))
  }

  /**
   A row is stored exactly if it fits its columns, its key is free and the store with it keeps every unique key and
   every reference; nothing else changes, and otherwise the kind of violation is the first that applies.
   */
  lemma InsertExactly(s: Store, row: Row)
    requires s.Valid()
    ensures Insert(s, row) == Judged(s, row)
  {
    match row
    case NewUser(id, u) => InsertUserExactly(s, id, u);
    case NewGroup(id, g) => InsertGroupExactly(s, id, g);
    case NewDomain(id, d) => InsertDomainExactly(s, id, d);
    case NewRoute(id, r) => InsertRouteExactly(s, id, r);
    case NewCommunity(id, c) => InsertCommunityExactly(s, id, c);
    case NewRule(x) => InsertRuleExactly(s, x);
    case NewRequest(q) => InsertRequestExactly(s, q);
  }

  lemma MoreEntitiesKeepReferences(s: Store, s': Store)
    requires s.References() && s'.(users := s.users, groups := s.groups) == s && s.Entities() <= s'.Entities()
    ensures s'.References()
  {
  }

  /** With only the directory changed, its own keys are the ones to check. */
  lemma DirectoryKeys(s: Store, s': Store)
    requires s.UniqueKeys() && s'.(users := s.users, groups := s.groups) == s
    ensures s'.UniqueKeys() <==> ValidDirectory(s'.users, s'.groups)
  {
  }

  lemma InsertUserExactly(s: Store, id: Id, u: User)
    requires s.Valid()
    ensures Insert(s, NewUser(id, u)) == Judged(s, NewUser(id, u))
  {
    if KeyFree(s, NewUser(id, u)) {
      ValidIsKeysAndReferences(s);
      ExtendExactly(Uids(s.users), id, u.uid);
      assert Uids(s.users[id := u]) == Uids(s.users)[id := u.uid];
      MoreEntitiesKeepReferences(s, With(s, NewUser(id, u)));
      DirectoryKeys(s, With(s, NewUser(id, u)));
    }
  }

  lemma InsertGroupExactly(s: Store, id: Id, g: Group)
    requires s.Valid()
    ensures Insert(s, NewGroup(id, g)) == Judged(s, NewGroup(id, g))
  {
    if KeyFree(s, NewGroup(id, g)) {
      ValidIsKeysAndReferences(s);
      ExtendExactly(GroupNames(s.groups), id, g.name);
      assert GroupNames(s.groups[id := g]) == GroupNames(s.groups)[id := g.name];
      MoreEntitiesKeepReferences(s, With(s, NewGroup(id, g)));
      DirectoryKeys(s, With(s, NewGroup(id, g)));
    }
  }

  lemma DomainColumnsExactly(domains: map<Id, Domain>, id: Id, d: Domain)
    requires ValidDomains(domains) && id !in domains
    ensures ValidDomains(domains[id := d]) <==>
      d.name !in DomainNames(domains).Values && d.value !in DomainValues(domains).Values
  {
    ExtendExactly(DomainNames(domains), id, d.name);
    ExtendExactly(DomainValues(domains), id, d.value);
    assert DomainNames(domains[id := d]) == DomainNames(domains)[id := d.name];
    assert DomainValues(domains[id := d]) == DomainValues(domains)[id := d.value];
  }

  lemma InsertDomainExactly(s: Store, id: Id, d: Domain)
    requires s.Valid()
    ensures Insert(s, NewDomain(id, d)) == Judged(s, NewDomain(id, d))
  {
    if id !in s.domains {
      DomainColumnsExactly(s.domains, id, d);
    }
  }

  lemma RouteColumnsExactly(routes: map<Id, Route>, id: Id, r: Route)
    requires Injective(Srcs(routes)) && Injective(Tokens(routes)) && id !in routes
    ensures Injective(Srcs(routes[id := r])) <==> r.src !in Srcs(routes).Values
    ensures Injective(Tokens(routes[id := r])) <==> r.token !in Tokens(routes).Values
  {
    ExtendExactly(Srcs(routes), id, r.src);
    ExtendExactly(Tokens(routes), id, r.token);
    assert Srcs(routes[id := r]) == Srcs(routes)[id := r.src];
    assert Tokens(routes[id := r]) == Tokens(routes)[id := r.token];
  }

  lemma RouteReferencesExactly(routes: map<Id, Route>, id: Id, r: Route, domains: set<Id>, communities: set<Id>,
      entities: set<Id>)
    requires RouteReferences(routes, domains, communities, entities) && id !in routes
    ensures RouteReferences(routes[id := r], domains, communities, entities) <==>
      r.domain in domains && (r.community.Some? ==> r.community.value in communities) && r.owners <= entities
  {
    assert routes[id := r][id] == r;
  }

  lemma InsertRouteExactly(s: Store, id: Id, r: Route)
    requires s.Valid()
    ensures Insert(s, NewRoute(id, r)) == Judged(s, NewRoute(id, r))
  {
    if id !in s.routes {
      RouteColumnsExactly(s.routes, id, r);
      RouteReferencesExactly(s.routes, id, r, s.domains.Keys, s.communities.Keys, s.Entities());
    }
  }

  lemma InsertCommunityExactly(s: Store, id: Id, c: Community)
    requires s.Valid()
    ensures Insert(s, NewCommunity(id, c)) == Judged(s, NewCommunity(id, c))
  {
    if id !in s.communities {
      var s' := With(s, NewCommunity(id, c));
      ExtendExactly(s.communities, id, c);
      assert s'.communities[id] == c;
      assert s'.References() <==> c.owner in s.Entities();
    }
  }

  lemma InsertRuleExactly(s: Store, x: Rule)
    requires s.Valid()
    ensures Insert(s, NewRule(x)) == Judged(s, NewRule(x))
  {
    var rules := s.rules + {x};
    if y :| y in s.rules && y.route == x.route && y.entity == x.entity {
      assert y in rules && x in rules;
    }
  }

  lemma InsertRequestExactly(s: Store, q: MembershipRequest)
    requires s.Valid()
    ensures Insert(s, NewRequest(q)) == Judged(s, NewRequest(q))
  {
    var requests := s.requests + {q};
    if p :| p in s.requests && p.entity == q.entity && p.community == q.community && p.route == q.route {
      assert p in requests && q in requests;
    }
  }

  ghost function Kept(s: Store, row: Row): Store {
    if Judged(s, row).Stored? then With(s, row) else s
  }

  /** Steps that administer the registry add the row they name or nothing, or move the default to a known domain. */
  lemma AdministrationExactly(cfg: Config, s: Store, step: Step)
    requires s.Valid()
    ensures
      var s' := Apply(cfg, s, step);
      match step
      case AddUser(id, user) => s' == Kept(s, NewUser(id, user))
      case AddGroup(id, group) => s' == Kept(s, NewGroup(id, group))
      case AddDomain(id, name, value) => s' == Kept(s, NewDomain(id, Domain(name, value, Standard, false, false)))
      case AddCommunity(id, uid, name) =>
        forall u :: u in s.users && s.users[u].uid == uid ==> s' == Kept(s, NewCommunity(id, Community(u, name)))
      case ChooseDefault(id) =>
        if id !in s.domains then s' == s
        else
          && s' == s.(domains := s'.domains) && s'.domains.Keys == s.domains.Keys
          && forall d :: d in s.domains ==> s'.domains[d] == s.domains[d].(isDefault := d == id)
      case UnverifyOne(r) =>
        s' == if r !in s.routes then s
              else s.(routes := s.routes[r := s.routes[r].(verification := Unverified, status := Down)])
      case _ => true
  {
    match step
    case AddUser(id, user) => InsertExactly(s, NewUser(id, user));
    case AddGroup(id, group) => InsertExactly(s, NewGroup(id, group));
    case AddDomain(id, name, value) => InsertExactly(s, NewDomain(id, Domain(name, value, Standard, false, false)));
    case AddCommunity(id, uid, name) =>
      forall u | u in s.users && s.users[u].uid == uid
        ensures Apply(cfg, s, step) == Kept(s, NewCommunity(id, Community(u, name)))
      {
        UserIs(s, u, uid);
        InsertExactly(s, NewCommunity(id, Community(u, name)));
      }
    case _ =>
  }

  // ---------------------------------------------------------------- registering

  /** What a request comes down to: its domain is `d`, its user `u`, and the community it brings `c`. */
  ghost predicate Understood(cfg: Config, s: Store, req: Request, text: Option<string>, d: Id, u: Id, c: Option<Id>) {
    && d in s.domains && ResolveDomain(s.domains, req.domainName) == Ok(d)
    && u in s.users && s.users[u].uid == req.uid
    && OwnCommunity(s, cfg.isUuid, req.uid, text) == Ok(c)
  }

  lemma UserIs(s: Store, u: Id, uid: string)
    requires Injective(Uids(s.users)) && u in s.users && s.users[u].uid == uid
    ensures Holder(Uids(s.users), uid) == Some(u)
  {
    assert Uids(s.users)[u] == uid;
  }

  function UrlOf(cfg: Config, s: Store, d: Id, req: Request, draw: Draw): string
    requires d in s.domains
  {
    SrcUrl(s.domains[d], req.name, req.uid, draw.uuid, cfg.bindSubdomain)
  }

  /**
   A free URL in an open domain is registered: the store gets exactly this one route, with the community the caller
   brings. It fails only for values too long for their columns, or an id or token that is taken, and then has no effect.
   */
  lemma FreeUrlIsRegistered(cfg: Config, s: Store, req: Request, text: Option<string>, draw: Draw, d: Id, u: Id,
      c: Option<Id>)
    requires s.Valid() && Understood(cfg, s, req, text, d, u, c) && !s.domains[d].restricted
    requires UrlOf(cfg, s, d, req, draw) !in Srcs(s.routes).Values
    ensures
      var src, result := UrlOf(cfg, s, d, req, draw), EndpointResult(cfg, s, req, text, draw);
      var fits := |req.name| <= 128 && |src| <= 2000 && |cfg.tunnelUrl| <= 2000;
      var free := draw.id !in s.routes && draw.token !in Tokens(s.routes).Values;
      && (result == Ok(draw.id) <==> fits && free)
      && (result == Err(UowAlreadyExists) <==> fits && !free)
      && (result == Err(UowError) <==> !fits)
      && EndpointRegistered(cfg, s, req, text, draw) ==
           if !fits || !free then s
           else s.(routes := s.routes[draw.id :=
             Route(d, c, req.name, src, cfg.tunnelUrl, draw.token, {u}, Verified, Down, draw.at)])
  {
    UserIs(s, u, req.uid);
    var src := UrlOf(cfg, s, d, req, draw);
    var row := Route(d, c, req.name, src, cfg.tunnelUrl, draw.token, {u}, Verified, Down, draw.at);
    assert Decide(s, cfg.bindSubdomain, req, c, cfg.tunnelUrl, draw) == Ok(Create(draw.id, row));
    CreateIs(s, draw.id, row);
  }

  lemma CreateIs(s: Store, id: Id, row: Route)
    requires row.domain in s.domains && (row.community.Some? ==> row.community.value in s.communities)
    requires row.owners <= s.Entities() && row.src !in Srcs(s.routes).Values
    ensures
      var fits := |row.name| <= 128 && |row.src| <= 2000 && |row.dst| <= 2000;
      var free := id !in s.routes && row.token !in Tokens(s.routes).Values;
      && CompleteResult(s, Create(id, row)) ==
           (if !fits then Err(UowError) else if !free then Err(UowAlreadyExists) else Ok(id))
      && Complete(s, Create(id, row)) == if fits && free then s.(routes := s.routes[id := row]) else s
  {
  }

  /** A taken URL is rebound for the owners of its route, with exactly these changes to its row, and for nobody else. */
  lemma TakenUrlIsRebound(cfg: Config, s: Store, req: Request, text: Option<string>, draw: Draw, d: Id, u: Id,
      c: Option<Id>, r: Id)
    requires s.Valid() && Understood(cfg, s, req, text, d, u, c)
    requires r in s.routes && s.routes[r].src == UrlOf(cfg, s, d, req, draw)
    ensures
      var row, result := s.routes[r], EndpointResult(cfg, s, req, text, draw);
      var s' := EndpointRegistered(cfg, s, req, text, draw);
      if u in row.owners then
        && result == Ok(r)
        && s' == s.(routes := s.routes[r := row.(lastContact := draw.at, verification := Verified,
             community := if row.community.Some? then row.community else c)])
      else result == Err(NotAllowed) && s' == s
  {
    UserIs(s, u, req.uid);
    SrcIs(s.routes, r);
    if u in s.routes[r].owners {
      var row := s.routes[r];
      var plan := Rebind(r, if row.community.None? then c else None, row.verification != Verified, draw.at);
      assert Decide(s, cfg.bindSubdomain, req, c, cfg.tunnelUrl, draw) == Ok(plan);
      RebindIs(s, r, c, draw.at);
    }
  }

  lemma SrcIs(routes: map<Id, Route>, r: Id)
    requires Injective(Srcs(routes)) && r in routes
    ensures Holder(Srcs(routes), routes[r].src) == Some(r)
  {
    assert Srcs(routes)[r] == routes[r].src;
  }

  lemma RebindIs(s: Store, r: Id, c: Option<Id>, at: Time)
    requires r in s.routes && (c.Some? ==> c.value in s.communities)
    ensures
      var row := s.routes[r];
      var plan := Rebind(r, if row.community.None? then c else None, row.verification != Verified, at);
      && CompleteResult(s, plan) == Ok(r)
      && Complete(s, plan) == s.(routes := s.routes[r := row.(lastContact := at, verification := Verified,
           community := if row.community.Some? then row.community else c)])
  {
  }

  /** A registration is accepted exactly in these two cases; in every other the store is as before. */
  lemma AcceptedExactly(cfg: Config, s: Store, req: Request, text: Option<string>, draw: Draw)
    requires s.Valid()
    ensures EndpointResult(cfg, s, req, text, draw).Ok? <==>
      exists d, u, c :: Understood(cfg, s, req, text, d, u, c) && Acceptable(cfg, s, req, draw, d, u)
    ensures EndpointResult(cfg, s, req, text, draw).Err? ==> EndpointRegistered(cfg, s, req, text, draw) == s
  {
    var own := OwnCommunity(s, cfg.isUuid, req.uid, text);
    var domain := ResolveDomain(s.domains, req.domainName);
    forall d, u, c | Understood(cfg, s, req, text, d, u, c)
      ensures EndpointResult(cfg, s, req, text, draw).Ok? <==> Acceptable(cfg, s, req, draw, d, u)
      ensures EndpointResult(cfg, s, req, text, draw).Err? ==> EndpointRegistered(cfg, s, req, text, draw) == s
    {
      UnderstoodIsDecided(cfg, s, req, text, draw, d, u, c);
    }
    if own.Ok? && domain.Ok? && req.uid in Uids(s.users).Values {
      assert Understood(cfg, s, req, text, domain.value, Holder(Uids(s.users), req.uid).value, own.value);
    }
  }

  /** The URL is free, in an open domain, and its row can be stored; or it is taken by a route of the caller's. */
  ghost predicate Acceptable(cfg: Config, s: Store, req: Request, draw: Draw, d: Id, u: Id)
    requires d in s.domains
  {
    var src := UrlOf(cfg, s, d, req, draw);
    if src in Srcs(s.routes).Values then
      exists r :: r in s.routes && s.routes[r].src == src && u in s.routes[r].owners
    else
      && !s.domains[d].restricted
      && |req.name| <= 128 && |src| <= 2000 && |cfg.tunnelUrl| <= 2000
      && draw.id !in s.routes && draw.token !in Tokens(s.routes).Values
  }

  lemma UnderstoodIsDecided(cfg: Config, s: Store, req: Request, text: Option<string>, draw: Draw, d: Id, u: Id,
      c: Option<Id>)
    requires s.Valid() && Understood(cfg, s, req, text, d, u, c)
    ensures EndpointResult(cfg, s, req, text, draw).Ok? <==> Acceptable(cfg, s, req, draw, d, u)
    ensures EndpointResult(cfg, s, req, text, draw).Err? ==> EndpointRegistered(cfg, s, req, text, draw) == s
  {
    var src := UrlOf(cfg, s, d, req, draw);
    if src in Srcs(s.routes).Values {
      var r :| r in s.routes && s.routes[r].src == src;
      TakenUrlIsRebound(cfg, s, req, text, draw, d, u, c, r);
      assert forall q :: q in s.routes && s.routes[q].src == src ==> Srcs(s.routes)[q] == Srcs(s.routes)[r];
    } else if s.domains[d].restricted {
      RestrictedIsRefused(cfg, s, req, text, draw, d, u, c);
    } else {
      FreeUrlIsRegistered(cfg, s, req, text, draw, d, u, c);
    }
  }

  lemma RestrictedIsRefused(cfg: Config, s: Store, req: Request, text: Option<string>, draw: Draw, d: Id, u: Id,
      c: Option<Id>)
    requires Injective(Uids(s.users)) && Understood(cfg, s, req, text, d, u, c) && s.domains[d].restricted
    requires UrlOf(cfg, s, d, req, draw) !in Srcs(s.routes).Values
    ensures EndpointResult(cfg, s, req, text, draw) == Err(NotAllowed)
    ensures EndpointRegistered(cfg, s, req, text, draw) == s
  {
    UserIs(s, u, req.uid);
  }

  // ---------------------------------------------------------------- communities

  /** Community `c` is one that `text` stands for. */
  predicate Meant(s: Store, isUuid: string -> bool, text: string, c: Id) {
    c in s.communities && if isUuid(text) then c == text else s.communities[c].name == text
  }

  lemma FoundExactly(s: Store, isUuid: string -> bool, text: string)
    ensures
      var found := FindCommunity(s.communities, isUuid, text, None);
      && (found == Ok(None) <==> !exists c :: Meant(s, isUuid, text, c))
      && (found == Err(MultipleResults) <==>
            exists c, e :: Meant(s, isUuid, text, c) && Meant(s, isUuid, text, e) && c != e)
      && (found.Err? ==> found == Err(MultipleResults))
      && (forall c :: found == Ok(Some(c)) ==> Meant(s, isUuid, text, c))
  {
    var candidates := Candidates(s.communities, isUuid, text, None);
    assert forall c :: c in candidates <==> Meant(s, isUuid, text, c);
    if candidates != {} {
      var c :| c in candidates;
      if candidates == {c} {
      } else {
        var e :| e in candidates && e != c;
        assert |{c, e}| == 2 && {c, e} <= candidates;
        SubsetCount({c, e}, candidates);
      }
    }
  }

  lemma {:induction false} SubsetCount<T>(a: set<T>, b: set<T>)
    requires a <= b
    ensures |a| <= |b|
  {
    if x :| x in a {
      SubsetCount(a - {x}, b - {x});
    }
  }

  /**
   Bringing a route into a community, outcome by outcome. An owner moves the route, and nothing else changes; a route
   that is there already, an unknown user, route or community and an ambiguous name are errors without effect; anyone
   else gets the request that is there, or a new pending one.
   */
  lemma JoinExactly(s: Store, isUuid: string -> bool, uid: string, route: Id, text: string, u: Id)
    requires s.Valid() && u in s.users && s.users[u].uid == uid
    ensures
      var r, s' := JoinResult(s, isUuid, uid, route, text), AfterJoin(s, isUuid, uid, route, text);
      && (r == Err(NotFound) <==> route !in s.routes || !exists c :: Meant(s, isUuid, text, c))
      && (r == Err(MultipleResults) <==>
            route in s.routes
            && exists c, e :: Meant(s, isUuid, text, c) && Meant(s, isUuid, text, e) && c != e)
      && (r.Err? ==> s' == s)
      && forall c :: route in s.routes && FindCommunity(s.communities, isUuid, text, None) == Ok(Some(c)) ==>
           JoinOf(s, r, s', u, route, text, c)
  {
    UserIs(s, u, uid);
    FoundExactly(s, isUuid, text);
  }

  /** The outcome for a stored route and a text that stands for community `c` alone. */
  ghost predicate JoinOf(s: Store, r: Joined, s': Store, u: Id, route: Id, text: string, c: Id)
    requires route in s.routes
  {
    if u in s.routes[route].owners then
      if s.routes[route].community == Some(c) then r == Err(AlreadyExists)
      else r == Ok(None) && s' == s.(routes := s.routes[route := s.routes[route].(community := Some(c))])
    else
      var q := MembershipRequest(u, text, route, PendingRequest);
      if RequestKeyTaken(s.requests, q) then
        && r.Ok? && r.value.Some? && r.value.value in s.requests && s' == s
        && r.value.value.entity == u && r.value.value.community == text && r.value.value.route == route
      else
        && r == (if |text| > 36 then Err(UowError) else Ok(Some(q)))
        && s' == if |text| <= 36 && text in s.communities then s.(requests := s.requests + {q}) else s
  }

  lemma UnknownUserJoinsNothing(s: Store, isUuid: string -> bool, uid: string, route: Id, text: string)
    requires uid !in Uids(s.users).Values
    ensures JoinResult(s, isUuid, uid, route, text) == Err(RepoNotFound)
    ensures AfterJoin(s, isUuid, uid, route, text) == s
  {
  }

  /** On runs: a step that takes a route out of a community it is not in, or for someone else, changes nothing. */
  lemma LeaveExactly(cfg: Config, s: Store, uid: string, route: Id, community: Id)
    ensures Apply(cfg, s, Leave(uid, route, community)) ==
      if MayLeave(s, uid, route, community)
      then s.(routes := s.routes[route := s.routes[route].(community := None)]) else s
  {
  }

  /** A community that was created is found under its name by its owner. */
  lemma CreatedIsFound(cfg: Config, s: Store, id: Id, uid: string, name: string)
    requires s.Valid() && uid in Uids(s.users).Values && name != "" && !cfg.isUuid(name)
    requires id !in s.communities && id in Apply(cfg, s, AddCommunity(id, uid, name)).communities
    ensures
      var s' := Apply(cfg, s, AddCommunity(id, uid, name));
      && s'.communities[id] == Community(Holder(Uids(s.users), uid).value, name)
      && OwnCommunity(s', cfg.isUuid, uid, Some(name)) == Ok(Some(id))
  {
    var s' := Apply(cfg, s, AddCommunity(id, uid, name));
    ApplyKeepsValid(cfg, s, AddCommunity(id, uid, name));
    OwnCommunityExactly(s', cfg.isUuid, uid, name);
  }
}
