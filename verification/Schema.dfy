/**
 The tables, their keys and constraints, and what inserting one row does.
 Tables keyed by a generated id are maps; association tables are sets of rows.
 */
module Schema {
  import opened Common
  import opened Models

  datatype Store = Store(
    users: map<Id, User>,
    groups: map<Id, Group>,
    domains: map<Id, Domain>,
    routes: map<Id, Route>,
    rules: set<Rule>,
    communities: map<Id, Community>,
    requests: set<MembershipRequest>)
  {
    function Entities(): set<Id> {
      users.Keys + groups.Keys
    }

    ghost predicate Valid() {
      && ValidDirectory(users, groups)
      && ValidDomains(domains)
      && ValidRoutes()
      && ValidRules()
      && ValidCommunities()
      && ValidRequests()
    }

    /** The primary keys and unique columns. */
    predicate UniqueKeys() {
      && ValidDirectory(users, groups)
      && ValidDomains(domains)
      && Injective(Srcs(routes))
      && Injective(Tokens(routes))
      && Injective(communities)
      && (forall a, b :: a in rules && b in rules && a.route == b.route && a.entity == b.entity ==> a == b)
      && (forall a, b | a in requests && b in requests ::
            a.entity == b.entity && a.community == b.community && a.route == b.route ==> a == b)
    }

    /** The foreign keys. */
    predicate References() {
      && RouteReferences(routes, domains.Keys, communities.Keys, Entities())
      && (forall x :: x in rules ==> x.route in routes && x.entity in Entities())
      && (forall c :: c in communities ==> communities[c].owner in Entities())
      && (forall q :: q in requests ==> q.entity in Entities() && q.community in communities && q.route in routes)
    }

    ghost predicate ValidRoutes() {
      && Injective(Srcs(routes))
      && Injective(Tokens(routes))
      && RouteReferences(routes, domains.Keys, communities.Keys, Entities())
    }

    ghost predicate ValidRules() {
      && (forall a, b :: a in rules && b in rules && a.route == b.route && a.entity == b.entity ==> a == b)
      && (forall x :: x in rules ==> x.route in routes && x.entity in Entities())
    }

    ghost predicate ValidCommunities() {
      && Injective(communities)
      && (forall c :: c in communities ==> communities[c].owner in Entities())
    }

    ghost predicate ValidRequests() {
      && (forall a, b | a in requests && b in requests ::
            a.entity == b.entity && a.community == b.community && a.route == b.route ==> a == b)
      && (forall q :: q in requests ==>
            q.entity in Entities() && q.community in communities && q.route in routes)
    }
  }

  function Uids(users: map<Id, User>): map<Id, string> {
    map u | u in users :: users[u].uid
  }

  function GroupNames(groups: map<Id, Group>): map<Id, string> {
    map g | g in groups :: groups[g].name
  }

  function DomainNames(domains: map<Id, Domain>): map<Id, string> {
    map d | d in domains :: domains[d].name
  }

  function DomainValues(domains: map<Id, Domain>): map<Id, string> {
    map d | d in domains :: domains[d].value
  }

  function Srcs(routes: map<Id, Route>): map<Id, string> {
    map r | r in routes :: routes[r].src
  }

  function Tokens(routes: map<Id, Route>): map<Id, string> {
    map r | r in routes :: routes[r].token
  }

  /** A unique column: no value under two keys. (A community's two fields are its unique key.) */
  predicate Injective<T(==)>(column: map<Id, T>) {
    forall a, b :: a in column && b in column && column[a] == column[b] ==> a == b
  }

  predicate RouteReferences(routes: map<Id, Route>, domains: set<Id>, communities: set<Id>, entities: set<Id>) {
    forall r :: r in routes ==>
      && routes[r].domain in domains
      && (routes[r].community.Some? ==> routes[r].community.value in communities)
      && routes[r].owners <= entities
  }

  /** Unique uids and group names; a user and a group never share an entity id. */
  predicate ValidDirectory(users: map<Id, User>, groups: map<Id, Group>) {
    Injective(Uids(users)) && Injective(GroupNames(groups)) && users.Keys !! groups.Keys
  }

  predicate ValidDomains(domains: map<Id, Domain>) {
    Injective(DomainNames(domains)) && Injective(DomainValues(domains))
  }

  /** A row waiting to be written by the next flush. */
  datatype Row =
    | NewUser(userId: Id, user: User)
    | NewGroup(groupId: Id, group: Group)
    | NewDomain(domainId: Id, domain: Domain)
    | NewRoute(routeId: Id, route: Route)
    | NewCommunity(communityId: Id, community: Community)
    | NewRule(rule: Rule)
    | NewRequest(request: MembershipRequest)

  datatype Violation = TooLong | Unique | ForeignKey

  datatype Insertion = Stored(store: Store) | Violated(violation: Violation)

  predicate RuleKeyTaken(rules: set<Rule>, route: Id, entity: Id) {
    exists x :: x in rules && x.route == route && x.entity == entity
  }

  predicate RequestKeyTaken(requests: set<MembershipRequest>, q: MembershipRequest) {
    exists x :: x in requests && x.entity == q.entity && x.community == q.community && x.route == q.route
  }

  function InsertRoute(s: Store, id: Id, r: Route): Insertion {
    if |r.name| > 128 || |r.src| > 2000 || |r.dst| > 2000 then Violated(TooLong)
    else if id in s.routes || r.src in Srcs(s.routes).Values || r.token in Tokens(s.routes).Values then Violated(Unique)
    else if r.domain !in s.domains then Violated(ForeignKey)
    else if r.community.Some? && r.community.value !in s.communities then Violated(ForeignKey)
    else if !(r.owners <= s.Entities()) then Violated(ForeignKey)
    else Stored(s.(routes := s.routes[id := r]))
  }

  /** What the database answers to one INSERT: column widths first, then unique keys, then references. */
  function Insert(s: Store, row: Row): Insertion {
    match row
    case NewUser(id, u) =>
      if |u.uid| > 128 then Violated(TooLong)
      else if id in s.Entities() || u.uid in Uids(s.users).Values then Violated(Unique)
      else Stored(s.(users := s.users[id := u]))
    case NewGroup(id, g) =>
      if |g.name| > 128 then Violated(TooLong)
      else if id in s.Entities() || g.name in GroupNames(s.groups).Values then Violated(Unique)
      else Stored(s.(groups := s.groups[id := g]))
    case NewDomain(id, d) =>
      if |d.name| > 128 || |d.value| > 2048 then Violated(TooLong)
      else if id in s.domains || d.name in DomainNames(s.domains).Values || d.value in DomainValues(s.domains).Values
        then Violated(Unique)
      else Stored(s.(domains := s.domains[id := d]))
    case NewRoute(id, r) => InsertRoute(s, id, r)
    case NewCommunity(id, c) =>
      if |c.name| > 128 then Violated(TooLong)
      else if id in s.communities || c in s.communities.Values then Violated(Unique)
      else if c.owner !in s.Entities() then Violated(ForeignKey)
      else Stored(s.(communities := s.communities[id := c]))
    case NewRule(x) =>
      if RuleKeyTaken(s.rules, x.route, x.entity) then Violated(Unique)
      else if x.route !in s.routes || x.entity !in s.Entities() then Violated(ForeignKey)
      else Stored(s.(rules := s.rules + {x}))
    case NewRequest(q) =>
      if |q.community| > 36 then Violated(TooLong)
      else if RequestKeyTaken(s.requests, q) then Violated(Unique)
      else if q.entity !in s.Entities() || q.community !in s.communities || q.route !in s.routes
        then Violated(ForeignKey)
      else Stored(s.(requests := s.requests + {q}))
  }

  /** A flush: the pending rows in order, stopping at the first one that is refused. */
  function InsertAll(s: Store, rows: seq<Row>): Insertion
    decreases |rows|
  {
    if rows == [] then Stored(s)
    else
      match Insert(s, rows[0])
      case Stored(s') => InsertAll(s', rows[1..])
      case Violated(v) => Violated(v)
  }

  /** A flush with rows changed in place in `s` as well: the keys and references of all rows have to hold in the end. */
  function Flush(s: Store, rows: seq<Row>): Insertion {
    match InsertAll(s, rows)
    case Violated(v) => Violated(v)
    case Stored(s') =>
      if !s'.UniqueKeys() then Violated(Unique)
      else if !s'.References() then Violated(ForeignKey)
      else Stored(s')
  }

  lemma ValidIsKeysAndReferences(s: Store)
    ensures s.Valid() <==> s.UniqueKeys() && s.References()
  {
  }

  lemma ExtendInjective<T>(column: map<Id, T>, key: Id, value: T)
    requires Injective(column) && key !in column && value !in column.Values
    ensures Injective(column[key := value])
  {
    assert forall a :: a in column ==> column[a] in column.Values;
  }

  lemma InsertUserKeepsValid(s: Store, id: Id, user: User)
    requires s.Valid() && Insert(s, NewUser(id, user)).Stored?
    ensures Insert(s, NewUser(id, user)).store.Valid()
  {
    var s' := Insert(s, NewUser(id, user)).store;
    ExtendInjective(Uids(s.users), id, user.uid);
    assert Uids(s'.users) == Uids(s.users)[id := user.uid];
    assert s.Entities() <= s'.Entities();
  }

  lemma InsertGroupKeepsValid(s: Store, id: Id, group: Group)
    requires s.Valid() && Insert(s, NewGroup(id, group)).Stored?
    ensures Insert(s, NewGroup(id, group)).store.Valid()
  {
    var s' := Insert(s, NewGroup(id, group)).store;
    ExtendInjective(GroupNames(s.groups), id, group.name);
    assert GroupNames(s'.groups) == GroupNames(s.groups)[id := group.name];
    assert s.Entities() <= s'.Entities();
  }

  lemma ExtendDomains(domains: map<Id, Domain>, id: Id, domain: Domain)
    requires ValidDomains(domains) && id !in domains
    requires domain.name !in DomainNames(domains).Values && domain.value !in DomainValues(domains).Values
    ensures ValidDomains(domains[id := domain])
  {
    ExtendInjective(DomainNames(domains), id, domain.name);
    ExtendInjective(DomainValues(domains), id, domain.value);
    assert DomainNames(domains[id := domain]) == DomainNames(domains)[id := domain.name];
    assert DomainValues(domains[id := domain]) == DomainValues(domains)[id := domain.value];
  }

  lemma ExtendRoutes(routes: map<Id, Route>, id: Id, route: Route)
    requires Injective(Srcs(routes)) && Injective(Tokens(routes)) && id !in routes
    requires route.src !in Srcs(routes).Values && route.token !in Tokens(routes).Values
    ensures Injective(Srcs(routes[id := route])) && Injective(Tokens(routes[id := route]))
  {
    ExtendInjective(Srcs(routes), id, route.src);
    ExtendInjective(Tokens(routes), id, route.token);
    assert Srcs(routes[id := route]) == Srcs(routes)[id := route.src];
    assert Tokens(routes[id := route]) == Tokens(routes)[id := route.token];
  }

  lemma InsertDomainKeepsValid(s: Store, id: Id, domain: Domain)
    requires s.Valid() && Insert(s, NewDomain(id, domain)).Stored?
    ensures Insert(s, NewDomain(id, domain)).store.Valid()
  {
    ExtendDomains(s.domains, id, domain);
  }

  lemma InsertRouteKeepsValid(s: Store, id: Id, route: Route)
    requires s.Valid() && InsertRoute(s, id, route).Stored?
    ensures InsertRoute(s, id, route).store.Valid()
  {
    var s' := InsertRoute(s, id, route).store;
    assert s'.ValidRoutes() by {
      ExtendRoutes(s.routes, id, route);
    }
    MoreRoutesKeepReferences(s, s');
  }

  lemma MoreRoutesKeepReferences(s: Store, s': Store)
    requires s.ValidRules() && s.ValidRequests() && s'.(routes := s.routes) == s && s.routes.Keys <= s'.routes.Keys
    ensures s'.ValidRules() && s'.ValidRequests()
  {
  }

  lemma InsertCommunityKeepsValid(s: Store, id: Id, community: Community)
    requires s.Valid() && Insert(s, NewCommunity(id, community)).Stored?
    ensures Insert(s, NewCommunity(id, community)).store.Valid()
  {
    ExtendInjective(s.communities, id, community);
  }

  /** Whatever row a flush accepts, the constraints hold afterwards. */
  lemma InsertKeepsValid(s: Store, row: Row)
    requires s.Valid() && Insert(s, row).Stored?
    ensures Insert(s, row).store.Valid()
  {
    match row
    case NewUser(id, u) => InsertUserKeepsValid(s, id, u);
    case NewGroup(id, g) => InsertGroupKeepsValid(s, id, g);
    case NewDomain(id, d) => InsertDomainKeepsValid(s, id, d);
    case NewRoute(id, r) => InsertRouteKeepsValid(s, id, r);
    case NewCommunity(id, c) => InsertCommunityKeepsValid(s, id, c);
    case NewRule(x) =>
    case NewRequest(q) =>
  }

  lemma {:induction false} InsertAllKeepsValid(s: Store, rows: seq<Row>)
    requires s.Valid()
    ensures InsertAll(s, rows).Stored? ==> InsertAll(s, rows).store.Valid()
    decreases |rows|
  {
    if rows != [] && Insert(s, rows[0]).Stored? {
      InsertKeepsValid(s, rows[0]);
      InsertAllKeepsValid(Insert(s, rows[0]).store, rows[1..]);
    }
  }
}
