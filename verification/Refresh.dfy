/** Refreshing one route's authorization: `store_rules` and `update_route`. */
module Refresh {
  import opened Common
  import opened Models
  import opened Schema
  import opened UnitOfWork
  import opened Repository
  import opened Cells

  /** What fetching the authorization file of a route came to. */
  datatype Response =
    | Fetched(document: Document)   // decoded and schema-valid
    | SchemaInvalid                 // decoded, refused by the schema
    | Undecodable                   // the body is not JSON
    | ConnectionFailed
    | ClientFailed                  // any other error of the authorization client
    | SessionFailed                 // an exception the client does not translate, such as a read timeout

  /** A response, and the clock when a successful refresh reads it. */
  datatype Reply = Reply(response: Response, at: Time)

  function Grant(r: Id, entities: set<Id>, policy: Policy): set<Rule> {
    set e | e in entities :: Rule(r, e, policy)
  }

  /** The rules an authorization asks for on route `r`. */
  function DocumentRules(users: map<Id, User>, groups: map<Id, Group>, r: Id, a: Authorization): set<Rule> {
    Grant(r, Matched(Uids(users), a.allowed.users), Allow) +
    Grant(r, Matched(Uids(users), a.disallowed.users), Deny) +
    Grant(r, Matched(GroupNames(groups), a.allowed.groups), Allow) +
    Grant(r, Matched(GroupNames(groups), a.disallowed.groups), Deny)
  }

  ghost predicate Resolves(users: map<Id, User>, groups: map<Id, Group>, a: Authorization) {
    && Resolvable(Uids(users), a.allowed.users)
    && Resolvable(Uids(users), a.disallowed.users)
    && Resolvable(GroupNames(groups), a.allowed.groups)
    && Resolvable(GroupNames(groups), a.disallowed.groups)
  }

  /** Some user, or some group, is both allowed and disallowed. */
  predicate Contradicts(a: Authorization) {
    || (exists x :: x in a.allowed.users && x in a.disallowed.users)
    || (exists x :: x in a.allowed.groups && x in a.disallowed.groups)
  }

  /** What a refresh does to its route: new rules and UP, a failure status that is kept, or nothing at all. */
  datatype Verdict = Accept(rules: set<Rule>) | Mark(status: Status, reason: Error) | Abort(error: Error)

  ghost function Judge(users: map<Id, User>, groups: map<Id, Group>, r: Id, response: Response): Verdict {
    match response
    case ConnectionFailed => Mark(Down, ConnectionError)
    case ClientFailed => Mark(ServerError, ClientError)
    case SchemaInvalid => Mark(Misconfigured, ValidationError)
    case Undecodable => Abort(ApiError)
    case SessionFailed => Abort(SessionError)
    case Fetched(doc) =>
      if doc.allowed.None? || doc.disallowed.None? then Abort(KeyError)
      else
        var a := ParseAuthorization(doc).value;
        if !Resolves(users, groups, a) then Mark(MissingEntity, MissingEntities)
        else if Contradicts(a) then Abort(UowAlreadyExists)
        else Accept(DocumentRules(users, groups, r, a))
  }

  function Obey(cell: Cell, verdict: Verdict, at: Time): Cell {
    match verdict
    case Accept(rules) => Cell(cell.row.(status := Up, lastContact := at), rules)
    case Mark(status, _) => cell.(row := cell.row.(status := status))
    case Abort(_) => cell
  }

  ghost function UpdateCell(s: Store, r: Id, reply: Reply): Cell
    requires r in s.routes
  {
    Obey(CellOf(s, r), Judge(s.users, s.groups, r, reply.response), reply.at)
  }

  ghost function UpdateResult(s: Store, r: Id, reply: Reply): Result<()> {
    if r !in s.routes then Err(AttributeError)
    else
      match Judge(s.users, s.groups, r, reply.response)
      case Accept(_) => Ok(())
      case Mark(_, e) => Err(e)
      case Abort(e) => Err(e)
  }

  /** The store after `update_route`: at most the cell of its own route is replaced. */
  ghost function Updated(s: Store, r: Id, reply: Reply): Store {
    if r !in s.routes then s else Put(s, r, UpdateCell(s, r, reply))
  }

  // ---------------------------------------------------------------- the rows a document writes

  /** Two different rules that ask for the same key. */
  ghost predicate KeyClash(rules: set<Rule>) {
    exists x, y :: x in rules && y in rules && x != y && x.route == y.route && x.entity == y.entity
  }

  /** The composite key of the rule table breaks exactly when the document names an entity on both sides. */
  lemma ClashIsContradiction(users: map<Id, User>, groups: map<Id, Group>, r: Id, a: Authorization)
    requires ValidDirectory(users, groups) && Resolves(users, groups, a)
    ensures KeyClash(DocumentRules(users, groups, r, a)) <==> Contradicts(a)
  {
    var rules := DocumentRules(users, groups, r, a);
    if Contradicts(a) {
      if x :| x in a.allowed.users && x in a.disallowed.users {
        SharedName(Uids(users), r, a.allowed.users, a.disallowed.users, x, rules);
      } else {
        var x :| x in a.allowed.groups && x in a.disallowed.groups;
        SharedName(GroupNames(groups), r, a.allowed.groups, a.disallowed.groups, x, rules);
      }
    }
    if KeyClash(rules) {
      var x, y :| x in rules && y in rules && x != y && x.route == y.route && x.entity == y.entity;
      RuleComesFrom(users, groups, r, a, x);
      RuleComesFrom(users, groups, r, a, y);
    }
  }

  /** Each rule of the document names its entity in the list of its own kind and policy. */
  lemma RuleComesFrom(users: map<Id, User>, groups: map<Id, Group>, r: Id, a: Authorization, x: Rule)
    requires users.Keys !! groups.Keys && x in DocumentRules(users, groups, r, a)
    ensures x.route == r
    ensures x.entity in users ==>
      users[x.entity].uid in if x.policy == Allow then a.allowed.users else a.disallowed.users
    ensures x.entity !in users ==> x.entity in groups
    ensures x.entity !in users ==>
      groups[x.entity].name in if x.policy == Allow then a.allowed.groups else a.disallowed.groups
  {
  }

  lemma SharedName(names: map<Id, string>, r: Id, allowed: seq<string>, denied: seq<string>, x: string,
      rules: set<Rule>)
    requires x in allowed && x in denied && x in names.Values
    requires Grant(r, Matched(names, allowed), Allow) + Grant(r, Matched(names, denied), Deny) <= rules
    ensures KeyClash(rules)
  {
    var e :| e in names && names[e] == x;
    assert Rule(r, e, Allow) in Grant(r, Matched(names, allowed), Allow);
    assert Rule(r, e, Deny) in Grant(r, Matched(names, denied), Deny);
  }

  function RuleRows(rules: seq<Rule>): seq<Row> {
    seq(|rules|, i requires 0 <= i < |rules| => NewRule(rules[i]))
  }

  function ToSet<T>(s: seq<T>): set<T> {
    set x | x in s
  }

  predicate KeyAmong(x: Rule, rules: seq<Rule>) {
    exists y :: y in rules && y.route == x.route && y.entity == x.entity
  }

  /** The first rule goes in when its key is free, and the flush goes on with the others. */
  lemma FlushHead(s: Store, rules: seq<Rule>)
    requires rules != [] && rules[0].route in s.routes && rules[0].entity in s.Entities()
    requires !RuleKeyTaken(s.rules, rules[0].route, rules[0].entity)
    ensures InsertAll(s, RuleRows(rules)) == InsertAll(s.(rules := s.rules + {rules[0]}), RuleRows(rules[1..]))
  {
    assert RuleRows(rules)[0] == NewRule(rules[0]) && RuleRows(rules)[1..] == RuleRows(rules[1..]);
  }

  lemma ClashWithHead(x: Rule, rest: seq<Rule>)
    requires x !in rest
    ensures KeyClash({x} + ToSet(rest)) <==> KeyClash(ToSet(rest)) || KeyAmong(x, rest)
  {
    var all := {x} + ToSet(rest);
    if y :| y in rest && y.route == x.route && y.entity == x.entity {
      assert x in all && y in all;
    }
    if KeyClash(ToSet(rest)) {
      var a, b :| a in ToSet(rest) && b in ToSet(rest) && a != b && a.route == b.route && a.entity == b.entity;
      assert a in all && b in all;
    }
  }

  /** Flushing rules: all of them go in, or the flush stops at a taken key. */
  lemma {:induction false} FlushRules(s: Store, rules: seq<Rule>)
    requires Distinct(rules)
    requires forall x :: x in rules ==> x.route in s.routes && x.entity in s.Entities()
    requires forall x :: x in rules ==> !RuleKeyTaken(s.rules, x.route, x.entity)
    ensures InsertAll(s, RuleRows(rules)) ==
            if KeyClash(ToSet(rules)) then Violated(Unique) else Stored(s.(rules := s.rules + ToSet(rules)))
    decreases |rules|
  {
    if rules == [] {
      assert s.rules + ToSet(rules) == s.rules;
    } else {
      var x, rest := rules[0], rules[1..];
      var s1 := s.(rules := s.rules + {x});
      assert rules == [x] + rest;
      assert ToSet(rules) == {x} + ToSet(rest);
      FlushHead(s, rules);
      ClashWithHead(x, rest);
      if KeyAmong(x, rest) {
        FlushClash(s1, rest, x);
      } else {
        FlushRules(s1, rest);
        assert s1.rules + ToSet(rest) == s.rules + ToSet(rules);
      }
    }
  }

  /** One rule whose key is taken spoils the whole flush. */
  lemma {:induction false} FlushClash(s: Store, rules: seq<Rule>, x: Rule)
    requires x in s.rules && KeyAmong(x, rules)
    requires forall y :: y in rules ==> y.route in s.routes && y.entity in s.Entities()
    ensures InsertAll(s, RuleRows(rules)) == Violated(Unique)
    decreases |rules|
  {
    var head, rest := rules[0], rules[1..];
    assert rules == [head] + rest;
    if RuleKeyTaken(s.rules, head.route, head.entity) {
      assert RuleRows(rules)[0] == NewRule(head);
    } else {
      FlushHead(s, rules);
      FlushClash(s.(rules := s.rules + {head}), rest, x);
    }
  }

  // ---------------------------------------------------------------- store_rules

  function Rules(r: Id, entities: seq<Id>, policy: Policy): seq<Rule> {
    seq(|entities|, i requires 0 <= i < |entities| => Rule(r, entities[i], policy))
  }

  lemma RulesEnumerate(r: Id, rows: seq<Id>, entities: set<Id>, policy: Policy)
    requires Enumerates(rows, entities)
    ensures Enumerates(Rules(r, rows, policy), Grant(r, entities, policy))
  {
    var rules := Rules(r, rows, policy);
    forall x | x in Grant(r, entities, policy)
      ensures x in rules
    {
      var i :| 0 <= i < |rows| && rows[i] == x.entity;
      assert rules[i] == x;
    }
  }

  lemma JoinEnumerations<T>(a: seq<T>, s: set<T>, b: seq<T>, t: set<T>)
    requires Enumerates(a, s) && Enumerates(b, t) && s !! t
    ensures Enumerates(a + b, s + t)
  {
    forall i, j | 0 <= i < j < |a + b|
      ensures (a + b)[i] != (a + b)[j]
    {
      if i < |a| <= j {
        assert a[i] in s && b[j - |a|] in t;
      }
    }
  }

  /**
   `store_rules`: all four lookups come first, so a failed one leaves the session as it was; otherwise
   the old rules of the route are gone and the document's wait to be written, each once.
   */
  method StoreRules(session: Session, routeId: Id, a: Authorization) returns (r: Result<()>, ghost added: seq<Rule>)
    requires session.store.Valid() && session.pending == []
    modifies session
    ensures r.Ok? <==> Resolves(old(session.store.users), old(session.store.groups), a)
    ensures r.Err? ==> r.error == MissingEntities && unchanged(session)
    ensures r.Ok? ==>
      && session.store == old(session.store).(rules := old(session.store.rules - RulesOf(session.store.rules, routeId)))
      && session.pending == RuleRows(added)
      && Enumerates(added, DocumentRules(old(session.store.users), old(session.store.groups), routeId, a))
  {
    added := [];
    var store := session.store;
    var allowedUsers := GetAll(Uids(store.users), a.allowed.users);
    if allowedUsers.Err? { return Err(MissingEntities), []; }
    var deniedUsers := GetAll(Uids(store.users), a.disallowed.users);
    if deniedUsers.Err? { return Err(MissingEntities), []; }
    var allowedGroups := GetAll(GroupNames(store.groups), a.allowed.groups);
    if allowedGroups.Err? { return Err(MissingEntities), []; }
    var deniedGroups := GetAll(GroupNames(store.groups), a.disallowed.groups);
    if deniedGroups.Err? { return Err(MissingEntities), []; }

    var policies := Rules(routeId, allowedUsers.value, Allow) + Rules(routeId, deniedUsers.value, Deny)
      + Rules(routeId, allowedGroups.value, Allow) + Rules(routeId, deniedGroups.value, Deny);
    PoliciesEnumerate(store, routeId, a,
      allowedUsers.value, deniedUsers.value, allowedGroups.value, deniedGroups.value);

    session.store := store.(rules := store.rules - RulesOf(store.rules, routeId));
    var i := 0;
    while i < |policies|
      invariant 0 <= i <= |policies|
      invariant session.store == store.(rules := store.rules - RulesOf(store.rules, routeId))
      invariant session.pending == RuleRows(policies[..i])
    {
      session.Add(NewRule(policies[i]));
      assert RuleRows(policies[..i + 1]) == RuleRows(policies[..i]) + [NewRule(policies[i])];
      i := i + 1;
    }
    assert policies[..i] == policies;
    return Ok(()), policies;
  }

  lemma PoliciesEnumerate(s: Store, r: Id, a: Authorization, au: seq<Id>, du: seq<Id>, ag: seq<Id>, dg: seq<Id>)
    requires ValidDirectory(s.users, s.groups)
    requires Enumerates(au, Matched(Uids(s.users), a.allowed.users))
    requires Enumerates(du, Matched(Uids(s.users), a.disallowed.users))
    requires Enumerates(ag, Matched(GroupNames(s.groups), a.allowed.groups))
    requires Enumerates(dg, Matched(GroupNames(s.groups), a.disallowed.groups))
    ensures Enumerates(Rules(r, au, Allow) + Rules(r, du, Deny) + Rules(r, ag, Allow) + Rules(r, dg, Deny),
                       DocumentRules(s.users, s.groups, r, a))
  {
    var AU, DU := Matched(Uids(s.users), a.allowed.users), Matched(Uids(s.users), a.disallowed.users);
    var AG, DG := Matched(GroupNames(s.groups), a.allowed.groups), Matched(GroupNames(s.groups), a.disallowed.groups);
    RulesEnumerate(r, au, AU, Allow);
    RulesEnumerate(r, du, DU, Deny);
    RulesEnumerate(r, ag, AG, Allow);
    RulesEnumerate(r, dg, DG, Deny);
    assert AU + DU <= s.users.Keys && AG + DG <= s.groups.Keys;
    JoinEnumerations(Rules(r, au, Allow), Grant(r, AU, Allow), Rules(r, du, Deny), Grant(r, DU, Deny));
    JoinEnumerations(Rules(r, au, Allow) + Rules(r, du, Deny), Grant(r, AU, Allow) + Grant(r, DU, Deny),
      Rules(r, ag, Allow), Grant(r, AG, Allow));
    JoinEnumerations(Rules(r, au, Allow) + Rules(r, du, Deny) + Rules(r, ag, Allow),
      Grant(r, AU, Allow) + Grant(r, DU, Deny) + Grant(r, AG, Allow), Rules(r, dg, Deny), Grant(r, DG, Deny));
  }

  // ---------------------------------------------------------------- update_route

  /** A verdict gives the route a cell that keeps every constraint. */
  lemma UpdateFits(s: Store, r: Id, reply: Reply)
    requires s.Valid() && r in s.routes
    ensures Fits(s, r, UpdateCell(s, r, reply))
  {
    var verdict := Judge(s.users, s.groups, r, reply.response);
    if verdict.Accept? {
      var a := ParseAuthorization(reply.response.document).value;
      ClashIsContradiction(s.users, s.groups, r, a);
      forall x | x in verdict.rules
        ensures x.route == r && x.entity in s.Entities()
      {
        RuleComesFrom(s.users, s.groups, r, a, x);
      }
    } else {
      assert forall x :: x in RulesOf(s.rules, r) ==> x in s.rules;
    }
  }

  lemma UpdatedKeepsValid(s: Store, r: Id, reply: Reply)
    requires s.Valid()
    ensures Updated(s, r, reply).Valid()
  {
    if r in s.routes {
      UpdateFits(s, r, reply);
      PutKeepsValid(s, r, UpdateCell(s, r, reply));
    }
  }

  /** What the commit makes of a session in which `StoreRules` has succeeded. */
  lemma CommitStoredRules(s: Store, r: Id, a: Authorization, row: Route, added: seq<Rule>)
    requires s.Valid() && r in s.routes && Resolves(s.users, s.groups, a)
    requires Enumerates(added, DocumentRules(s.users, s.groups, r, a))
    ensures
      var work := s.(routes := s.routes[r := row], rules := s.rules - RulesOf(s.rules, r));
      InsertAll(work, RuleRows(added)) ==
        if Contradicts(a) then Violated(Unique)
        else Stored(Put(s, r, Cell(row, DocumentRules(s.users, s.groups, r, a))))
  {
    var rules := DocumentRules(s.users, s.groups, r, a);
    var work := s.(routes := s.routes[r := row], rules := s.rules - RulesOf(s.rules, r));
    ClashIsContradiction(s.users, s.groups, r, a);
    forall x | x in added
      ensures x.route in work.routes && x.entity in work.Entities() && !RuleKeyTaken(work.rules, x.route, x.entity)
    {
      RuleComesFrom(s.users, s.groups, r, a, x);
    }
    FlushRules(work, added);
    assert ToSet(added) == rules;
  }

  /**
   The guarded part of `update_route`: fetch, validate, store the rules and set the status, or record the caught
   exception in the status. An exception outside the four caught classes is the `Err` of the result.
   */
  method Attempt(session: Session, routeId: Id, reply: Reply) returns (r: Result<Option<Error>>)
    requires session.store.Valid() && session.pending == [] && routeId in session.store.routes
    modifies session
    ensures session.store.Valid()
    ensures
      var s := old(session.store);
      var flushed := InsertAll(session.store, session.pending);
      match Judge(s.users, s.groups, routeId, reply.response)
      case Accept(_) => r == Ok(None) && flushed == Stored(Updated(s, routeId, reply))
      case Mark(_, e) => r == Ok(Some(e)) && flushed == Stored(Updated(s, routeId, reply))
      case Abort(UowAlreadyExists) => r == Ok(None) && flushed == Violated(Unique)
      case Abort(e) => r == Err(e)
  {
    ghost var before := session.store;
    var row := session.store.routes[routeId];
    var err: Option<Error> := None;
    match reply.response {
      case Undecodable =>
        return Err(ApiError);
      case SessionFailed =>
        return Err(SessionError);
      case ConnectionFailed =>
        row, err := row.(status := Down), Some(ConnectionError);
      case SchemaInvalid =>
        row, err := row.(status := Misconfigured), Some(ValidationError);
      case ClientFailed =>
        row, err := row.(status := ServerError), Some(ClientError);
      case Fetched(document) =>
        var parsed := ParseAuthorization(document);
        if parsed.Err? {
          return Err(KeyError);
        }
        var stored, added := StoreRules(session, routeId, parsed.value);
        if stored.Ok? {
          row := row.(status := Up, lastContact := reply.at);
          CommitStoredRules(before, routeId, parsed.value, row, added);
        } else {
          row, err := row.(status := MissingEntity), Some(MissingEntities);
        }
    }
    session.store := session.store.(routes := session.store.routes[routeId := row]);
    RowUpdateKeepsValid(before, routeId, row, session.store.rules);
    RowUpdateIsPut(before, routeId, row);
    return Ok(err);
  }

  method UpdateRoute(db: Database, routeId: Id, reply: Reply) returns (r: Result<()>)
    requires db.store.Valid()
    modifies db
    ensures db.store == Updated(old(db.store), routeId, reply)
    ensures r == UpdateResult(old(db.store), routeId, reply)
    ensures db.store.Valid()
  {
    UpdatedKeepsValid(db.store, routeId, reply);
    var session := new Session(db);
    if routeId !in session.store.routes {
      return Err(AttributeError);
    }
    PutSame(db.store, routeId);
    var attempt := Attempt(session, routeId, reply);
    if attempt.Err? {
      return Err(attempt.error);
    }
    var outcome := session.Commit();
    if outcome == RaisedAlreadyExists {
      return Err(UowAlreadyExists);
    }
    if outcome == RaisedUowError {
      return Err(UowError);
    }
    if attempt.value.Some? {
      return Err(attempt.value.value);
    }
    return Ok(());
  }

  lemma RowUpdateKeepsValid(s: Store, r: Id, row: Route, rules: set<Rule>)
    requires s.Valid() && r in s.routes && SameIdentity(s.routes[r], row) && row.community == s.routes[r].community
    requires rules <= s.rules
    ensures s.(routes := s.routes[r := row], rules := rules).Valid()
  {
    var cell := Cell(row, RulesOf(rules, r));
    PutKeepsColumns(s.routes, r, row);
  }

  lemma RowUpdateIsPut(s: Store, r: Id, row: Route)
    requires r in s.routes
    ensures s.(routes := s.routes[r := row]) == Put(s, r, CellOf(s, r).(row := row))
  {
    assert (s.rules - RulesOf(s.rules, r)) + RulesOf(s.rules, r) == s.rules;
  }

  // ---------------------------------------------------------------- what a refresh guarantees

  /**
   The rules of a route are all the old ones or all the document's. They are replaced only by a call that
   returns normally and leaves the route UP; a failure that is recorded in the status keeps the old rules even
   though its transaction commits, and any other failure changes nothing.
   */
  lemma AllOrNothing(s: Store, r: Id, reply: Reply)
    requires s.Valid() && r in s.routes
    ensures
      var s' := Updated(s, r, reply);
      var result := UpdateResult(s, r, reply);
      && (result.Ok? ==>
            && s'.routes[r].status == Up
            && s'.routes[r].lastContact == reply.at
            && reply.response.Fetched?
            && ParseAuthorization(reply.response.document).Ok?
            && RulesOf(s'.rules, r) ==
                 DocumentRules(s.users, s.groups, r, ParseAuthorization(reply.response.document).value))
      && (result.Err? ==>
            && RulesOf(s'.rules, r) == RulesOf(s.rules, r)
            && s'.routes[r] == s.routes[r].(status := s'.routes[r].status)
            && (result.error in {ConnectionError, ValidationError, MissingEntities, ClientError}
                <==> Judge(s.users, s.groups, r, reply.response).Mark?)
            && (result.error !in {ConnectionError, ValidationError, MissingEntities, ClientError} ==> s' == s))
      && s'.routes[r].verification == s.routes[r].verification
      && (forall q :: q in s.routes && q != r ==> CellOf(s', q) == CellOf(s, q))
  {
    UpdateFits(s, r, reply);
    PutThenRead(s, r, UpdateCell(s, r, reply));
    PutSame(s, r);
    assert CellOf(Updated(s, r, reply), r) == UpdateCell(s, r, reply);
  }

  /** A refresh succeeds exactly on a document with both sections, no unknown or repeated name, none on both sides. */
  lemma RefreshSucceedsExactly(s: Store, r: Id, reply: Reply)
    requires s.Valid() && r in s.routes
    ensures UpdateResult(s, r, reply).Ok? <==>
      && reply.response.Fetched?
      && reply.response.document.allowed.Some? && reply.response.document.disallowed.Some?
      && var allowed, denied := reply.response.document.allowed.value, reply.response.document.disallowed.value;
      && Distinct(Given(allowed.users) + Given(denied.users))
      && Distinct(Given(allowed.groups) + Given(denied.groups))
      && (forall x :: x in Given(allowed.users) + Given(denied.users) ==> x in Uids(s.users).Values)
      && (forall x :: x in Given(allowed.groups) + Given(denied.groups) ==> x in GroupNames(s.groups).Values)
  {
    if reply.response.Fetched? && ParseAuthorization(reply.response.document).Ok? {
      AcceptableExactly(s.users, s.groups, ParseAuthorization(reply.response.document).value);
    }
  }

  /** All names of the four lists are known, and none is repeated within its list. */
  ghost predicate NamesResolve(s: Store, doc: Document)
    requires doc.allowed.Some? && doc.disallowed.Some?
  {
    var allowed, denied := doc.allowed.value, doc.disallowed.value;
    && Distinct(Given(allowed.users)) && Distinct(Given(denied.users))
    && Distinct(Given(allowed.groups)) && Distinct(Given(denied.groups))
    && (forall x :: x in Given(allowed.users) || x in Given(denied.users) ==> x in Uids(s.users).Values)
    && (forall x :: x in Given(allowed.groups) || x in Given(denied.groups) ==> x in GroupNames(s.groups).Values)
  }

  ghost predicate OnBothSides(doc: Document)
    requires doc.allowed.Some? && doc.disallowed.Some?
  {
    || (exists x :: x in Given(doc.allowed.value.users) && x in Given(doc.disallowed.value.users))
    || (exists x :: x in Given(doc.allowed.value.groups) && x in Given(doc.disallowed.value.groups))
  }

  function WithStatus(s: Store, r: Id, status: Status): Store
    requires r in s.routes
  {
    s.(routes := s.routes[r := s.routes[r].(status := status)])
  }

  /** Each way to fail has its own status and error, or its own error and no effect at all. */
  lemma FailureTable(s: Store, r: Id, reply: Reply)
    requires r in s.routes
    ensures
      var s', result := Updated(s, r, reply), UpdateResult(s, r, reply);
      match reply.response
      case ConnectionFailed => s' == WithStatus(s, r, Down) && result == Err(ConnectionError)
      case SchemaInvalid => s' == WithStatus(s, r, Misconfigured) && result == Err(ValidationError)
      case ClientFailed => s' == WithStatus(s, r, ServerError) && result == Err(ClientError)
      case Undecodable => s' == s && result == Err(ApiError)
      case SessionFailed => s' == s && result == Err(SessionError)
      case Fetched(doc) =>
        if doc.allowed.None? || doc.disallowed.None? then s' == s && result == Err(KeyError)
        else if !NamesResolve(s, doc) then s' == WithStatus(s, r, MissingEntity) && result == Err(MissingEntities)
        else if OnBothSides(doc) then s' == s && result == Err(UowAlreadyExists)
        else s'.routes[r].status == Up && result == Ok(())
  {
    PutSame(s, r);
    RowUpdateIsPut(s, r, UpdateCell(s, r, reply).row);
  }

  /** A task for a route that is not stored does nothing and fails. */
  lemma UnknownRoute(s: Store, r: Id, reply: Reply)
    requires r !in s.routes
    ensures Updated(s, r, reply) == s && UpdateResult(s, r, reply) == Err(AttributeError)
  {
  }

  lemma AcceptableExactly(users: map<Id, User>, groups: map<Id, Group>, a: Authorization)
    ensures Resolves(users, groups, a) && !Contradicts(a) <==>
      && Distinct(a.allowed.users + a.disallowed.users)
      && Distinct(a.allowed.groups + a.disallowed.groups)
      && (forall x :: x in a.allowed.users + a.disallowed.users ==> x in Uids(users).Values)
      && (forall x :: x in a.allowed.groups + a.disallowed.groups ==> x in GroupNames(groups).Values)
  {
    DistinctJoin(a.allowed.users, a.disallowed.users);
    DistinctJoin(a.allowed.groups, a.disallowed.groups);
  }

  lemma DistinctJoin(a: seq<string>, b: seq<string>)
    ensures Distinct(a + b) <==> Distinct(a) && Distinct(b) && !exists x :: x in a && x in b
  {
    var c := a + b;
    if Distinct(a) && Distinct(b) && !exists x :: x in a && x in b {
      JoinEnumerations(a, ToSet(a), b, ToSet(b));
    }
    if Distinct(c) {
      assert a == c[..|a|];
      forall i, j | 0 <= i < j < |b|
        ensures b[i] != b[j]
      {
        assert c[|a| + i] == b[i] && c[|a| + j] == b[j];
      }
    }
  }

  /** Running the same refresh again, as the task queue does after a failure, leaves the status and rules of one run. */
  lemma RetrySafe(s: Store, r: Id, first: Reply, again: Reply)
    requires s.Valid() && first.response == again.response
    ensures
      var once := Updated(s, r, first);
      var twice := Updated(once, r, again);
      && UpdateResult(once, r, again) == UpdateResult(s, r, first)
      && (r !in s.routes ==> twice == once)
      && (r in s.routes ==>
            twice == once.(routes := once.routes[r := once.routes[r].(lastContact := twice.routes[r].lastContact)]))
  {
    if r in s.routes {
      var once := Updated(s, r, first);
      UpdateFits(s, r, first);
      PutThenRead(s, r, UpdateCell(s, r, first));
      UpdatedKeepsValid(s, r, first);
      PutSame(once, r);
      RowUpdateIsPut(once, r, UpdateCell(once, r, again).row);
    }
  }
}
