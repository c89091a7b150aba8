/** Communities, and moving routes in and out of them. */
module Communities {
  import opened Common
  import opened Models
  import opened Schema
  import opened UnitOfWork
  import opened Repository
  import opened Cells
  import opened Refresh

  /** `CommunityRepo.get`: text that parses as a UUID (`isUuid`) is looked up as an id, any other as a name. */
  function Candidates(communities: map<Id, Community>, isUuid: string -> bool, text: string, owner: Option<Id>)
    : set<Id>
  {
    set c | c in communities && (if isUuid(text) then c == text else communities[c].name == text)
      && (owner.Some? ==> communities[c].owner == owner.value)
  }

  /** Every generated community id parses as a UUID. */
  ghost predicate UuidKeys(communities: map<Id, Community>, isUuid: string -> bool) {
    forall c :: c in communities ==> isUuid(c)
  }

  ghost function FindCommunity(communities: map<Id, Community>, isUuid: string -> bool, text: string, owner: Option<Id>)
    : (r: Result<Option<Id>>)
    ensures r.Ok? && r.value.Some? ==> Candidates(communities, isUuid, text, owner) == {r.value.value}
  {
    var found := Candidates(communities, isUuid, text, owner);
    if found == {} then Ok(None)
    else if |found| > 1 then Err(MultipleResults)
    else
      var c :| c in found;
      assert |found - {c}| == 0;
      Ok(Some(c))
  }

  method GetCommunity(communities: map<Id, Community>, isUuid: string -> bool, text: string, owner: Option<Id>)
    returns (r: Result<Option<Id>>)
    ensures r == FindCommunity(communities, isUuid, text, owner)
  {
    var found := Candidates(communities, isUuid, text, owner);
    if found == {} {
      return Ok(None);
    } else if |found| > 1 {
      return Err(MultipleResults);
    }
    var c :| c in found;
    assert |Candidates(communities, isUuid, text, owner) - {c}| == 0;
    return Ok(Some(c));
  }

  // ---------------------------------------------------------------- create_community

  ghost function CommunityRow(s: Store, id: Id, uid: string, name: string): Row
    requires uid in Uids(s.users).Values
  {
    NewCommunity(id, Community(Holder(Uids(s.users), uid).value, name))
  }

  ghost function CommunityCreated(s: Store, id: Id, uid: string, name: string): Store {
    if uid !in Uids(s.users).Values then s
    else AfterCommit(s, Insert(s, CommunityRow(s, id, uid, name)))
  }

  method CreateCommunity(db: Database, id: Id, uid: string, name: string) returns (r: Result<Id>)
    requires db.store.Valid()
    modifies db
    ensures db.store == CommunityCreated(old(db.store), id, uid, name) && db.store.Valid()
    ensures
      var s := old(db.store);
      var known := uid in Uids(s.users).Values;
      && (r == Err(RepoNotFound) <==> !known)
      && (known ==>
            var row := Community(Holder(Uids(s.users), uid).value, name);
            && (r == Err(UowError) <==> |name| > 128)
            && (r == Err(AlreadyExists) <==> |name| <= 128 && (id in s.communities || row in s.communities.Values))
            && (r == Ok(id) <==> |name| <= 128 && id !in s.communities && row !in s.communities.Values)
            && (r.Ok? ==> db.store == s.(communities := s.communities[id := row])))
      && (r.Err? ==> db.store == s)
  {
    var session := new Session(db);
    var user := FindBy(Uids(session.store.users), uid);
    if user.None? {
      return Err(RepoNotFound);
    }
    var row := NewCommunity(id, Community(user.value, name));
    session.Add(row);
    ghost var before := db.store;
    assert InsertAll(before, [row]) == Insert(before, row);
    var outcome := session.Commit();
    if outcome == RaisedAlreadyExists {
      return Err(AlreadyExists);
    }
    if outcome == RaisedUowError {
      return Err(UowError);
    }
    return Ok(id);
  }

  // ---------------------------------------------------------------- add_route_to_community

  function RequestOf(user: Id, text: string, route: Id): MembershipRequest {
    MembershipRequest(user, text, route, PendingRequest)
  }

  ghost function RequestHeld(requests: set<MembershipRequest>, q: MembershipRequest): (r: Option<MembershipRequest>)
    ensures r.Some? <==> RequestKeyTaken(requests, q)
    ensures r.Some? ==>
      && r.value in requests
      && r.value.entity == q.entity && r.value.community == q.community && r.value.route == q.route
  {
    if RequestKeyTaken(requests, q) then
      var x :| x in requests && x.entity == q.entity && x.community == q.community && x.route == q.route;
      Some(x)
    else None
  }

  method GetRequest(requests: set<MembershipRequest>, q: MembershipRequest) returns (r: Option<MembershipRequest>)
    requires forall a, b | a in requests && b in requests ::
      a.entity == b.entity && a.community == b.community && a.route == b.route ==> a == b
    ensures r == RequestHeld(requests, q)
  {
    if RequestKeyTaken(requests, q) {
      var x :| x in requests && x.entity == q.entity && x.community == q.community && x.route == q.route;
      return Some(x);
    }
    return None;
  }

  /** What a call may return: the membership request made or found, or nothing when the route was moved. */
  type Joined = Result<Option<MembershipRequest>>

  ghost function JoinResult(s: Store, isUuid: string -> bool, uid: string, route: Id, text: string): Joined {
    if uid !in Uids(s.users).Values then Err(RepoNotFound)
    else if route !in s.routes then Err(NotFound)
    else
      var user := Holder(Uids(s.users), uid).value;
      var found := FindCommunity(s.communities, isUuid, text, None);
      if found.Err? then Err(found.error)
      else if found.value.None? then Err(NotFound)
      else if user !in s.routes[route].owners then
        var q := RequestOf(user, text, route);
        var held := RequestHeld(s.requests, q);
        if held.Some? then Ok(held)
        else if Insert(s, NewRequest(q)) == Violated(TooLong) then Err(UowError)
        else Ok(Some(q))
      else if s.routes[route].community == found.value then Err(AlreadyExists)
      else Ok(None)
  }

  ghost function AfterJoin(s: Store, isUuid: string -> bool, uid: string, route: Id, text: string): Store {
    var r := JoinResult(s, isUuid, uid, route, text);
    if r.Err? then s
    else if r.value.Some? then AfterCommit(s, Insert(s, NewRequest(r.value.value)))
    else
      var found := FindCommunity(s.communities, isUuid, text, None).value;
      s.(routes := s.routes[route := s.routes[route].(community := found)])
  }

  lemma MoveKeepsValid(s: Store, route: Id, community: Option<Id>)
    requires s.Valid() && route in s.routes && (community.Some? ==> community.value in s.communities)
    ensures s.(routes := s.routes[route := s.routes[route].(community := community)]).Valid()
  {
    var row := s.routes[route].(community := community);
    RowUpdateIsPut(s, route, row);
    assert Fits(s, route, CellOf(s, route).(row := row));
    PutKeepsValid(s, route, CellOf(s, route).(row := row));
  }

  /** The branch for a caller who does not own the route: find or file a request under the text of the call. */
  method AskToJoin(session: Session, user: Id, route: Id, text: string) returns (r: Joined)
    requires session.store.Valid() && session.pending == [] && session.store == session.db.store
    requires user in session.store.users && route in session.store.routes
    modifies session, session.db
    ensures
      var s := old(session.store);
      var q := RequestOf(user, text, route);
      var held := RequestHeld(s.requests, q);
      && r == (
           if held.Some? then Ok(held)
           else if Insert(s, NewRequest(q)) == Violated(TooLong) then Err(UowError)
           else Ok(Some(q)))
      && session.db.store == if r.Err? then s else AfterCommit(s, Insert(s, NewRequest(r.value.value)))
  {
    ghost var before := session.store;
    var q := RequestOf(user, text, route);
    var held := GetRequest(session.store.requests, q);
    if held.Some? {
      return Ok(held);
    }
    session.Add(NewRequest(q));
    assert InsertAll(before, [NewRequest(q)]) == Insert(before, NewRequest(q));
    var outcome := session.Commit();
    if outcome == RaisedUowError {
      return Err(UowError);
    }
    return Ok(Some(q));
  }

  method AddRouteToCommunity(db: Database, isUuid: string -> bool, uid: string, route: Id, text: string)
    returns (r: Joined)
    requires db.store.Valid()
    modifies db
    ensures r == JoinResult(old(db.store), isUuid, uid, route, text)
    ensures db.store == AfterJoin(old(db.store), isUuid, uid, route, text)
    ensures db.store.Valid()
  {
    var session := new Session(db);
    var store := session.store;
    var user := FindBy(Uids(store.users), uid);
    if user.None? {
      return Err(RepoNotFound);
    }
    if route !in store.routes {
      return Err(NotFound);
    }
    var found := GetCommunity(store.communities, isUuid, text, None);
    if found.Err? {
      return Err(found.error);
    }
    if found.value.None? {
      return Err(NotFound);
    }
    if user.value !in store.routes[route].owners {
      r := AskToJoin(session, user.value, route, text);
      if r.Ok? && Insert(store, NewRequest(r.value.value)).Stored? {
        InsertKeepsValid(store, NewRequest(r.value.value));
      }
      return r;
    }
    if store.routes[route].community == found.value {
      return Err(AlreadyExists);
    }
    assert found.value.value in Candidates(store.communities, isUuid, text, None);
    MoveKeepsValid(store, route, found.value);
    session.store := store.(routes := store.routes[route := store.routes[route].(community := found.value)]);
    var outcome := session.Commit();
    return Ok(None);
  }

  /**
   A request is filed under the text of the call, not under the id of the community it found. So a call by a caller
   who does not own the route answers with a pending request whether the community was given by id or by name, but
   the request is in the table afterwards only if it was given by id: a name breaks the foreign key and the commit
   rolls back without a word, except that a name wider than the column is an error.
   */
  lemma RequestIsStoredExactlyById(s: Store, isUuid: string -> bool, uid: string, route: Id, text: string)
    requires s.Valid() && UuidKeys(s.communities, isUuid) && (forall c :: c in s.communities ==> |c| <= 36)
    requires uid in Uids(s.users).Values && route in s.routes
    requires Holder(Uids(s.users), uid).value !in s.routes[route].owners
    requires FindCommunity(s.communities, isUuid, text, None).Ok?
    requires FindCommunity(s.communities, isUuid, text, None).value.Some?
    ensures
      var r := JoinResult(s, isUuid, uid, route, text);
      var s' := AfterJoin(s, isUuid, uid, route, text);
      && (r.Err? <==> !isUuid(text) && |text| > 36)
      && (r.Ok? ==>
            && r.value.Some? && (r.value.value in s'.requests <==> isUuid(text))
            && r.value.value.entity == Holder(Uids(s.users), uid).value
            && r.value.value.community == text && r.value.value.route == route
            && (r.value.value in s.requests || r.value.value.status == PendingRequest))
      && (!isUuid(text) ==> s' == s)
  {
    var user := Holder(Uids(s.users), uid).value;
    var c := FindCommunity(s.communities, isUuid, text, None).value.value;
    assert c in Candidates(s.communities, isUuid, text, None);
    var q := RequestOf(user, text, route);
    if RequestKeyTaken(s.requests, q) {
      var x := RequestHeld(s.requests, q).value;
      assert RequestKeyTaken(s.requests, x);
    }
  }

  /** Asking again answers the same and changes nothing more. */
  lemma AskingAgainChangesNothing(s: Store, isUuid: string -> bool, uid: string, route: Id, text: string)
    requires s.Valid() && JoinResult(s, isUuid, uid, route, text).Ok?
    requires JoinResult(s, isUuid, uid, route, text).value.Some?
    ensures
      var s' := AfterJoin(s, isUuid, uid, route, text);
      && JoinResult(s', isUuid, uid, route, text) == JoinResult(s, isUuid, uid, route, text)
      && AfterJoin(s', isUuid, uid, route, text) == s'
  {
    var s' := AfterJoin(s, isUuid, uid, route, text);
    var q := JoinResult(s, isUuid, uid, route, text).value.value;
    if Insert(s, NewRequest(q)).Stored? {
      assert s'.requests == s.requests + {q};
      assert q in s'.requests && RequestKeyTaken(s'.requests, q);
    }
  }

  // ---------------------------------------------------------------- remove_route_from_community

  /** The caller owns the route, and it is in the community named. */
  ghost predicate MayLeave(s: Store, uid: string, route: Id, community: Id) {
    && uid in Uids(s.users).Values && route in s.routes
    && Holder(Uids(s.users), uid).value in s.routes[route].owners
    && s.routes[route].community == Some(community)
  }

  ghost function LeaveResult(s: Store, uid: string, route: Id, community: Id): Result<()> {
    if uid !in Uids(s.users).Values then Err(RepoNotFound)
    else if route !in s.routes || Holder(Uids(s.users), uid).value !in s.routes[route].owners
      || s.routes[route].community != Some(community) then Err(NotFound)
    else Ok(())
  }

  ghost function AfterLeave(s: Store, uid: string, route: Id, community: Id): Store {
    if LeaveResult(s, uid, route, community).Err? then s
    else s.(routes := s.routes[route := s.routes[route].(community := None)])
  }

  method RemoveRouteFromCommunity(db: Database, uid: string, route: Id, community: Id) returns (r: Result<()>)
    requires db.store.Valid()
    modifies db
    ensures r == LeaveResult(old(db.store), uid, route, community)
    ensures db.store == AfterLeave(old(db.store), uid, route, community)
    ensures
      var s := old(db.store);
      && (r == Err(RepoNotFound) <==> uid !in Uids(s.users).Values)
      && (r.Ok? <==> MayLeave(s, uid, route, community))
      && (r.Err? && uid in Uids(s.users).Values ==> r.error == NotFound)
      && db.store == if r.Ok? then s.(routes := s.routes[route := s.routes[route].(community := None)]) else s
    ensures db.store.Valid()
  {
    var session := new Session(db);
    var store := session.store;
    var user := FindBy(Uids(store.users), uid);
    if user.None? {
      return Err(RepoNotFound);
    }
    var owned := set x | x in store.routes && user.value in store.routes[x].owners;
    if route !in owned {
      return Err(NotFound);
    }
    if store.routes[route].community.None? || store.routes[route].community.value != community {
      return Err(NotFound);
    }
    MoveKeepsValid(store, route, None);
    session.store := store.(routes := store.routes[route := store.routes[route].(community := None)]);
    var outcome := session.Commit();
    return Ok(());
  }

  /** Adding a route to a community and removing it again leaves it in no community and nothing else changed. */
  lemma LeaveUndoesJoin(s: Store, isUuid: string -> bool, uid: string, route: Id, text: string)
    requires s.Valid() && JoinResult(s, isUuid, uid, route, text) == Ok(None)
    ensures
      var s' := AfterJoin(s, isUuid, uid, route, text);
      var community := FindCommunity(s.communities, isUuid, text, None).value.value;
      && LeaveResult(s', uid, route, community) == Ok(())
      && AfterLeave(s', uid, route, community) == s.(routes := s.routes[route := s.routes[route].(community := None)])
  {
  }
}
