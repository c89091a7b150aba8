/** The registry as a transition system: one step per committed workflow, and what holds over every run. */
module Runs {
  import opened Common
  import opened Models
  import opened Schema
  import opened UnitOfWork
  import opened Repository
  import opened Refresh
  import opened Sweep
  import opened Registration
  import opened Communities
  import opened Domains

  datatype Config = Config(bindSubdomain: bool, tunnelUrl: string, staleDuration: int, isUuid: string -> bool)

  datatype Step =
    | Register(req: Request, communityText: Option<string>, draw: Draw)
    | RefreshTask(route: Id, reply: Reply)
    | SweepRoutes(now: Time, replies: Id -> Reply)
    | UnverifyOne(route: Id)
    | AddUser(id: Id, user: User)
    | AddGroup(id: Id, group: Group)
    | AddDomain(id: Id, name: string, value: string)
    | ChooseDefault(id: Id)
    | AddCommunity(id: Id, uid: string, name: string)
    | Join(uid: string, route: Id, text: string)
    | Leave(uid: string, route: Id, community: Id)

  ghost predicate OwnsCommunity(s: Store, community: Id, uid: string)
    requires community in s.communities
  {
    uid in Uids(s.users).Values && s.communities[community].owner == Holder(Uids(s.users), uid).value
  }

  /** The registration endpoint's lookup: a named community must be one of the caller's own. */
  ghost function OwnCommunity(s: Store, isUuid: string -> bool, uid: string, text: Option<string>)
    : (r: Result<Option<Id>>)
    ensures r.Ok? && r.value.Some? ==> r.value.value in s.communities && OwnsCommunity(s, r.value.value, uid)
    ensures r.Ok? && r.value.Some? ==>
      && text.Some?
      && if isUuid(text.value) then r.value.value == text.value
         else s.communities[r.value.value].name == text.value
  {
    if text.None? || text.value == "" then Ok(None)
    else if uid !in Uids(s.users).Values then Err(RepoNotFound)
    else
      var found := FindCommunity(s.communities, isUuid, text.value, Holder(Uids(s.users), uid));
      if found.Err? then found
      else if found.value.None? then Err(BadRequest)
      else
        assert found.value.value in Candidates(s.communities, isUuid, text.value, Holder(Uids(s.users), uid));
        found
  }

  /** In a valid store the lookup finds exactly the caller's community of that id or name, and is never ambiguous. */
  lemma OwnCommunityExactly(s: Store, isUuid: string -> bool, uid: string, text: string)
    requires s.ValidCommunities() && text != "" && uid in Uids(s.users).Values
    ensures
      var r := OwnCommunity(s, isUuid, uid, Some(text));
      && (r == Err(BadRequest) || (r.Ok? && r.value.Some?))
      && forall c :: r == Ok(Some(c)) <==>
           && c in s.communities && OwnsCommunity(s, c, uid)
           && (if isUuid(text) then c == text else s.communities[c].name == text)
  {
    var found := Candidates(s.communities, isUuid, text, Holder(Uids(s.users), uid));
    forall c, e | c in found && e in found
      ensures c == e
    {
      assert isUuid(text) || s.communities[c] == s.communities[e];
    }
    if c :| c in found {
      assert found == {c};
    }
    forall c
      ensures OwnCommunity(s, isUuid, uid, Some(text)) == Ok(Some(c)) <==> c in found
    {
    }
  }

  lemma NoOwnCommunity(s: Store, isUuid: string -> bool, uid: string, text: Option<string>)
    ensures text == None || text == Some("") ==> OwnCommunity(s, isUuid, uid, text) == Ok(None)
    ensures text != None && text != Some("") && uid !in Uids(s.users).Values ==>
      OwnCommunity(s, isUuid, uid, text) == Err(RepoNotFound)
  {
  }

  ghost function EndpointRegistered(cfg: Config, s: Store, req: Request, text: Option<string>, draw: Draw): Store {
    var own := OwnCommunity(s, cfg.isUuid, req.uid, text);
    if own.Err? then s else Registered(s, cfg.bindSubdomain, req, own.value, cfg.tunnelUrl, draw)
  }

  ghost function EndpointResult(cfg: Config, s: Store, req: Request, text: Option<string>, draw: Draw): Result<Id> {
    var own := OwnCommunity(s, cfg.isUuid, req.uid, text);
    if own.Err? then Err(own.error) else RegisterResult(s, cfg.bindSubdomain, req, own.value, cfg.tunnelUrl, draw)
  }

  ghost function Apply(cfg: Config, s: Store, step: Step): Store {
    match step
    case Register(req, text, draw) => EndpointRegistered(cfg, s, req, text, draw)
    case RefreshTask(route, reply) => Updated(s, route, reply)
    case SweepRoutes(now, replies) => SweepAll(s, now, cfg.staleDuration, replies)
    case UnverifyOne(route) => Unverify(s, route)
    case AddUser(id, user) => AfterCommit(s, Insert(s, NewUser(id, user)))
    case AddGroup(id, group) => AfterCommit(s, Insert(s, NewGroup(id, group)))
    case AddDomain(id, name, value) => DomainCreated(s, id, ApiDomain(name, value))
    case ChooseDefault(id) => DefaultSet(s, id)
    case AddCommunity(id, uid, name) => CommunityCreated(s, id, uid, name)
    case Join(uid, route, text) => AfterJoin(s, cfg.isUuid, uid, route, text)
    case Leave(uid, route, community) => AfterLeave(s, uid, route, community)
  }

  ghost function Run(cfg: Config, s: Store, steps: seq<Step>): Store
    decreases |steps|
  {
    if steps == [] then s
    else
      var n := |steps| - 1;
      Apply(cfg, Run(cfg, s, steps[..n]), steps[n])
  }

  // ---------------------------------------------------------------- validity

  lemma JoinKeepsValid(s: Store, isUuid: string -> bool, uid: string, route: Id, text: string)
    requires s.Valid()
    ensures AfterJoin(s, isUuid, uid, route, text).Valid()
  {
    var r := JoinResult(s, isUuid, uid, route, text);
    if r.Ok? && r.value.Some? {
      if Insert(s, NewRequest(r.value.value)).Stored? {
        InsertKeepsValid(s, NewRequest(r.value.value));
      }
    } else if r.Ok? {
      var found := FindCommunity(s.communities, isUuid, text, None).value;
      assert found.value in Candidates(s.communities, isUuid, text, None);
      MoveKeepsValid(s, route, found);
    }
  }

  lemma CommitKeepsValid(s: Store, row: Row)
    requires s.Valid()
    ensures AfterCommit(s, Insert(s, row)).Valid()
  {
    if Insert(s, row).Stored? {
      InsertKeepsValid(s, row);
    }
  }

  lemma UnverifyKeepsValid(s: Store, r: Id)
    requires s.Valid()
    ensures Unverify(s, r).Valid()
  {
    if r in s.routes {
      RowUpdateKeepsValid(s, r, UnverifiedRow(s.routes[r]), s.rules);
      assert s.(routes := s.routes[r := UnverifiedRow(s.routes[r])], rules := s.rules) == Unverify(s, r);
    }
  }

  lemma RegisterKeepsValid(cfg: Config, s: Store, req: Request, text: Option<string>, draw: Draw)
    requires s.Valid()
    ensures EndpointRegistered(cfg, s, req, text, draw).Valid()
  {
    var own := OwnCommunity(s, cfg.isUuid, req.uid, text);
    if own.Ok? {
      var plan := Decide(s, cfg.bindSubdomain, req, own.value, cfg.tunnelUrl, draw);
      if plan.Ok? {
        CompleteKeepsValid(s, plan.value);
      }
    }
  }

  lemma LeaveKeepsValid(s: Store, uid: string, route: Id, community: Id)
    requires s.Valid()
    ensures AfterLeave(s, uid, route, community).Valid()
  {
    if LeaveResult(s, uid, route, community).Ok? {
      MoveKeepsValid(s, route, None);
    }
  }

  /** Every step keeps every key and reference of the schema. */
  lemma ApplyKeepsValid(cfg: Config, s: Store, step: Step)
    requires s.Valid()
    ensures Apply(cfg, s, step).Valid()
  {
    match step
    case Register(req, text, draw) => RegisterKeepsValid(cfg, s, req, text, draw);
    case RefreshTask(route, reply) => UpdatedKeepsValid(s, route, reply);
    case SweepRoutes(now, replies) => SweptKeepsValid(s, ActiveRoutes(s.routes), now, cfg.staleDuration, replies);
    case UnverifyOne(route) => UnverifyKeepsValid(s, route);
    case AddUser(id, user) => CommitKeepsValid(s, NewUser(id, user));
    case AddGroup(id, group) => CommitKeepsValid(s, NewGroup(id, group));
    case AddDomain(id, name, value) => CommitKeepsValid(s, NewDomain(id, ApiDomain(name, value)));
    case ChooseDefault(id) => DefaultKeepsValid(s, id);
    case AddCommunity(id, uid, name) =>
      if uid in Uids(s.users).Values {
        CommitKeepsValid(s, CommunityRow(s, id, uid, name));
      }
    case Join(uid, route, text) => JoinKeepsValid(s, cfg.isUuid, uid, route, text);
    case Leave(uid, route, community) => LeaveKeepsValid(s, uid, route, community);
  }

  lemma {:induction false} RunKeepsValid(cfg: Config, s: Store, steps: seq<Step>)
    requires s.Valid()
    ensures Run(cfg, s, steps).Valid()
    decreases |steps|
  {
    if steps != [] {
      var n := |steps| - 1;
      RunKeepsValid(cfg, s, steps[..n]);
      ApplyKeepsValid(cfg, Run(cfg, s, steps[..n]), steps[n]);
    }
  }
}
