/** The registration and token endpoints: what they do to the store, what they enqueue, which token they answer with. */
module Endpoints {
  import opened Common
  import opened Models
  import opened Schema
  import opened UnitOfWork
  import opened Repository
  import opened Registration
  import opened Communities
  import opened Runs

  datatype Job = UpdateRouteJob(route: Id) | NotifyJob

  /** The task broker: jobs in the order they were delayed. */
  class Broker {
    var jobs: seq<Job>

    constructor ()
      ensures jobs == []
    {
      jobs := [];
    }

    method Delay(job: Job)
      modifies this
      ensures jobs == old(jobs) + [job]
    {
      jobs := jobs + [job];
    }
  }

  /** The claims of a tunnel token (RFC 7519, section 4.1), with its times as instants. */
  datatype Claims = Claims(sub: Id, endpoints: seq<Id>, iat: Time, exp: Time, nbf: Time)

  /** `create_piko_jwt`: an absent or zero lifespan, in seconds, means the configured one. */
  function PikoClaims(route: Id, now: Time, lifespan: Option<int>, configured: int): (c: Claims)
    ensures c.sub == route && c.endpoints == [c.sub] && c.nbf == c.iat == now
    ensures configured > 0 && (lifespan.Some? ==> lifespan.value >= 0) ==> c.nbf < c.exp
    ensures lifespan == None || lifespan == Some(0) ==> c.exp - c.iat == configured * SECOND
    ensures lifespan.Some? && lifespan.value != 0 ==> c.exp - c.iat == lifespan.value * SECOND
  {
    var seconds := if lifespan.Some? && lifespan.value != 0 then lifespan.value else configured;
    Claims(route, [route], now, now + seconds * SECOND, now)
  }

  /** Rotation is for stored VERIFIED routes; whether the presented token passes its checks is `presentable`. */
  predicate MayRotate(s: Store, presentable: bool, sub: Id) {
    presentable && sub in s.routes && s.routes[sub].verification == Verified
  }

  /** `JWTAuthenticator.__call__`. */
  method Authenticate(db: Database, presentable: bool, sub: Id) returns (r: Result<Route>)
    ensures r.Ok? <==> presentable && sub in db.store.routes && db.store.routes[sub].verification == Verified
    ensures r.Ok? ==> r.value == db.store.routes[sub]
    ensures r.Err? ==> r.error == Unauthorized
  {
    if !presentable {
      return Err(Unauthorized);
    }
    var session := new Session(db);
    if sub !in session.store.routes {
      return Err(Unauthorized);
    }
    var route := session.store.routes[sub];
    if route.verification != Verified {
      return Err(Unauthorized);
    }
    return Ok(route);
  }

  /** `POST /jwt`, with the clock read when the token is made: a DOWN route is queued for a refresh, no other is. */
  method RotateJwt(db: Database, broker: Broker, presentable: bool, sub: Id, now: Time, configured: int)
    returns (r: Result<Claims>)
    modifies broker
    ensures r.Ok? <==> presentable && sub in db.store.routes && db.store.routes[sub].verification == Verified
    ensures r == if r.Ok? then Ok(PikoClaims(sub, now, None, configured)) else Err(Unauthorized)
    ensures broker.jobs == old(broker.jobs) +
      if r.Ok? && db.store.routes[sub].status == Down then [UpdateRouteJob(sub)] else []
  {
    var route := Authenticate(db, presentable, sub);
    if route.Err? {
      return Err(Unauthorized);
    }
    if route.value.status == Down {
      broker.Delay(UpdateRouteJob(sub));
    }
    return Ok(PikoClaims(sub, now, None, configured));
  }

  /** The community a registration names, if any, which must be one of the caller's own. */
  method GetOwnCommunity(db: Database, isUuid: string -> bool, uid: string, text: Option<string>)
    returns (r: Result<Option<Id>>)
    requires Injective(Uids(db.store.users))
    ensures r == OwnCommunity(db.store, isUuid, uid, text)
  {
    if text.None? || text.value == "" {
      return Ok(None);
    }
    var user := FindBy(Uids(db.store.users), uid);
    if user.None? {
      return Err(RepoNotFound);
    }
    var found := GetCommunity(db.store.communities, isUuid, text.value, user);
    if found.Ok? && found.value.None? {
      return Err(BadRequest);
    }
    return found;
  }

  /** `POST /route`: find the caller's community, register, queue a refresh and a notification, issue a token. */
  method RegisterEndpoint(db: Database, broker: Broker, cfg: Config, req: Request, text: Option<string>, draw: Draw,
      now: Time, configured: int) returns (r: Result<Claims>)
    requires db.store.Valid()
    modifies db, broker
    ensures db.store == Apply(cfg, old(db.store), Register(req, text, draw)) && db.store.Valid()
    ensures
      var id := EndpointResult(cfg, old(db.store), req, text, draw);
      && r == (if id.Ok? then Ok(PikoClaims(id.value, now, None, configured)) else Err(id.error))
      && broker.jobs == old(broker.jobs) + if id.Ok? then [UpdateRouteJob(id.value), NotifyJob] else []
  {
    var community := GetOwnCommunity(db, cfg.isUuid, req.uid, text);
    if community.Err? {
      return Err(community.error);
    }
    var id := RegisterRoute(db, cfg.bindSubdomain, req, community.value, cfg.tunnelUrl, draw);
    if id.Err? {
      return Err(id.error);
    }
    broker.Delay(UpdateRouteJob(id.value));
    broker.Delay(NotifyJob);
    return Ok(PikoClaims(id.value, now, None, configured));
  }

  /** `list_available_routes`: whatever a late refresh may have done to their status, only VERIFIED and UP routes. */
  method ListAvailableRoutes(db: Database) returns (found: set<Id>)
    ensures forall r :: r in found <==>
      r in db.store.routes && db.store.routes[r].verification == Verified && db.store.routes[r].status == Up
  {
    var session := new Session(db);
    found := ListRoutes(session.store.routes, (name, pattern) => false, Some(Verified), Some(Up), None, None);
  }
}
