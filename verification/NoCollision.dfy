/** When two registrations can ask for the same URL, and why user domains keep users apart. */
module NoCollision {
  import opened Common
  import opened Models
  import opened Schema
  import opened Repository
  import opened Cells
  import opened Registration
  import opened Runs
  import opened History
  import opened Invariants
  import opened Urls

  // ---------------------------------------------------------------- reachable stores

  /** What a uid contributes to the URLs of its user. */
  function Handle(bind: bool, uid: string): string {
    if bind then uid else Unslashed(uid)
  }

  /** No two users have uids that are the same to a URL, or extend one another by a dash. */
  ghost predicate UidsApart(bind: bool, users: map<Id, User>) {
    forall u, w :: u in users && w in users && u != w ==>
      !Meets(Handle(bind, users[u].uid), Handle(bind, users[w].uid))
  }

  /** No domain can be mistaken for part of another: by a label in subdomain mode, by a path segment in path mode. */
  ghost predicate Unambiguous(bind: bool, domains: map<Id, Domain>) {
    forall d, e :: d in domains && e in domains ==>
      if bind then !SubdomainOf(domains[d].value, domains[e].value)
      else !PathExtends(domains[d].value, domains[e].value)
  }

  /** The UUIDs that the registrations of a run have drawn. */
  function Drawn(steps: seq<Step>): set<string> {
    set i | 0 <= i < |steps| && steps[i].Register? :: steps[i].draw.uuid
  }

  /**
   Nothing that goes into a host name before the domain's value has a dot: no uid, no name of a route, no UUID drawn,
   nothing in the request at hand.
   */
  ghost predicate DotFree(s: Store, drawn: set<string>, req: Request, draw: Draw) {
    && (forall u :: u in s.users ==> '.' !in s.users[u].uid)
    && (forall r :: r in s.routes ==> '.' !in s.routes[r].name)
    && (forall x :: x in drawn ==> '.' !in x)
    && '.' !in req.uid && '.' !in req.name && '.' !in draw.uuid
  }

  /** Domains are kept apart by their values, or in subdomain mode by app names without dots. */
  ghost predicate KeptApart(bind: bool, s: Store, drawn: set<string>, req: Request, draw: Draw) {
    Unambiguous(bind, s.domains) || (bind && DotFree(s, drawn, req, draw))
  }

  /** The URL is the one its domain gives user `u` for its name, with one of the UUIDs drawn. */
  ghost predicate PublishedBy(s: Store, bind: bool, drawn: set<string>, row: Route, u: Id, uuid: string) {
    && row.domain in s.domains && u in s.users && row.owners == {u} && uuid in drawn
    && row.src == SrcUrl(s.domains[row.domain], row.name, s.users[u].uid, uuid, bind)
  }

  ghost predicate Published(s: Store, bind: bool, drawn: set<string>, row: Route) {
    exists u, uuid :: PublishedBy(s, bind, drawn, row, u, uuid)
  }

  lemma PublishedStays(s: Store, s': Store, bind: bool, drawn: set<string>, drawn': set<string>, row: Route,
      row': Route)
    requires Published(s, bind, drawn, row) && DirectoryGrows(s, s') && SameIdentity(row, row') && drawn <= drawn'
    ensures Published(s', bind, drawn', row')
  {
    var u, uuid :| PublishedBy(s, bind, drawn, row, u, uuid);
    assert PublishedBy(s', bind, drawn', row', u, uuid);
  }

  lemma NewRouteIsPublished(cfg: Config, s: Store, step: Step, r: Id)
    requires s.Valid() && r !in s.routes && r in Apply(cfg, s, step).routes
    ensures step.Register? && Published(s, cfg.bindSubdomain, {step.draw.uuid}, Apply(cfg, s, step).routes[r])
  {
    if !step.Register? {
      NoNewRoutes(cfg, s, step);
    } else {
      NewRouteRowIs(cfg, s, step.req, step.communityText, step.draw, r);
      var row := Apply(cfg, s, step).routes[r];
      var u := Holder(Uids(s.users), step.req.uid).value;
      assert row.owners == {u} && s.users[u].uid == step.req.uid;
      assert PublishedBy(s, cfg.bindSubdomain, {step.draw.uuid}, row, u, step.draw.uuid);
    }
  }

  /** Every route of every store reached from an empty route table is published by its one owner. */
  lemma {:induction false} EveryRouteIsPublished(cfg: Config, s: Store, steps: seq<Step>, r: Id)
    requires s.Valid() && s.routes == map[]
    requires r in Run(cfg, s, steps).routes
    ensures Published(Run(cfg, s, steps), cfg.bindSubdomain, Drawn(steps), Run(cfg, s, steps).routes[r])
    decreases |steps|
  {
    if steps != [] {
      var n := |steps| - 1;
      DrawnLast(steps);
      var before := Run(cfg, s, steps[..n]);
      var after := Run(cfg, s, steps);
      RunKeepsValid(cfg, s, steps[..n]);
      ApplyGrows(cfg, before, steps[n]);
      if r in before.routes {
        EveryRouteIsPublished(cfg, s, steps[..n], r);
        PublishedStays(before, after, cfg.bindSubdomain, Drawn(steps[..n]), Drawn(steps),
          before.routes[r], after.routes[r]);
      } else {
        NewRouteIsPublished(cfg, before, steps[n], r);
        PublishedStays(before, after, cfg.bindSubdomain, {steps[n].draw.uuid}, Drawn(steps),
          after.routes[r], after.routes[r]);
      }
    }
  }

  lemma DrawnLast(steps: seq<Step>)
    requires steps != []
    ensures Drawn(steps[..|steps| - 1]) <= Drawn(steps)
    ensures steps[|steps| - 1].Register? ==> steps[|steps| - 1].draw.uuid in Drawn(steps)
  {
    var n := |steps| - 1;
    forall x | x in Drawn(steps[..n])
      ensures x in Drawn(steps)
    {
      var i :| 0 <= i < n && steps[..n][i].Register? && steps[..n][i].draw.uuid == x;
      assert steps[i] == steps[..n][i];
    }
  }

  /** In either mode a URL determines its domain and its app name, in path mode up to a leading slash. */
  lemma UrlDetermines(bind: bool, domains: map<Id, Domain>, d: Id, e: Id, app: string, app': string)
    requires Unambiguous(bind, domains) || (bind && '.' !in app && '.' !in app')
    requires ValidDomains(domains) && d in domains && e in domains
    requires
      if bind then HostUrl(app, domains[d].value) == HostUrl(app', domains[e].value)
      else "https://" + domains[d].value + PathOf(app) == "https://" + domains[e].value + PathOf(app')
    ensures d == e
    ensures if bind then app == app' else PathOf(app) == PathOf(app')
  {
    if bind && '.' !in app && '.' !in app' {
      FirstLabelDetermines(app, domains[d].value, app', domains[e].value);
    } else if bind {
      UrlDeterminesDomain(app, domains[d].value, app', domains[e].value);
    } else {
      PathDeterminesDomain(app, domains[d].value, app', domains[e].value);
    }
    assert DomainValues(domains)[d] == DomainValues(domains)[e];
  }

  /**
   No collision in user domains. As long as domains are kept apart and uids are too, then in every
   store reached from an empty route table a URL determines its domain; and when a registration in a user domain meets
   an existing route, that route is in the same domain, has the same name and belongs to the caller.
   */
  lemma UserDomainsNeverCollide(cfg: Config, s: Store, steps: seq<Step>, req: Request, draw: Draw, r: Id)
    requires s.Valid() && s.routes == map[]
    requires
      var now := Run(cfg, s, steps);
      && UidsApart(cfg.bindSubdomain, now.users) && KeptApart(cfg.bindSubdomain, now, Drawn(steps), req, draw)
      && r in now.routes && RequestedSrc(now, cfg.bindSubdomain, req, draw) == Ok(now.routes[r].src)
    ensures
      var now := Run(cfg, s, steps);
      var d := ResolveDomain(now.domains, req.domainName).value;
      && now.routes[r].domain == d
      && (now.domains[d].kind == PerUser ==>
            now.routes[r].name == req.name && now.routes[r].owners == {Holder(Uids(now.users), req.uid).value})
  {
    RunKeepsValid(cfg, s, steps);
    EveryRouteIsPublished(cfg, s, steps, r);
    var now := Run(cfg, s, steps);
    PublishedDetermines(now, cfg.bindSubdomain, Drawn(steps), req, draw, r);
  }

  lemma PublishedDetermines(s: Store, bind: bool, drawn: set<string>, req: Request, draw: Draw, r: Id)
    requires s.Valid() && UidsApart(bind, s.users) && KeptApart(bind, s, drawn, req, draw)
    requires r in s.routes && Published(s, bind, drawn, s.routes[r])
    requires RequestedSrc(s, bind, req, draw) == Ok(s.routes[r].src)
    ensures
      var row := s.routes[r];
      var d := ResolveDomain(s.domains, req.domainName).value;
      && row.domain == d
      && (s.domains[d].kind == PerUser ==> row.name == req.name && row.owners == {Holder(Uids(s.users), req.uid).value})
  {
    var row := s.routes[r];
    var u, uuid :| PublishedBy(s, bind, drawn, row, u, uuid);
    var d := ResolveDomain(s.domains, req.domainName).value;
    var caller := Holder(Uids(s.users), req.uid).value;
    AppsMeet(s, bind, drawn, req, draw, row, u, uuid);
    assert s.users[caller].uid == req.uid;
    if s.domains[d].kind == PerUser {
      AppNameDetermines(Handle(bind, req.uid), req.name, Handle(bind, s.users[u].uid), row.name);
      assert u == caller;
    }
  }

  /** A request for the URL of a published route is for its domain, and in a user domain for its app name. */
  lemma AppsMeet(s: Store, bind: bool, drawn: set<string>, req: Request, draw: Draw, row: Route, u: Id, uuid: string)
    requires ValidDomains(s.domains) && KeptApart(bind, s, drawn, req, draw)
    requires PublishedBy(s, bind, drawn, row, u, uuid) && row in s.routes.Values
    requires RequestedSrc(s, bind, req, draw) == Ok(row.src)
    ensures row.domain == ResolveDomain(s.domains, req.domainName).value
    ensures s.domains[row.domain].kind == PerUser ==>
      Handle(bind, req.uid) + "-" + req.name == Handle(bind, s.users[u].uid) + "-" + row.name
  {
    var d := ResolveDomain(s.domains, req.domainName).value;
    var app := AppName(s.domains[d].kind, req.name, req.uid, draw.uuid);
    var app' := AppName(s.domains[row.domain].kind, row.name, s.users[u].uid, uuid);
    UrlDetermines(bind, s.domains, d, row.domain, app, app');
    if !bind && s.domains[d].kind == PerUser {
      UserPathOf(req.uid, req.name);
      UserPathOf(s.users[u].uid, row.name);
      assert PathOf(app)[1..] == PathOf(app')[1..];
    }
  }

  /** Under the same conditions a registration in a user domain is never refused because the URL is taken. */
  lemma UserDomainNeverTaken(cfg: Config, s: Store, steps: seq<Step>, req: Request, text: Option<string>, draw: Draw)
    requires s.Valid() && s.routes == map[]
    requires
      var now := Run(cfg, s, steps);
      && UidsApart(cfg.bindSubdomain, now.users) && KeptApart(cfg.bindSubdomain, now, Drawn(steps), req, draw)
      && ResolveDomain(now.domains, req.domainName).Ok?
      && now.domains[ResolveDomain(now.domains, req.domainName).value].kind == PerUser
      && !now.domains[ResolveDomain(now.domains, req.domainName).value].restricted
    ensures EndpointResult(cfg, Run(cfg, s, steps), req, text, draw) != Err(NotAllowed)
  {
    var now := Run(cfg, s, steps);
    RunKeepsValid(cfg, s, steps);
    RefusedExactly(cfg, now, req, text, draw);
    var src := RequestedSrc(now, cfg.bindSubdomain, req, draw);
    if src.Ok? && src.value in Srcs(now.routes).Values {
      UserDomainsNeverCollide(cfg, s, steps, req, draw, Holder(Srcs(now.routes), src.value).value);
    }
  }

  // ---------------------------------------------------------------- exactly when a user domain refuses

  /** Users `u` and `w` are different, and have names for one URL: `u` in user domain `d`, `w` in open domain `e`. */
  ghost predicate Clashing(bind: bool, users: map<Id, User>, domains: map<Id, Domain>, d: Id, u: Id, w: Id, e: Id)
    requires d in domains
  {
    && u in users && w in users && u != w && e in domains && !domains[e].restricted
    && Overlaps(bind, domains[d], users[u].uid, domains[e], users[w].uid)
  }

  ghost predicate CanClash(bind: bool, users: map<Id, User>, domains: map<Id, Domain>, d: Id)
    requires d in domains
  {
    exists u, w, e :: Clashing(bind, users, domains, d, u, w, e)
  }

  /** Over every run from an empty route table: an open user domain refuses a registration only if users can clash. */
  lemma RefusalNeedsClash(cfg: Config, s: Store, steps: seq<Step>, req: Request, text: Option<string>, draw: Draw)
    requires s.Valid() && s.routes == map[] && forall x :: x in Drawn(steps) ==> UuidText(x)
    requires
      var now := Run(cfg, s, steps);
      && ResolveDomain(now.domains, req.domainName).Ok?
      && now.domains[ResolveDomain(now.domains, req.domainName).value].kind == PerUser
      && !now.domains[ResolveDomain(now.domains, req.domainName).value].restricted
      && EndpointResult(cfg, now, req, text, draw) == Err(NotAllowed)
    ensures
      var now := Run(cfg, s, steps);
      CanClash(cfg.bindSubdomain, now.users, now.domains, ResolveDomain(now.domains, req.domainName).value)
  {
    var now := Run(cfg, s, steps);
    RunKeepsValid(cfg, s, steps);
    RunGrows(cfg, s, steps);
    RefusedExactly(cfg, now, req, text, draw);
    var r := Holder(Srcs(now.routes), RequestedSrc(now, cfg.bindSubdomain, req, draw).value).value;
    EveryRouteIsPublished(cfg, s, steps, r);
    var w, uuid :| PublishedBy(now, cfg.bindSubdomain, Drawn(steps), now.routes[r], w, uuid);
    PublishedClashes(now, cfg.bindSubdomain, req, draw, now.routes[r], w, uuid);
  }

  lemma PublishedClashes(s: Store, bind: bool, req: Request, draw: Draw, row: Route, w: Id, uuid: string)
    requires row.domain in s.domains && !s.domains[row.domain].restricted && w in s.users && UuidText(uuid)
    requires row.src == SrcUrl(s.domains[row.domain], row.name, s.users[w].uid, uuid, bind)
    requires RequestedSrc(s, bind, req, draw) == Ok(row.src) && Holder(Uids(s.users), req.uid).value != w
    requires s.domains[ResolveDomain(s.domains, req.domainName).value].kind == PerUser
    ensures CanClash(bind, s.users, s.domains, ResolveDomain(s.domains, req.domainName).value)
  {
    var d := ResolveDomain(s.domains, req.domainName).value;
    var u := Holder(Uids(s.users), req.uid).value;
    assert s.users[u].uid == req.uid;
    SameUrlOverlaps(bind, s.domains[d], req.uid, req.name, s.domains[row.domain], s.users[w].uid, row.name, uuid);
    assert Clashing(bind, s.users, s.domains, d, u, w, row.domain);
  }

  /** The first registration is accepted, and the second is then refused. */
  ghost predicate RefusedAfter(cfg: Config, s: Store, first: Request, firstText: Option<string>, firstDraw: Draw,
      second: Request, secondText: Option<string>, secondDraw: Draw)
  {
    && EndpointResult(cfg, s, first, firstText, firstDraw).Ok?
    && EndpointResult(cfg, Apply(cfg, s, Register(first, firstText, firstDraw)), second, secondText, secondDraw) ==
         Err(NotAllowed)
  }

  /** Two registrations, the first in any domain, the second in `d` and refused. */
  ghost predicate Refusal(cfg: Config, s: Store, d: Id, first: Request, firstText: Option<string>, firstDraw: Draw,
      second: Request, secondText: Option<string>, secondDraw: Draw)
  {
    && UuidText(firstDraw.uuid)
    && ResolveDomain(s.domains, second.domainName) == Ok(d)
    && RefusedAfter(cfg, s, first, firstText, firstDraw, second, secondText, secondDraw)
  }

  lemma HolderOf(column: map<Id, string>, k: Id)
    requires Injective(column) && k in column
    ensures column[k] in column.Values && Holder(column, column[k]) == Some(k)
  {
  }

  lemma RequestedIs(s: Store, d: Id, u: Id, req: Request, draw: Draw, bind: bool)
    requires ValidDirectory(s.users, s.groups) && ValidDomains(s.domains) && d in s.domains && u in s.users
    requires req.uid == s.users[u].uid && req.domainName == Some(s.domains[d].name)
    ensures RequestedSrc(s, bind, req, draw) == Ok(SrcUrl(s.domains[d], req.name, req.uid, draw.uuid, bind))
    ensures Holder(Uids(s.users), req.uid) == Some(u)
  {
    HolderOf(DomainNames(s.domains), d);
    HolderOf(Uids(s.users), u);
  }

  lemma RegisterFresh(cfg: Config, s: Store, d: Id, u: Id, req: Request, draw: Draw)
    requires ValidDirectory(s.users, s.groups) && ValidDomains(s.domains) && s.routes == map[]
    requires d in s.domains && !s.domains[d].restricted
    requires u in s.users && req.uid == s.users[u].uid && req.domainName == Some(s.domains[d].name)
    requires
      var src := SrcUrl(s.domains[d], req.name, req.uid, draw.uuid, cfg.bindSubdomain);
      |req.name| <= 128 && |src| <= 2000 && |cfg.tunnelUrl| <= 2000
    ensures
      var src := SrcUrl(s.domains[d], req.name, req.uid, draw.uuid, cfg.bindSubdomain);
      && EndpointResult(cfg, s, req, None, draw) == Ok(draw.id)
      && Apply(cfg, s, Register(req, None, draw)) ==
           s.(routes := map[draw.id := NewRouteRow(req, d, None, src, cfg.tunnelUrl, u, draw)])
  {
    HolderOf(DomainNames(s.domains), d);
    HolderOf(Uids(s.users), u);
  }

  lemma TakenByAnother(cfg: Config, s: Store, d: Id, u: Id, req: Request, draw: Draw, r: Id)
    requires ValidDirectory(s.users, s.groups) && ValidDomains(s.domains) && Injective(Srcs(s.routes))
    requires d in s.domains && u in s.users && r in s.routes && u !in s.routes[r].owners
    requires req.uid == s.users[u].uid && req.domainName == Some(s.domains[d].name)
    requires s.routes[r].src == SrcUrl(s.domains[d], req.name, req.uid, draw.uuid, cfg.bindSubdomain)
    ensures EndpointResult(cfg, s, req, None, draw) == Err(NotAllowed)
  {
    RequestedIs(s, d, u, req, draw, cfg.bindSubdomain);
    RegisterNeedsOwnership(cfg, s, req, None, draw, r);
  }

  /** Of two users whose registrations ask for one URL, the second is refused. */
  lemma SecondIsRefused(cfg: Config, s: Store, e: Id, w: Id, first: Request, firstDraw: Draw, d: Id, u: Id,
      second: Request, secondDraw: Draw)
    requires ValidDirectory(s.users, s.groups) && ValidDomains(s.domains) && s.routes == map[]
    requires d in s.domains && e in s.domains && !s.domains[e].restricted && u in s.users && w in s.users && u != w
    requires first.uid == s.users[w].uid && first.domainName == Some(s.domains[e].name)
    requires second.uid == s.users[u].uid && second.domainName == Some(s.domains[d].name)
    requires
      var src := SrcUrl(s.domains[e], first.name, first.uid, firstDraw.uuid, cfg.bindSubdomain);
      && src == SrcUrl(s.domains[d], second.name, second.uid, secondDraw.uuid, cfg.bindSubdomain)
      && |first.name| <= 128 && |src| <= 2000 && |cfg.tunnelUrl| <= 2000
    ensures EndpointResult(cfg, s, first, None, firstDraw).Ok?
    ensures
      var after := Apply(cfg, s, Register(first, None, firstDraw));
      EndpointResult(cfg, after, second, None, secondDraw) == Err(NotAllowed)
  {
    RegisterFresh(cfg, s, e, w, first, firstDraw);
    TakenByAnother(cfg, Apply(cfg, s, Register(first, None, firstDraw)), d, u, second, secondDraw, firstDraw.id);
  }

  /** Some registration in `d` is refused after some other that was accepted, in whatever domain. */
  ghost predicate CanRefuse(cfg: Config, s: Store, d: Id) {
    exists first, text, draw, second, text', draw' :: Refusal(cfg, s, d, first, text, draw, second, text', draw')
  }

  /** Names for one URL of different users, of which the one to be stored fits its columns. */
  ghost predicate FittingNames(cfg: Config, s: Store, d: Id, u: Id, w: Id, e: Id, n: string, m: string, uuid: string)
    requires d in s.domains
  {
    && u in s.users && w in s.users && u != w && e in s.domains && !s.domains[e].restricted && UuidText(uuid)
    && SameUrl(cfg.bindSubdomain, s.domains[d], s.users[u].uid, n, s.domains[e], s.users[w].uid, m, uuid)
    && |m| <= 128 && |SrcUrl(s.domains[e], m, s.users[w].uid, uuid, cfg.bindSubdomain)| <= 2000
    && |cfg.tunnelUrl| <= 2000
  }

  lemma NamesRefuse(cfg: Config, s: Store, d: Id, u: Id, w: Id, e: Id, n: string, m: string, uuid: string)
    returns (first: Request, second: Request, draw: Draw)
    requires ValidDirectory(s.users, s.groups) && ValidDomains(s.domains) && s.routes == map[]
    requires d in s.domains && s.domains[d].kind == PerUser && FittingNames(cfg, s, d, u, w, e, n, m, uuid)
    ensures first.uid == s.users[w].uid && first.domainName == Some(s.domains[e].name) && second.uid == s.users[u].uid
    ensures Refusal(cfg, s, d, first, None, draw, second, None, draw)
  {
    first := Request(s.users[w].uid, m, Some(s.domains[e].name));
    second := Request(s.users[u].uid, n, Some(s.domains[d].name));
    draw := Draw("1", "t", uuid, 0);
    HolderOf(DomainNames(s.domains), d);
    SecondIsRefused(cfg, s, e, w, first, draw, d, u, second, draw);
  }

  lemma StoredFits(s: Store, plan: Plan, r: Id)
    requires r !in s.routes && r in Complete(s, plan).routes
    ensures var row := Complete(s, plan).routes[r]; |row.name| <= 128 && |row.src| <= 2000 && |row.dst| <= 2000
  {
  }

  lemma RefusalHasNames(cfg: Config, s: Store, d: Id, first: Request, firstText: Option<string>, firstDraw: Draw,
      second: Request, secondText: Option<string>, secondDraw: Draw)
    requires s.Valid() && s.routes == map[]
    requires d in s.domains && s.domains[d].kind == PerUser && !s.domains[d].restricted
    requires Refusal(cfg, s, d, first, firstText, firstDraw, second, secondText, secondDraw)
    ensures exists u, w, e, n, m, uuid :: FittingNames(cfg, s, d, u, w, e, n, m, uuid)
  {
    var after := Apply(cfg, s, Register(first, firstText, firstDraw));
    RegisterKeepsDirectory(cfg, s, first, firstText, firstDraw);
    RefusedExactly(cfg, after, second, secondText, secondDraw);
    var r := Holder(Srcs(after.routes), RequestedSrc(after, cfg.bindSubdomain, second, secondDraw).value).value;
    NewRouteRowIs(cfg, s, first, firstText, firstDraw, r);
    var own := OwnCommunity(s, cfg.isUuid, first.uid, firstText).value;
    StoredFits(s, Decide(s, cfg.bindSubdomain, first, own, cfg.tunnelUrl, firstDraw).value, r);
    DecidedPlan(s, cfg.bindSubdomain, first, own, cfg.tunnelUrl, firstDraw);
    var u, w := Holder(Uids(s.users), second.uid).value, Holder(Uids(s.users), first.uid).value;
    assert s.users[u].uid == second.uid && s.users[w].uid == first.uid;
    assert FittingNames(cfg, s, d, u, w, after.routes[r].domain, second.name, first.name, firstDraw.uuid);
  }

  /** An open user domain refuses a registration after some other exactly if two users have such names. */
  lemma RefusedExactlyByNames(cfg: Config, s: Store, d: Id)
    requires s.Valid() && s.routes == map[]
    requires d in s.domains && s.domains[d].kind == PerUser && !s.domains[d].restricted
    ensures CanRefuse(cfg, s, d) <==>
      exists u, w, e, n, m, uuid :: FittingNames(cfg, s, d, u, w, e, n, m, uuid)
  {
    forall first, text, draw, second, text', draw' | Refusal(cfg, s, d, first, text, draw, second, text', draw')
      ensures exists u, w, e, n, m, uuid :: FittingNames(cfg, s, d, u, w, e, n, m, uuid)
    {
      RefusalHasNames(cfg, s, d, first, text, draw, second, text', draw');
    }
    if u, w, e, n, m, uuid :| FittingNames(cfg, s, d, u, w, e, n, m, uuid) {
      var first, second, draw := NamesRefuse(cfg, s, d, u, w, e, n, m, uuid);
    }
  }

  /** The columns of the route table have room for the names in question. */
  ghost predicate Roomy(cfg: Config, users: map<Id, User>, domains: map<Id, Domain>, d: Id)
    requires d in domains
  {
    && |cfg.tunnelUrl| <= 2000
    && (forall u :: u in users ==> |users[u].uid| + |domains[d].value| <= 126)
    && (forall e :: e in domains ==> |domains[e].value| <= 1600)
  }

  /** Users who can clash do: the other one registers first, and the user of the user domain is refused. */
  lemma ClashRefuses(cfg: Config, s: Store, d: Id, u: Id, w: Id, e: Id)
    returns (first: Request, second: Request, draw: Draw)
    requires ValidDirectory(s.users, s.groups) && ValidDomains(s.domains) && s.routes == map[]
    requires d in s.domains && s.domains[d].kind == PerUser && Roomy(cfg, s.users, s.domains, d)
    requires Clashing(cfg.bindSubdomain, s.users, s.domains, d, u, w, e)
    ensures first.uid == s.users[w].uid && first.domainName == Some(s.domains[e].name) && second.uid == s.users[u].uid
    ensures Refusal(cfg, s, d, first, None, draw, second, None, draw)
  {
    var uid, other := s.users[u].uid, s.users[w].uid;
    var some := SomeUuid();
    var n, m, uuid := OverlapNames(cfg.bindSubdomain, s.domains[d], uid, s.domains[e], other, some);
    UrlLength(s.domains[e], m, other, uuid, cfg.bindSubdomain);
    first, second, draw := NamesRefuse(cfg, s, d, u, w, e, n, m, uuid);
  }

  lemma UrlLength(domain: Domain, name: string, uid: string, uuid: string, bind: bool)
    ensures |SrcUrl(domain, name, uid, uuid, bind)| <= |domain.value| + |name| + |uid| + |uuid| + 11
  {
  }

  /**
   With room in the columns, an open user domain refuses a registration after some other exactly if two users can
   clash. Which users those are is decided by `Overlaps` from uids, domain values and kinds alone.
   */
  lemma RefusedExactlyByClash(cfg: Config, s: Store, d: Id)
    requires s.Valid() && s.routes == map[]
    requires d in s.domains && s.domains[d].kind == PerUser && !s.domains[d].restricted
    requires Roomy(cfg, s.users, s.domains, d)
    ensures CanRefuse(cfg, s, d) <==> CanClash(cfg.bindSubdomain, s.users, s.domains, d)
  {
    RefusedExactlyByNames(cfg, s, d);
    if u, w, e, n, m, uuid :| FittingNames(cfg, s, d, u, w, e, n, m, uuid) {
      SameUrlOverlaps(cfg.bindSubdomain, s.domains[d], s.users[u].uid, n, s.domains[e], s.users[w].uid, m, uuid);
      assert Clashing(cfg.bindSubdomain, s.users, s.domains, d, u, w, e);
    }
    if CanClash(cfg.bindSubdomain, s.users, s.domains, d) {
      var u, w, e :| Clashing(cfg.bindSubdomain, s.users, s.domains, d, u, w, e);
      var first, second, draw := ClashRefuses(cfg, s, d, u, w, e);
    }
  }

  // ---------------------------------------------------------------- what a clash takes

  lemma MeetsUnderPrefix(prefix: string, a: string, b: string)
    ensures Meets(prefix + a, prefix + b) <==> Meets(a, b)
  {
    DashUnderPrefix(prefix, a, b);
    DashUnderPrefix(prefix, b, a);
    assert a == (prefix + a)[|prefix|..] && b == (prefix + b)[|prefix|..];
  }

  lemma DashUnderPrefix(prefix: string, a: string, b: string)
    ensures DashExtends(prefix + a, prefix + b) <==> DashExtends(a, b)
  {
    Regroup(prefix, b, "-");
    assert a == (prefix + a)[|prefix|..];
    if DashExtends(prefix + a, prefix + b) {
      assert b + "-" == (prefix + (b + "-"))[|prefix|..];
      assert prefix + a == prefix + b + "-" + (prefix + a)[|prefix + b| + 1..];
      assert a == b + "-" + (prefix + a)[|prefix + b| + 1..];
    }
    if DashExtends(a, b) {
      assert a == b + "-" + a[|b| + 1..];
      assert prefix + a == prefix + b + "-" + a[|b| + 1..];
    }
  }

  /** Where no domain can be mistaken for part of another, in either mode, a clash takes uids that meet. */
  lemma ClashExactlyByUids(bind: bool, users: map<Id, User>, domains: map<Id, Domain>, d: Id)
    requires ValidDomains(domains) && Unambiguous(bind, domains)
    requires d in domains && domains[d].kind == PerUser && !domains[d].restricted
    ensures CanClash(bind, users, domains, d) <==> !UidsApart(bind, users)
  {
    forall u, w, e | Clashing(bind, users, domains, d, u, w, e)
      ensures Meets(Handle(bind, users[u].uid), Handle(bind, users[w].uid))
    {
      var some := SomeUuid();
      var n, m, uuid := OverlapNames(bind, domains[d], users[u].uid, domains[e], users[w].uid, some);
      UrlDetermines(bind, domains, d, e, users[u].uid + "-" + n, AppName(domains[e].kind, m, users[w].uid, uuid));
      MeetsUnderPrefix(domains[d].value + "/", Handle(bind, users[u].uid), Handle(bind, users[w].uid));
    }
    forall u, w | u in users && w in users && u != w && Meets(Handle(bind, users[u].uid), Handle(bind, users[w].uid))
      ensures Clashing(bind, users, domains, d, u, w, d)
    {
      MeetsUnderPrefix(domains[d].value + "/", Handle(bind, users[u].uid), Handle(bind, users[w].uid));
    }
  }

  /** A domain that is not a user domain and whose apps can take the URLs of any user of `d`, in subdomain mode. */
  predicate Encloses(d: Domain, e: Domain) {
    && e.kind != PerUser
    && (SubdomainOf(e.value, d.value)
        || (SubdomainOf(d.value, e.value) && (e.kind == Standard || EndsInUuid(Above(d.value, e.value)))))
  }

  /** In subdomain mode two users can clash if one uid extends the other by a dash, or next to a nested open domain. */
  lemma SubdomainClashExactly(users: map<Id, User>, domains: map<Id, Domain>, d: Id)
    requires Injective(Uids(users)) && ValidDomains(domains)
    requires d in domains && domains[d].kind == PerUser && !domains[d].restricted
    ensures CanClash(true, users, domains, d) <==>
      || (exists u, w :: u in users && w in users && DashExtends(users[u].uid, users[w].uid))
      || ((exists u, w :: u in users && w in users && u != w)
          && exists e :: e in domains && !domains[e].restricted && Encloses(domains[d], domains[e]))
  {
    forall u, w, e | Clashing(true, users, domains, d, u, w, e)
      ensures DashExtends(users[u].uid, users[w].uid) || DashExtends(users[w].uid, users[u].uid)
        || Encloses(domains[d], domains[e])
    {
      assert Uids(users)[u] != Uids(users)[w];
      assert domains[d].value == domains[e].value ==> DomainValues(domains)[d] == DomainValues(domains)[e];
    }
    forall u, w | u in users && w in users && DashExtends(users[u].uid, users[w].uid)
      ensures Clashing(true, users, domains, d, u, w, d)
    {
    }
    forall u, w, e | u in users && w in users && u != w && e in domains && !domains[e].restricted
      && Encloses(domains[d], domains[e])
      ensures Clashing(true, users, domains, d, u, w, e)
    {
    }
  }

  /**
   With no domain mistakable for part of another, in either mode, an open user domain refuses a registration after some
   other exactly if two users' uids are the same up to a leading slash (path mode) or one extends the other by a dash.
   */
  lemma TakenExactlyByUids(cfg: Config, s: Store, d: Id)
    requires s.Valid() && s.routes == map[] && Unambiguous(cfg.bindSubdomain, s.domains)
    requires d in s.domains && s.domains[d].kind == PerUser && !s.domains[d].restricted
    requires Roomy(cfg, s.users, s.domains, d)
    ensures CanRefuse(cfg, s, d) <==> !UidsApart(cfg.bindSubdomain, s.users)
  {
    RefusedExactlyByClash(cfg, s, d);
    ClashExactlyByUids(cfg.bindSubdomain, s.users, s.domains, d);
  }

  // ---------------------------------------------------------------- two collisions in full

  lemma SameUserUrl(domain: Domain, short: string, long: string, name: string, uuid: string, uuid': string, bind: bool)
    requires domain.kind == PerUser && DashExtends(long, short)
    ensures SrcUrl(domain, long[|short| + 1..] + "-" + name, short, uuid, bind) ==
            SrcUrl(domain, name, long, uuid', bind)
  {
    var rest := long[|short| + 1..];
    assert long == short + "-" + rest;
    assert AppName(PerUser, rest + "-" + name, short, uuid) == AppName(PerUser, name, long, uuid');
  }

  /**
   If a uid extends another by a dash, then in any unrestricted user domain the owner of the longer uid can take a URL
   that the other asks for later: the later registration is refused.
   */
  lemma DashExtensionCollides(cfg: Config, s: Store, d: Id, u: Id, w: Id, name: string, firstDraw: Draw,
      secondDraw: Draw)
    returns (first: Request, second: Request)
    requires ValidDirectory(s.users, s.groups) && ValidDomains(s.domains) && s.routes == map[]
    requires d in s.domains && s.domains[d].kind == PerUser && !s.domains[d].restricted
    requires u in s.users && w in s.users && DashExtends(s.users[w].uid, s.users[u].uid)
    requires |name| <= 128 && |cfg.tunnelUrl| <= 2000
    requires |SrcUrl(s.domains[d], name, s.users[w].uid, "", cfg.bindSubdomain)| <= 2000
    ensures first.uid == s.users[w].uid && first.name == name && second.uid == s.users[u].uid
    ensures RefusedAfter(cfg, s, first, None, firstDraw, second, None, secondDraw)
  {
    var long, short := s.users[w].uid, s.users[u].uid;
    first := Request(long, name, Some(s.domains[d].name));
    second := Request(short, long[|short| + 1..] + "-" + name, Some(s.domains[d].name));
    SameUserUrl(s.domains[d], short, long, name, secondDraw.uuid, firstDraw.uuid, cfg.bindSubdomain);
    SecondIsRefused(cfg, s, d, w, first, firstDraw, d, u, second, secondDraw);
  }

  lemma SubdomainUrl(domain: Domain, below: string, name: string, uid: string, uuid: string)
    requires domain.kind == PerUser && SubdomainOf(below, domain.value)
    ensures
      var prefix := below[..|below| - |domain.value| - 1];
      SrcUrl(domain, name + "." + prefix, uid, uuid, true) == HostUrl(uid + "-" + name, below)
  {
    var prefix := below[..|below| - |domain.value| - 1];
    assert below == prefix + "." + domain.value;
    assert HostUrl(uid + "-" + name, below) == HostUrl(uid + "-" + (name + "." + prefix), domain.value);
  }

  /**
   If a domain lies below a user domain, then whoever registers in it first can take a URL that a user of the user
   domain asks for later.
   */
  lemma SubdomainCollides(cfg: Config, s: Store, d: Id, e: Id, u: Id, w: Id, name: string, firstDraw: Draw,
      secondDraw: Draw)
    requires ValidDirectory(s.users, s.groups) && ValidDomains(s.domains) && s.routes == map[] && cfg.bindSubdomain
    requires u in s.users && w in s.users && u != w
    requires d in s.domains && s.domains[d].kind == PerUser
    requires e in s.domains && s.domains[e].kind == Standard && !s.domains[e].restricted
    requires SubdomainOf(s.domains[e].value, s.domains[d].value)
    requires |s.users[u].uid + "-" + name| <= 128 && |cfg.tunnelUrl| <= 2000
    requires |HostUrl(s.users[u].uid + "-" + name, s.domains[e].value)| <= 2000
    ensures
      var prefix := s.domains[e].value[..|s.domains[e].value| - |s.domains[d].value| - 1];
      var first := Request(s.users[w].uid, s.users[u].uid + "-" + name, Some(s.domains[e].name));
      var second := Request(s.users[u].uid, name + "." + prefix, Some(s.domains[d].name));
      var after := Apply(cfg, s, Register(first, None, firstDraw));
      && EndpointResult(cfg, s, first, None, firstDraw).Ok?
      && EndpointResult(cfg, after, second, None, secondDraw) == Err(NotAllowed)
  {
    var prefix := s.domains[e].value[..|s.domains[e].value| - |s.domains[d].value| - 1];
    var first := Request(s.users[w].uid, s.users[u].uid + "-" + name, Some(s.domains[e].name));
    var second := Request(s.users[u].uid, name + "." + prefix, Some(s.domains[d].name));
    SubdomainUrl(s.domains[d], s.domains[e].value, name, s.users[u].uid, secondDraw.uuid);
    SecondIsRefused(cfg, s, e, w, first, firstDraw, d, u, second, secondDraw);
  }
}
