# Route registry: a verified model

The route registry lets users publish web applications under URLs of shared domains. It keeps users and groups, domains,
routes, the rules of each route (who is allowed, who is denied), communities of routes and requests to join them. A
registration binds a URL to its first owner. A background sweep, and tasks from a queue, fetch each application's
authorization file, turn it into rules and keep the route's status. Tokens for the tunnel are issued to registered routes.

This project models the registry as a transactional state machine and proves what holds of single calls, of loops, of
task queues, of whole runs and of overlapping transactions. `dafny verify dfyconfig.toml` checks all of it.

## How the model is built

- `Common`, `Models`: identifiers, time (whole microseconds), outcomes, records, enumerations, the published URL.
- `Schema`: the tables as a `Store`, the constraints as `Store.Valid`, and what the database answers to an INSERT.
- `UnitOfWork`: `Database` and `Session` objects. A body changes loaded rows in the session and queues new ones; `Commit`
  stores all of it or nothing and ends in one of four ways: committed, "already exists" raised, rolled back *quietly* (any
  other broken constraint), or another error raised.
- `Repository`: the queries, with the count test of the bulk lookups and the condition list of the route filter.
- `Cells`: a route's row and rules, the only part of the store that a refresh or a sweep writes.
- `Refresh`, `Adapter`: storing rules, refreshing a route, reading rules back.
- `Sweep`: unverification and the periodic sweep.
- `Registration`, `Communities`, `Domains`, `Endpoints`: the other workflows and the endpoints on top of them.
- `Runs`: one `Step` per committed workflow, and runs of any steps in any order.
- `Outcomes`: what each workflow answers and stores, case by case, on the rows themselves.
- `Urls`: the published URLs as strings, and who can publish the same one.
- `History`, `Invariants`, `Liveness`, `TaskQueue`, `Tokens`, `NoCollision`, `Interleaving`: what holds over runs.

Each workflow is a method on a `Database` whose contract gives the new store and the answer as a specification function of
the old store; that function says *what* happens (a verdict on a reply, a plan and its commit), the method *how*: sessions,
loops, pending rows, flushes. The theorems are about the specification functions. What comes from outside is a parameter:
the response to a fetch (`Response`), clock readings, fresh ids, tokens and UUIDs (`Draw`), whether a presented token
passes its own checks (`presentable`), which texts parse as a UUID (`isUuid`), and the LIKE of the database (`like`).

The database is taken to be PostgreSQL: foreign keys and column widths are enforced. Staleness compares whole days of the
absolute difference between two instants, as pendulum's `diff(...).in_days()` does.

## What turned out differently from what one would expect

- A non-owner's request to bring a route into a community is filed under the text of the call. Given the community's
  *name*, the call answers with a pending request that is never stored: the foreign key breaks and the commit rolls back
  without an error. `Communities.RequestIsStoredExactlyById` gives the exact condition.
- The schema requires only `version` and describes both sections as optional, but a document without `allowed` or
  `disallowed` is a `KeyError`, and the refresh leaves no trace (`Refresh.RefreshSucceedsExactly`, `Refresh.AllOrNothing`).
- "UNVERIFIED implies DOWN" fails when a queued refresh runs after its route was given up, and only then
  (`Invariants.UnverifiedDownExactly`, `Liveness.LateRefreshRevives`). Such a route is still not listed as available.
- A token may outlive the end of its route's verification by the lifespan *and* by the time its own request was in
  progress; the second part can be dropped exactly if requests take no time (`Tokens.TokensRunOut`,
  `Tokens.LifespanBoundsExactly`).
- User domains do not keep users apart by themselves. The exact condition under which two users have names for one URL
  is `Urls.Overlaps`; it decides when a registration can be refused (`NoCollision.RefusedExactlyByClash`). With domains
  whose values keep them apart it comes down to the uids: one extends another by a dash, or, in path mode, two differ only
  by a leading slash (`NoCollision.TakenExactlyByUids`). In subdomain mode, nested domains collide as well
  (`NoCollision.SubdomainClashExactly`).
- A registration never moves a route between communities in a serial run, but one that overlaps with other steps can, and
  one that overlaps with an unverification can succeed and leave the route UNVERIFIED. `Interleaving.OverlappedRebind`
  says exactly when.
- With no domain named and no default configured, registration raises the repository's own "not found" error, not the one
  `register_route` intends for this case (`Registration.NotFoundExactly`).

## Model

| member | source | states |
|---|---|---|
| Models.ParseAuthorization | route_registry/models.py:193-205 | a schema-valid document can be used exactly if both sections are present, an absent one is a KeyError; its four lists are the document's, an absent list being empty |
| Schema.InsertKeepsValid | route_registry/store/orm.py:50-140 | whatever row the database accepts, every unique key, composite key and reference holds afterwards |
| Schema.InsertAllKeepsValid | route_registry/store/orm.py:50-140 | the same for a whole flush of pending rows |
| Outcomes.InsertExactly | route_registry/store/orm.py:50-140 | a row is stored exactly if it fits its columns, its key is free and the store with just this row more keeps every unique key and reference; otherwise the first of these that fails is reported |
| UnitOfWork.Session.Commit | route_registry/service/uow.py:83-99 | a commit, whatever the body has changed or added, stores all of it or nothing; a broken unique key is raised as AlreadyExists, another integrity violation returns normally, anything else is raised as UOWException; the constraints hold afterwards |
| Repository.CountTest | route_registry/store/repository.py:67-73 | as many rows come back as names were asked for exactly when no name is unknown or repeated, and never more (pigeonhole) |
| Repository.GetAll | route_registry/store/repository.py:83-93 | the bulk lookup raises MissingEntities exactly on an unknown or repeated name, and otherwise returns each matching row once |
| Repository.GetDefault | route_registry/store/repository.py:130-136 | the default domain is found exactly when there is one; none is NotFound, two are an error |
| Repository.ListRoutes | route_registry/store/repository.py:313-346 | the condition list selects exactly the routes that meet every filter given, the name pattern by the database's LIKE, and all of them if none is |
| Cells.EqualByCells | route_registry/services.py:209-212 | a store is determined by its other tables and each route's own row and rules: rules belong to one route |
| Refresh.ClashIsContradiction | route_registry/store/orm.py:125-133 | the rows of a document break the rule table's composite key exactly when a user or a group is on both sides; a user and a group of one name do not clash |
| Refresh.RuleComesFrom | route_registry/services.py:199-212 | every rule written names its entity in the list of its own kind and policy |
| Refresh.FlushRules | route_registry/services.py:211-212 | flushing rules with free keys stores all of them, unless two ask for the same key |
| Refresh.FlushClash | route_registry/store/orm.py:125-133 | one taken key spoils the whole flush |
| Refresh.StoreRules | route_registry/services.py:198-212 | the lookups all come before the deletion: MissingEntities leaves the session untouched, otherwise the old rules are gone and each rule of the document is pending once |
| Refresh.Attempt | route_registry/services.py:270-290 | the four caught exceptions end in the status of their own class, and any other leaves the block |
| Refresh.UpdateRoute | route_registry/services.py:256-293 | a refresh ends as the verdict on its response says, in the store and in what it raises |
| Refresh.FailureTable | route_registry/services.py:271-293 | which failure records which status and raises which error, the rest of the store unchanged: no connection DOWN, an invalid document MISCONFIGURED, an unknown or repeated name MISSING_ENTITY, another client error SERVER_ERROR; an undecodable body, an untranslated exception, an absent section and a name on both sides change nothing and raise their own error |
| Refresh.UnknownRoute | route_registry/services.py:269-273 | a refresh of a route that is not stored fails without effect |
| Refresh.AllOrNothing | route_registry/services.py:269-293 | the rules afterwards are all the old ones or all the document's; the document's only after a normal return with status UP; a recorded failure commits the status alone; any other failure changes nothing; verification and other routes are never touched |
| Refresh.RefreshSucceedsExactly | route_registry/services.py:198-277 | a refresh succeeds if and only if both sections are there, every name is known, and no name occurs twice in a list or on both sides |
| Refresh.RetrySafe | route_registry/celery.py:96-109 | running the same refresh again, after success or any failure, raises the same and changes at most the last contact |
| Adapter.FromRoute | route_registry/adapter.py:114-127 | the loop splits the rules into the four lists by policy and kind, in the order of the rules |
| Adapter.ListedNames | route_registry/adapter.py:114-127 | each list has exactly the names of its kind and policy, each once |
| Adapter.RoundTrip | route_registry/adapter.py:94-129 | after a refresh has succeeded, reading the rules back in any order gives permutations of the document's four lists |
| Sweep.StaleFrom | route_registry/services.py:314-314 | a contact is stale exactly from stale duration + 1 whole days away, before or after the clock |
| Sweep.UnverifyRoute | route_registry/services.py:190-195 | the route becomes UNVERIFIED and DOWN, nothing else changes, an unknown id is an error without effect |
| Sweep.SweepOneMore | route_registry/services.py:306-316 | one turn of the loop, on a store where any set of other routes has been swept, sweeps one route more as if it had been alone |
| Sweep.CheckRoute | route_registry/services.py:309-316 | whatever the refresh raises, the turn goes on to judge staleness on the snapshot's last contact |
| Sweep.CheckRoutes | route_registry/services.py:296-316 | a sweep in any order of the routes ends as the pointwise specification on the routes active at the snapshot |
| Sweep.SweepIsPointwise | route_registry/services.py:296-316 | each active route ends as a function of its own row, rules, reply and snapshot staleness, a successful refresh does not rescue a stale one, all other routes, rules and tables are as before |
| Registration.ResolveDomain | route_registry/services.py:121-126 | a known name gives the domain of that name; otherwise the one default domain; with none it is the repository's not-found error, with two a different one |
| Registration.NotFoundExactly | route_registry/services.py:121-128 | a registration never raises the NotFound written for a missing default, and raises the repository's own exactly if there is neither a known name nor a default, or there is a domain and the user is unknown |
| Registration.RebindRoute | route_registry/services.py:134-144 | the branch for a taken URL: owners rebind, without moving the route between communities, others are refused without effect |
| Registration.CreateRoute | route_registry/services.py:150-161 | the branch for a new route: inserted whole, or not at all with the outcome of its commit |
| Registration.RegisterRoute | route_registry/services.py:97-161 | a registration is its decision on the store it reads followed by its commit |
| Outcomes.FreeUrlIsRegistered | route_registry/services.py:146-161 | a free URL in an open domain is registered, with the caller's community if one is brought: the store gets exactly that row, unless a value is too long or the id or token is taken, and each of these has its error and no effect |
| Outcomes.TakenUrlIsRebound | route_registry/services.py:134-144 | a taken URL is rebound for its owners, with a new last contact, VERIFIED, and a community only if there was none; for anyone else it is NotAllowed without effect |
| Outcomes.AcceptedExactly | route_registry/services.py:97-161 | a registration is accepted if and only if it is one of these two cases, and otherwise the store is as before |
| Registration.CompleteKeepsValid | route_registry/services.py:134-161 | committing any plan, on any valid store, keeps every constraint |
| Communities.GetCommunity | route_registry/store/repository.py:207-242 | text that parses as a UUID is looked up as id, other text as name, and two matches are an error |
| Communities.CreateCommunity | route_registry/services.py:425-434 | the community is stored under the given id and name for the caller, and nothing else changes; an unknown user, a name too long, and an id or (owner, name) pair that is taken each have their error and no effect |
| Outcomes.CreatedIsFound | route_registry/services.py:420-434 | a community that was created is then found by its owner under its name |
| Outcomes.FoundExactly | route_registry/store/repository.py:207-242 | a lookup without an owner finds the one community meant, misses if there is none and is an error if there are two |
| Communities.AskToJoin | route_registry/services.py:451-463 | a non-owner gets the request already there, or a new pending one whose storage the commit decides |
| Communities.AddRouteToCommunity | route_registry/services.py:437-468 | owners move their route, others file a request, and the four refusals change nothing |
| Outcomes.JoinExactly | route_registry/services.py:440-468 | NotFound exactly for an unknown route or community, an error exactly for an ambiguous name; otherwise an owner gets AlreadyExists if the route is there and moves it if not, nothing else changing, and anyone else gets the request there is or a new pending one |
| Outcomes.UnknownUserJoinsNothing | route_registry/services.py:441-441 | an unknown user is an error without effect |
| Communities.RequestIsStoredExactlyById | route_registry/services.py:452-463 | a request answered to a non-owner is in the table if and only if the community was given by id; a name leaves the store unchanged, and is an error exactly when wider than the column |
| Communities.AskingAgainChangesNothing | route_registry/store/repository.py:163-174 | repeating a request answers the same and changes nothing |
| Communities.RemoveRouteFromCommunity | route_registry/services.py:480-490 | the call succeeds if and only if the caller owns the route and it is in the community named, and then takes it out and changes nothing else; an unknown user has its own error, every other case is NotFound, without effect |
| Outcomes.LeaveExactly | route_registry/services.py:487-490 | on runs, a step that names another community than the route's, or comes from someone else, changes nothing |
| Communities.LeaveUndoesJoin | route_registry/services.py:465-490 | an owner who has moved a route in can take it out, and nothing but its community has changed |
| Domains.CreateDomain | route_registry/services.py:386-393 | the domain given is stored and nothing else changes, or the call fails without effect: with UOWException exactly for a value too long, with AlreadyExists exactly for a taken id, name or value |
| Domains.FlagDomains | route_registry/services.py:400-401 | the loop leaves every domain with its flag set exactly if it is the named one |
| Domains.SetDefaultDomain | route_registry/services.py:396-404 | a known id becomes the only default and nothing else changes; an unknown id leaves the store unchanged although all flags had been rewritten in the session |
| Domains.ExactlyOneDefault | route_registry/services.py:396-404 | a successful call leaves exactly the named domain as default, however many there were |
| Domains.ApiDomainKeepsDefaults | route_registry/adapter.py:27-29 | a domain made through the API has the given name and value, is standard and unrestricted, and changes no default |
| Runs.ApplyKeepsValid | route_registry/store/orm.py:50-140 | every workflow keeps every constraint of the schema |
| Outcomes.AdministrationExactly | route_registry/services.py:345-434 | steps that add users, groups, domains or communities store exactly the row they name or nothing; choosing a default and unverifying change exactly their flags |
| Runs.RunKeepsValid | route_registry/store/orm.py:50-140 | so does every run |
| History.ApplyGrows | route_registry/services.py:146-161 | no step drops a route or changes its URL, target, domain, token or owners, or puts a new one in a restricted domain |
| History.RunGrows | route_registry/services.py:121-161 | the same over every run, the default fallback included, and no run drops a membership request |
| Invariants.StepOnRoute | route_registry/services.py:97-490 | for every step, what becomes of any one route's row and rules |
| Invariants.RegisterOnRoute | route_registry/services.py:134-144 | a registration touches only the route it answers with, for one of its owners, and leaves it VERIFIED; it keeps its community, or gets one that the caller owns |
| Invariants.NewRouteRowIs | route_registry/services.py:150-161 | a new route has the name, domain and URL asked for, the tunnel as target, the caller as only owner, no community or one that the caller owns, and is VERIFIED and DOWN |
| Invariants.RegisterNeedsOwnership | route_registry/services.py:135-144 | on a taken URL a registration succeeds exactly for the route's owners, and a refusal changes nothing |
| Invariants.RefusedExactly | route_registry/services.py:134-148 | NotAllowed is raised exactly if the URL is someone else's, or free in a restricted domain |
| Invariants.OwnershipIsPermanent | route_registry/services.py:134-161 | after any run, exactly the owners a URL had at the start can register it |
| Invariants.CommunityChangesOnlyByOwner | route_registry/services.py:139-140 | a step changes a route's community only for one of its owners, and a registration only from none |
| Invariants.RequestsOverRuns | route_registry/store/orm.py:86-98 | over every run there is at most one request per entity, community and route, and none by an owner of its route |
| Invariants.DefaultNeverAmbiguous | route_registry/store/repository.py:130-136 | over every run from at most one default domain there is at most one, so looking it up never finds two |
| Invariants.OnlyOwnersVerify | route_registry/services.py:142-144 | only a registration by an owner makes a route VERIFIED |
| Invariants.VerifiedOnlyShrinks | route_registry/services.py:296-316 | over every run without registrations the set of VERIFIED routes only shrinks |
| Invariants.FailingRoutesAreFrozen | route_registry/store/repository.py:348-358 | a route that is not VERIFIED, or in a failing status, keeps status, verification, rules and last contact through any number of sweeps |
| Invariants.UnverifiedDownExactly | route_registry/services.py:256-293 | a step breaks "UNVERIFIED implies DOWN" if and only if it is a refresh of an UNVERIFIED route that records a status other than DOWN |
| Invariants.UnverifiedDownOverRuns | route_registry/services.py:190-195 | over every run without such a late refresh, every UNVERIFIED route is DOWN |
| Liveness.GivenUpExactlyOnTime | route_registry/services.py:302-316 | a route that is never reached is UNVERIFIED at the end of a run exactly if some sweep read the clock at or after last contact + (stale duration + 1) days |
| Liveness.AnsweringKeepsAlive | route_registry/services.py:276-316 | a route that answers every sweep, with gaps below that bound, stays VERIFIED, and UP from the first sweep on, over any run |
| Liveness.LateRefreshRevives | route_registry/routers/jwt.py:14-19 | a sweep that gives a route up followed by a refresh still queued always ends UNVERIFIED and UP |
| TaskQueue.QueueProjects | route_registry/services.py:256-293 | in any queue of refreshes, what a route becomes is the fold of its own tasks over its own row and rules |
| TaskQueue.OwnTasksSuffice | route_registry/services.py:256-293 | a route ends the same as when only its own tasks are run |
| TaskQueue.QueuesPermute | route_registry/services.py:209-212 | queues with the same tasks for each route, in any interleaving, leave the same store |
| TaskQueue.RetriesSettle | route_registry/celery.py:96-109 | any number of retries with the same response, other routes' tasks in between, end with the status and rules of the first |
| Endpoints.Authenticate | route_registry/dependencies.py:87-110 | a rotation passes exactly if the presented token passes its own checks and its route is stored and VERIFIED |
| Endpoints.RotateJwt | route_registry/routers/jwt.py:14-19 | exactly such a rotation is answered with a token, of the configured lifespan, and enqueues a refresh exactly if the route is DOWN; any other enqueues nothing |
| Runs.OwnCommunity | route_registry/routers/route.py:84-91 | the community a registration brings is stored, is the caller's own, and has the id or name given |
| Runs.OwnCommunityExactly | route_registry/services.py:420-422 | in a valid store the lookup finds exactly the caller's community of that id or name, is never ambiguous, and is refused if there is none |
| Runs.NoOwnCommunity | route_registry/routers/route.py:84-91 | without a name no community is brought, and with one an unknown user is an error |
| Endpoints.RegisterEndpoint | route_registry/routers/route.py:78-124 | a registration that is accepted enqueues a refresh and a notification and answers with a token; one that is not does neither |
| Endpoints.ListAvailableRoutes | route_registry/services.py:180-187 | exactly the VERIFIED and UP routes are listed, in every store |
| Endpoints.PikoClaims | route_registry/services.py:319-337 | the token is for the one route, is usable at once, and lasts the lifespan given, or the configured one when none or zero is |
| Tokens.RegisteredIsVerified | route_registry/routers/route.py:93-112 | the route a registration answers with is stored and VERIFIED at that moment |
| Tokens.EveryTokenWasEarned | route_registry/services.py:319-337 | over every run, each token goes back to a rotation with a token that passed its checks or to an accepted registration, its route was VERIFIED then, and it expires one lifespan after it was made |
| Tokens.TokensRunOut | route_registry/dependencies.py:99-110 | if a route is unverified from some instant on, every token for it expires before that instant + lifespan + its request's own time |
| Tokens.LifespanBoundsExactly | route_registry/dependencies.py:99-110 | tokens of a route that is unverified from an instant on end within one lifespan of it, in every run with requests of at most some duration, exactly if that duration is zero |
| Tokens.SlowRotationOutlives | route_registry/routers/jwt.py:14-19 | the witness: a rotation answered any delay after its route was unverified gets a token that lives one lifespan from there |
| Urls.UrlForms | route_registry/models.py:93-105 | the URL published for each kind of domain in either mode, written out |
| Urls.UrlDeterminesDomain | route_registry/models.py:101-105 | in subdomain mode, domains of which neither is below the other publish disjoint URLs |
| Urls.FirstLabelDetermines | route_registry/models.py:101-105 | in subdomain mode, app names without dots tell any two domains apart |
| Urls.PathDeterminesDomain | route_registry/models.py:101-105 | the same for path mode and domains of which neither extends the other by a path segment |
| Urls.AppNamesMeet | route_registry/models.py:93-97 | two uids can publish one app name exactly if they are equal or one extends the other by a dash |
| Urls.EphemeralUrlsDiffer | route_registry/models.py:98-99 | in an ephemeral domain, different UUIDs publish different URLs whatever the names |
| Urls.NamesMeetExactly | route_registry/models.py:85-105 | a user of a user domain and any user of any domain have names for the same URL if and only if their domains and uids overlap (`Urls.Overlaps`): in either mode, for every kind of domain, for all uids and domain values |
| Urls.OverlapNames | route_registry/models.py:85-105 | such names, the second no longer than uid and domain value together plus two |
| NoCollision.EveryRouteIsPublished | route_registry/services.py:130-161 | every route of every store reached from an empty route table has the URL its domain gives its one owner for its name |
| NoCollision.UserDomainsNeverCollide | route_registry/models.py:85-105 | in every store reached from an empty route table, with domains kept apart (by their values, or by dot-free names in subdomain mode) and uids that do not meet (equal up to a leading slash in path mode, or one extending the other by a dash), a URL determines its domain, and in a user domain its name and owner too |
| NoCollision.UserDomainNeverTaken | route_registry/services.py:135-137 | under these conditions a registration in a user domain is never refused |
| NoCollision.DashExtensionCollides | route_registry/models.py:93-97 | for any two uids of which one extends the other, two registrations of which the second is refused |
| NoCollision.RefusalNeedsClash | route_registry/services.py:135-137 | over every run from an empty route table, an open user domain refuses a registration only if two different users overlap there (`NoCollision.CanClash`) |
| NoCollision.RefusedExactlyByNames | route_registry/services.py:134-161 | an open user domain refuses some registration after some other, made in whatever domain, if and only if two users have names for one URL and the first's fit their columns |
| NoCollision.RefusedExactlyByClash | route_registry/services.py:134-161 | where the columns have room, if and only if two different users overlap: a condition on uids, domain values, kinds and restrictions alone |
| NoCollision.SubdomainClashExactly | route_registry/models.py:101-105 | in subdomain mode that is: some uid extends another by a dash, or there are two users and an open domain that is not a user domain and lies below the user domain, or above it if it is standard or the labels between end in a UUID |
| NoCollision.ClashExactlyByUids | route_registry/models.py:93-105 | with domains kept apart by their values, in either mode, two users overlap if and only if their uids meet, in path mode up to a leading slash |
| NoCollision.TakenExactlyByUids | route_registry/services.py:135-137 | so there a user domain refuses a registration after another if and only if two uids meet |
| NoCollision.SubdomainCollides | route_registry/models.py:101-105 | a domain below a user domain collides with it |
| Interleaving.EveryInterleaving | route_registry/services.py:134-161 | over every interleaving of reads, commits and other workflows, URLs stay unique, each pending rebind is still an owner's when it commits, and routes keep id, URL, target, domain and owners |
| Interleaving.CreateCommits | route_registry/service/uow.py:88-93 | a creation commits exactly if its row is accepted at that moment; for a URL taken by then it leaves no trace and fails with UOWException if a value is too long for its column, with AlreadyExists otherwise; a reference that no longer holds is no error but leaves no trace either |
| Interleaving.AtMostOneCreatorWins | route_registry/store/orm.py:71-84 | of all pending creations of one URL at most one wins, after any events in between, and the winner's route stays as it was made |
| Interleaving.UninterruptedIsSerial | route_registry/services.py:120-161 | a registration with nothing between its read and its commit is the serial one |
| Interleaving.CommitMovesExactly | route_registry/services.py:139-140 | a commit moves a route from one community to another if and only if it rebinds the route with another community that is stored |
| Interleaving.OverlappedRebind | route_registry/services.py:134-144 | whatever happens between its read and its commit, a rebind succeeds; it moves the route between communities if and only if the route had none at the read, the caller brought one, and it is in another by the commit; it leaves the route VERIFIED if and only if the route was not VERIFIED at the read or still is at the commit |
| Interleaving.OverlappingRebindMoves | route_registry/services.py:139-140 | the witness: a join between read and commit is overwritten |
| Interleaving.AcceptedButUnverified | route_registry/services.py:142-144 | the witness: a registration of a VERIFIED route that is unverified between read and commit succeeds and leaves the route UNVERIFIED with a new last contact |

## Left out

- Deletion of users, groups, domains and communities: what becomes of dependent rows depends on cascade rules of the mapper.
- Routes are never deleted by the registry, and the bind API for restricted domains that the code mentions is not part of it.
- The membership request's status changes and listing: single-row reads; nothing approves a request yet.
- Overlapping refreshes, sweeps and unverifications: each is one serial transaction here; only registrations overlap.
- Creating users and groups: steps of a run (`AddUser`, `AddGroup`), without methods of their own.
- Column widths of route tokens, entity ids and `duid`: these values are generated or unused here.
- The outcome of an integrity violation is classified by its kind; the source looks for the word "unique" in the driver's
  message, which for a foreign-key violation also quotes the offending value.
- Failures of the database itself, such as lost connections, and SQLite, which does not enforce foreign keys and widths.
- LIKE itself: it differs between databases, and is a parameter of the route list.
- NoCollision.RefusedExactlyByClash: assumes room in the columns (`NoCollision.Roomy`), because a name that would collide
  may be too long to be stored; `NoCollision.RefusedExactlyByNames` has the exact condition without that.
- Tokens.RegisteredIsVerified: the transaction of a registration is one step there; for one that overlaps with other steps
  see `Interleaving.OverlappedRebind`.
- Over-long values written into loaded rows: no workflow writes text into one.
- JSON-schema validation, HTTP fetching and its error mapping: the result is the `Response` parameter.
- Token signing, decoding, claim checks, leeway, admin tokens and role guards: `presentable` stands for their outcome.
- `validate_route` and `fetch_authorization`: a legacy path with the store effects of a refresh and a password check.
- FastAPI, Celery, APScheduler and Holepunch: only the order of enqueued jobs and the times of sweeps are kept.
- An empty domain value: how such a URL is assembled depends on the Python version.
- Alembic migrations; where they differ from the mapped tables (the key of membership requests), the tables are followed.
