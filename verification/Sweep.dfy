/** The periodic sweep: `check_routes` and `unverify_route`. */
module Sweep {
  import opened Common
  import opened Models
  import opened Schema
  import opened UnitOfWork
  import opened Repository
  import opened Cells
  import opened Refresh

  /** Whole days between two instants; `diff` is absolute. */
  function Days(a: Time, b: Time): int {
    (if a < b then b - a else a - b) / DAY
  }

  predicate Stale(now: Time, lastContact: Time, staleDuration: int) {
    Days(now, lastContact) > staleDuration
  }

  /** A contact is stale exactly from `staleDuration + 1` whole days away, before or after. */
  lemma StaleFrom(now: Time, lastContact: Time, staleDuration: int)
    ensures lastContact <= now ==>
      (Stale(now, lastContact, staleDuration) <==> now >= lastContact + (staleDuration + 1) * DAY)
    ensures now <= lastContact ==>
      (Stale(now, lastContact, staleDuration) <==> now <= lastContact - (staleDuration + 1) * DAY)
  {
    var gap := if now < lastContact then lastContact - now else now - lastContact;
    assert gap == (gap / DAY) * DAY + gap % DAY;
  }

  function UnverifiedRow(row: Route): Route {
    row.(verification := Unverified, status := Down)
  }

  function Unverify(s: Store, r: Id): Store {
    if r !in s.routes then s else s.(routes := s.routes[r := UnverifiedRow(s.routes[r])])
  }

  method UnverifyRoute(db: Database, routeId: Id) returns (r: Result<()>)
    requires db.store.Valid()
    modifies db
    ensures db.store == Unverify(old(db.store), routeId) && db.store.Valid()
    ensures r == if routeId in old(db.store).routes then Ok(()) else Err(AttributeError)
    ensures r.Err? ==> db.store == old(db.store)
    ensures r.Ok? ==>
      var was := old(db.store).routes[routeId];
      db.store == old(db.store).(
        routes := old(db.store).routes[routeId := was.(verification := Unverified, status := Down)])
  {
    var session := new Session(db);
    if routeId !in session.store.routes {
      return Err(AttributeError);
    }
    var route := session.store.routes[routeId];
    RowUpdateKeepsValid(session.store, routeId, UnverifiedRow(route), session.store.rules);
    session.store := session.store.(routes := session.store.routes[routeId := UnverifiedRow(route)]);
    var outcome := session.Commit();
    return Ok(());
  }

  /**
   What one sweep does to an active route, as a function of its own row and rules, its own reply and the
   last contact the snapshot recorded: a refresh, then unverification if that contact was stale.
   */
  ghost function SweptCell(s: Store, r: Id, now: Time, staleDuration: int, reply: Reply): Cell
    requires r in s.routes
  {
    var refreshed := UpdateCell(s, r, reply);
    if Stale(now, s.routes[r].lastContact, staleDuration)
    then refreshed.(row := UnverifiedRow(refreshed.row))
    else refreshed
  }

  ghost function SweptCells(s: Store, done: set<Id>, now: Time, staleDuration: int, replies: Id -> Reply): map<Id, Cell>
    requires done <= s.routes.Keys
  {
    map r | r in done :: SweptCell(s, r, now, staleDuration, replies(r))
  }

  /** The store in which exactly the routes `done` have been swept, each from the state it has in `s`. */
  ghost function Swept(s: Store, done: set<Id>, now: Time, staleDuration: int, replies: Id -> Reply): Store
    requires done <= s.routes.Keys
  {
    PutAll(s, SweptCells(s, done, now, staleDuration, replies))
  }

  lemma SweptCellFits(s: Store, r: Id, now: Time, staleDuration: int, reply: Reply)
    requires s.Valid() && r in s.routes
    ensures Fits(s, r, SweptCell(s, r, now, staleDuration, reply))
  {
    UpdateFits(s, r, reply);
  }

  lemma SweptCellsPlaced(s: Store, done: set<Id>, now: Time, staleDuration: int, replies: Id -> Reply)
    requires s.Valid() && done <= s.routes.Keys
    ensures AllOnRoute(SweptCells(s, done, now, staleDuration, replies))
  {
    forall q | q in done {
      SweptCellFits(s, q, now, staleDuration, replies(q));
    }
  }

  lemma SweptNothing(s: Store, now: Time, staleDuration: int, replies: Id -> Reply)
    ensures Swept(s, {}, now, staleDuration, replies) == s
  {
    PutNone(s);
    assert SweptCells(s, {}, now, staleDuration, replies) == map[];
  }

  lemma SweptKeepsValid(s: Store, done: set<Id>, now: Time, staleDuration: int, replies: Id -> Reply)
    requires s.Valid() && done <= s.routes.Keys
    ensures Swept(s, done, now, staleDuration, replies).Valid()
  {
    var cells := SweptCells(s, done, now, staleDuration, replies);
    forall r | r in done
      ensures Fits(s, r, cells[r])
    {
      SweptCellFits(s, r, now, staleDuration, replies(r));
    }
    PutAllKeepsValid(s, cells);
  }

  /** One turn of the loop: refresh the route, then unverify it if the snapshot's contact is stale. */
  ghost function Turn(s: Store, r: Id, lastContact: Time, now: Time, staleDuration: int, reply: Reply): Store {
    var refreshed := Updated(s, r, reply);
    if Stale(now, lastContact, staleDuration) then Unverify(refreshed, r) else refreshed
  }

  lemma TurnIsPut(s: Store, r: Id, now: Time, staleDuration: int, reply: Reply)
    requires s.Valid() && r in s.routes
    ensures Turn(s, r, s.routes[r].lastContact, now, staleDuration, reply) ==
            Put(s, r, SweptCell(s, r, now, staleDuration, reply))
  {
    var cell := UpdateCell(s, r, reply);
    UpdateFits(s, r, reply);
    PutThenRead(s, r, cell);
    RowUpdateIsPut(Put(s, r, cell), r, UnverifiedRow(cell.row));
    assert CellOf(Put(s, r, cell), r) == cell;
  }

  lemma SweptIsPut(s: Store, done: set<Id>, r: Id, now: Time, staleDuration: int, replies: Id -> Reply)
    requires s.Valid() && done <= s.routes.Keys && r in s.routes && r !in done
    ensures Swept(s, done + {r}, now, staleDuration, replies) ==
            Put(Swept(s, done, now, staleDuration, replies), r, SweptCell(s, r, now, staleDuration, replies(r)))
  {
    var cells := SweptCells(s, done, now, staleDuration, replies);
    var cell := SweptCell(s, r, now, staleDuration, replies(r));
    SweptCellsPlaced(s, done, now, staleDuration, replies);
    SweptCellFits(s, r, now, staleDuration, replies(r));
    assert SweptCells(s, done + {r}, now, staleDuration, replies) == cells[r := cell];
    PutOneMore(s, cells, r, cell);
  }

  /** Taking one more turn sweeps one route more. */
  lemma SweepOneMore(s: Store, done: set<Id>, r: Id, now: Time, staleDuration: int, replies: Id -> Reply)
    requires s.Valid() && done <= s.routes.Keys && r in s.routes && r !in done
    ensures Swept(s, done + {r}, now, staleDuration, replies) ==
            Turn(Swept(s, done, now, staleDuration, replies),
              r, s.routes[r].lastContact, now, staleDuration, replies(r))
    ensures Swept(s, done, now, staleDuration, replies).Valid()
    ensures r in Swept(s, done, now, staleDuration, replies).routes
  {
    var part := Swept(s, done, now, staleDuration, replies);
    SweptCellsPlaced(s, done, now, staleDuration, replies);
    PutAllCells(s, SweptCells(s, done, now, staleDuration, replies));
    SweptKeepsValid(s, done, now, staleDuration, replies);
    assert CellOf(part, r) == CellOf(s, r);
    TurnIsPut(part, r, now, staleDuration, replies(r));
    SweptIsPut(s, done, r, now, staleDuration, replies);
  }

  /** A whole sweep, as a function of the store. */
  ghost function SweepAll(s: Store, now: Time, staleDuration: int, replies: Id -> Reply): Store {
    Swept(s, ActiveRoutes(s.routes), now, staleDuration, replies)
  }

  /** The body of the sweep's loop: what the refresh raises is swallowed, a failed unverification is not. */
  method CheckRoute(db: Database, route: Id, lastContact: Time, now: Time, staleDuration: int, reply: Reply)
    returns (r: Result<()>)
    requires db.store.Valid() && route in db.store.routes
    modifies db
    ensures db.store == Turn(old(db.store), route, lastContact, now, staleDuration, reply)
    ensures db.store.Valid() && r == Ok(())
  {
    var swallowed := UpdateRoute(db, route, reply);
    if Stale(now, lastContact, staleDuration) {
      r := UnverifyRoute(db, route);
      return r;
    }
    return Ok(());
  }

  /**
   `check_routes`, with the clock read before the snapshot and a reply for every route. It takes the routes in any
   order; staleness is judged on the snapshot, not on the refreshed row. The outcome is that of the pointwise
   specification on every route that was active at the snapshot.
   */
  method CheckRoutes(db: Database, now: Time, staleDuration: int, replies: Id -> Reply) returns (r: Result<()>)
    requires db.store.Valid()
    modifies db
    ensures db.store == SweepAll(old(db.store), now, staleDuration, replies)
    ensures db.store.Valid() && r == Ok(())
  {
    var snapshot := db.store.routes;
    var todo := ActiveRoutes(snapshot);
    ghost var done: set<Id> := {};
    ghost var before := db.store;
    SweptNothing(before, now, staleDuration, replies);
    while todo != {}
      invariant todo + done == ActiveRoutes(snapshot) && todo !! done
      invariant db.store == Swept(before, done, now, staleDuration, replies)
      decreases todo
    {
      var route :| route in todo;
      SweepOneMore(before, done, route, now, staleDuration, replies);
      r := CheckRoute(db, route, snapshot[route].lastContact, now, staleDuration, replies(route));
      if r.Err? {
        return r;
      }
      todo, done := todo - {route}, done + {route};
    }
    SweptKeepsValid(before, done, now, staleDuration, replies);
    return Ok(());
  }

  /**
   The sweep is pointwise: each route active at the snapshot ends as `SweptCell` of what it was, every other
   route, every rule of another route and every other table is as before, and a successful refresh does not
   rescue a route whose snapshot was stale.
   */
  lemma SweepIsPointwise(s: Store, now: Time, staleDuration: int, replies: Id -> Reply, r: Id)
    requires s.Valid() && r in s.routes
    ensures
      var s' := SweepAll(s, now, staleDuration, replies);
      && s'.(routes := s.routes, rules := s.rules) == s
      && s'.routes.Keys == s.routes.Keys
      && (!Active(s.routes[r]) ==> CellOf(s', r) == CellOf(s, r))
      && (Active(s.routes[r]) ==>
            && RulesOf(s'.rules, r) == RulesOf(Updated(s, r, replies(r)).rules, r)
            && s'.routes[r].lastContact == Updated(s, r, replies(r)).routes[r].lastContact
            && (Stale(now, s.routes[r].lastContact, staleDuration) ==>
                  s'.routes[r].verification == Unverified && s'.routes[r].status == Down)
            && (!Stale(now, s.routes[r].lastContact, staleDuration) ==>
                  s'.routes[r] == Updated(s, r, replies(r)).routes[r]))
  {
    SweptCellsPlaced(s, ActiveRoutes(s.routes), now, staleDuration, replies);
    PutAllCells(s, SweptCells(s, ActiveRoutes(s.routes), now, staleDuration, replies));
    UpdateFits(s, r, replies(r));
    PutThenRead(s, r, UpdateCell(s, r, replies(r)));
    assert CellOf(Updated(s, r, replies(r)), r) == UpdateCell(s, r, replies(r));
  }
}
