/** The part of the store one route owns: its row and its rules. Refreshes and sweeps change nothing else. */
module Cells {
  import opened Common
  import opened Models
  import opened Schema

  datatype Cell = Cell(row: Route, rules: set<Rule>)

  function RulesOf(rules: set<Rule>, r: Id): set<Rule> {
    set x | x in rules && x.route == r
  }

  function CellOf(s: Store, r: Id): Cell
    requires r in s.routes
  {
    Cell(s.routes[r], RulesOf(s.rules, r))
  }

  function Put(s: Store, r: Id, cell: Cell): Store {
    s.(routes := s.routes[r := cell.row], rules := (s.rules - RulesOf(s.rules, r)) + cell.rules)
  }

  predicate OnRoute(r: Id, rules: set<Rule>) {
    forall x :: x in rules ==> x.route == r
  }

  /** The fields of a route that nothing in the registry writes after its creation. */
  ghost predicate SameIdentity(a: Route, b: Route) {
    && a.domain == b.domain
    && a.name == b.name
    && a.src == b.src
    && a.dst == b.dst
    && a.token == b.token
    && a.owners == b.owners
  }

  lemma PutThenRead(s: Store, r: Id, cell: Cell)
    requires OnRoute(r, cell.rules)
    ensures CellOf(Put(s, r, cell), r) == cell
    ensures forall q :: q in s.routes && q != r ==> CellOf(Put(s, r, cell), q) == CellOf(s, q)
  {
    assert RulesOf(Put(s, r, cell).rules, r) == cell.rules;
    forall q | q in s.routes && q != r
      ensures RulesOf(Put(s, r, cell).rules, q) == RulesOf(s.rules, q)
    {
    }
  }

  lemma PutSame(s: Store, r: Id)
    requires r in s.routes
    ensures Put(s, r, CellOf(s, r)) == s
  {
    assert s.routes[r := s.routes[r]] == s.routes;
    assert (s.rules - RulesOf(s.rules, r)) + RulesOf(s.rules, r) == s.rules;
  }

  /** A cell may replace another when it keeps the identity, refers to known rows and has one rule per entity. */
  ghost predicate Fits(s: Store, r: Id, cell: Cell) {
    && r in s.routes
    && SameIdentity(s.routes[r], cell.row)
    && (cell.row.community.Some? ==> cell.row.community.value in s.communities)
    && OnRoute(r, cell.rules)
    && (forall x :: x in cell.rules ==> x.entity in s.Entities())
    && (forall a, b :: a in cell.rules && b in cell.rules && a.entity == b.entity ==> a == b)
  }

  lemma PutKeepsColumns(routes: map<Id, Route>, r: Id, row: Route)
    requires r in routes && SameIdentity(routes[r], row)
    ensures Srcs(routes[r := row]) == Srcs(routes)
    ensures Tokens(routes[r := row]) == Tokens(routes)
  {
  }

  lemma PutKeepsRoutes(s: Store, r: Id, cell: Cell)
    requires s.ValidRoutes() && Fits(s, r, cell)
    ensures Put(s, r, cell).ValidRoutes()
  {
    PutKeepsColumns(s.routes, r, cell.row);
  }

  lemma PutKeepsRules(s: Store, r: Id, cell: Cell)
    requires s.ValidRules() && Fits(s, r, cell)
    ensures Put(s, r, cell).ValidRules()
  {
  }

  lemma PutKeepsValid(s: Store, r: Id, cell: Cell)
    requires s.Valid() && Fits(s, r, cell)
    ensures Put(s, r, cell).Valid()
  {
    PutKeepsRoutes(s, r, cell);
    PutKeepsRules(s, r, cell);
    assert Put(s, r, cell).routes.Keys == s.routes.Keys;
  }

  /** Stores that agree outside routes and rules, and cell by cell inside, are equal. */
  lemma EqualByCells(a: Store, b: Store)
    requires a.ValidRules() && b.ValidRules()
    requires a.(routes := b.routes, rules := b.rules) == b
    requires a.routes.Keys == b.routes.Keys
    requires forall r :: r in a.routes ==> CellOf(a, r) == CellOf(b, r)
    ensures a == b
  {
    forall r | r in a.routes
      ensures a.routes[r] == b.routes[r]
    {
      assert CellOf(a, r) == CellOf(b, r);
    }
    assert a.routes == b.routes;
    forall x
      ensures x in a.rules <==> x in b.rules
    {
      if x in a.rules {
        assert CellOf(a, x.route) == CellOf(b, x.route);
        assert x in RulesOf(a.rules, x.route);
      }
      if x in b.rules {
        assert CellOf(a, x.route) == CellOf(b, x.route);
        assert x in RulesOf(b.rules, x.route);
      }
    }
    assert a.rules == b.rules;
  }

  // ---------------------------------------------------------------- many cells at once

  function CellRules(cells: map<Id, Cell>): set<Rule> {
    set r, x | r in cells && x in cells[r].rules :: x
  }

  function RowsWith(routes: map<Id, Route>, cells: map<Id, Cell>): map<Id, Route> {
    map r | r in routes.Keys + cells.Keys :: if r in cells then cells[r].row else routes[r]
  }

  function PutAll(s: Store, cells: map<Id, Cell>): Store {
    s.(routes := RowsWith(s.routes, cells), rules := (set x | x in s.rules && x.route !in cells) + CellRules(cells))
  }

  ghost predicate AllOnRoute(cells: map<Id, Cell>) {
    forall r :: r in cells ==> OnRoute(r, cells[r].rules)
  }

  lemma PutNone(s: Store)
    ensures PutAll(s, map[]) == s
  {
    assert PutAll(s, map[]).routes == s.routes;
    assert PutAll(s, map[]).rules == s.rules;
  }

  lemma CellRulesOneMore(cells: map<Id, Cell>, r: Id, cell: Cell)
    requires r !in cells
    ensures CellRules(cells[r := cell]) == CellRules(cells) + cell.rules
  {
    var more := cells[r := cell];
    forall x | x in CellRules(cells) + cell.rules
      ensures x in CellRules(more)
    {
      if x in cell.rules {
        assert x in more[r].rules;
      } else {
        var q :| q in cells && x in cells[q].rules;
        assert x in more[q].rules;
      }
    }
  }

  lemma PutOneMore(s: Store, cells: map<Id, Cell>, r: Id, cell: Cell)
    requires AllOnRoute(cells) && r !in cells && OnRoute(r, cell.rules)
    ensures PutAll(s, cells[r := cell]) == Put(PutAll(s, cells), r, cell)
  {
    CellRulesOneMore(cells, r, cell);
    PutOneMoreRules(s, cells, r, cell);
    assert RowsWith(s.routes, cells[r := cell]) == RowsWith(s.routes, cells)[r := cell.row];
  }

  lemma PutOneMoreRules(s: Store, cells: map<Id, Cell>, r: Id, cell: Cell)
    requires AllOnRoute(cells) && r !in cells
    requires CellRules(cells[r := cell]) == CellRules(cells) + cell.rules
    ensures PutAll(s, cells[r := cell]).rules == Put(PutAll(s, cells), r, cell).rules
  {
    assert forall x :: x in CellRules(cells) ==> x.route != r;
  }

  lemma RowsKeepColumns(routes: map<Id, Route>, cells: map<Id, Cell>)
    requires cells.Keys <= routes.Keys
    requires forall r :: r in cells ==> SameIdentity(routes[r], cells[r].row)
    ensures RowsWith(routes, cells).Keys == routes.Keys
    ensures Srcs(RowsWith(routes, cells)) == Srcs(routes)
    ensures Tokens(RowsWith(routes, cells)) == Tokens(routes)
  {
  }

  lemma PutAllKeepsRoutes(s: Store, cells: map<Id, Cell>)
    requires s.ValidRoutes() && forall r :: r in cells ==> Fits(s, r, cells[r])
    ensures PutAll(s, cells).ValidRoutes()
    ensures PutAll(s, cells).routes.Keys == s.routes.Keys
  {
    RowsKeepColumns(s.routes, cells);
  }

  lemma PutAllKeepsRules(s: Store, cells: map<Id, Cell>)
    requires s.ValidRules() && forall r :: r in cells ==> Fits(s, r, cells[r])
    requires PutAll(s, cells).routes.Keys == s.routes.Keys
    ensures PutAll(s, cells).ValidRules()
  {
    assert forall x :: x in CellRules(cells) ==> x.route in cells && x in cells[x.route].rules;
  }

  lemma PutAllKeepsValid(s: Store, cells: map<Id, Cell>)
    requires s.Valid() && forall r :: r in cells ==> Fits(s, r, cells[r])
    ensures PutAll(s, cells).Valid()
  {
    PutAllKeepsRoutes(s, cells);
    PutAllKeepsRules(s, cells);
  }

  lemma PutAllCells(s: Store, cells: map<Id, Cell>)
    requires AllOnRoute(cells)
    ensures forall r :: r in s.routes ==> CellOf(PutAll(s, cells), r) == if r in cells then cells[r] else CellOf(s, r)
  {
    forall r | r in s.routes
      ensures RulesOf(PutAll(s, cells).rules, r) == if r in cells then cells[r].rules else RulesOf(s.rules, r)
    {
    }
  }
}
