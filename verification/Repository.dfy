/** The queries of the repositories, and the count test that guards a bulk lookup. */
module Repository {
  import opened Common
  import opened Models
  import opened Schema

  /** The ids whose name is one of `wanted`: `WHERE name IN (wanted)` returns each matching row once. */
  function Matched(names: map<Id, string>, wanted: seq<string>): set<Id> {
    set e | e in names && names[e] in wanted
  }

  /** Every wanted name is known and none is asked for twice. */
  ghost predicate Resolvable(names: map<Id, string>, wanted: seq<string>) {
    Distinct(wanted) && forall x :: x in wanted ==> x in names.Values
  }

  lemma MatchedOne(names: map<Id, string>, x: string)
    requires Injective(names)
    ensures |Matched(names, [x])| == if x in names.Values then 1 else 0
  {
    if x in names.Values {
      var e :| e in names && names[e] == x;
      assert Matched(names, [x]) == {e};
    } else {
      assert forall e :: e in names ==> names[e] in names.Values;
      assert Matched(names, [x]) == {};
    }
  }

  /**
   Comparing the length of the request with the number of rows is an exact test, by pigeonhole:
   with unique names the rows never outnumber the request, and are as many exactly when no name
   is unknown or repeated.
   */
  lemma {:induction false} CountTest(names: map<Id, string>, wanted: seq<string>)
    requires Injective(names)
    ensures |Matched(names, wanted)| <= |wanted|
    ensures |Matched(names, wanted)| == |wanted| <==> Resolvable(names, wanted)
  {
    if wanted != [] {
      var n := |wanted| - 1;
      var init, x := wanted[..n], wanted[n];
      assert wanted == init + [x];
      CountTest(names, init);
      MatchedOne(names, x);
      assert Matched(names, wanted) == Matched(names, init) + Matched(names, [x]);
      if x in init {
        assert Matched(names, [x]) <= Matched(names, init);
        assert !Distinct(wanted);
      } else {
        assert Matched(names, [x]) !! Matched(names, init);
        assert Distinct(wanted) <==> Distinct(init);
        assert Resolvable(names, wanted) <==> Resolvable(names, init) && x in names.Values;
      }
    } else {
      assert Matched(names, wanted) == {};
    }
  }

  /** `SqlEntityRepo.get_users` and `get_groups`, which differ only in the table they read. */
  method GetAll(names: map<Id, string>, wanted: seq<string>) returns (r: Result<seq<Id>>)
    requires Injective(names)
    ensures r.Ok? <==> Resolvable(names, wanted)
    ensures r.Ok? ==> Enumerates(r.value, Matched(names, wanted))
    ensures r.Err? ==> r.error == MissingEntities
  {
    var rows := Rows(Matched(names, wanted));
    EnumeratesCount(rows, Matched(names, wanted));
    CountTest(names, wanted);
    if |wanted| != |rows| {
      return Err(MissingEntities);
    }
    return Ok(rows);
  }

  /** The one key holding `value` in a unique column, if any. */
  ghost function Holder<T>(column: map<Id, T>, value: T): (r: Option<Id>)
    ensures r.None? <==> value !in column.Values
    ensures r.Some? ==> r.value in column && column[r.value] == value
  {
    if value in column.Values then
      var k :| k in column && column[k] == value;
      Some(k)
    else
      None
  }

  method FindBy<T(==)>(column: map<Id, T>, value: T) returns (r: Option<Id>)
    requires Injective(column)
    ensures r == Holder(column, value)
  {
    if value in column.Values {
      var k :| k in column && column[k] == value;
      return Some(k);
    }
    return None;
  }

  /** The default domains; `get_default` fails unless there is exactly one. */
  function Defaults(domains: map<Id, Domain>): set<Id> {
    set d | d in domains && domains[d].isDefault
  }

  ghost function DefaultDomain(domains: map<Id, Domain>): (r: Result<Id>)
    ensures r.Ok? <==> |Defaults(domains)| == 1
    ensures r.Ok? ==> Defaults(domains) == {r.value}
    ensures r.Err? ==> r.error == if Defaults(domains) == {} then RepoNotFound else MultipleResults
  {
    if Defaults(domains) == {} then Err(RepoNotFound)
    else if |Defaults(domains)| > 1 then Err(MultipleResults)
    else
      var d :| d in Defaults(domains);
      assert |Defaults(domains) - {d}| == 0;
      Ok(d)
  }

  method GetDefault(domains: map<Id, Domain>) returns (r: Result<Id>)
    ensures r == DefaultDomain(domains)
  {
    var defaults := Defaults(domains);
    if defaults == {} {
      return Err(RepoNotFound);
    } else if |defaults| > 1 {
      return Err(MultipleResults);
    }
    var d :| d in defaults;
    assert |Defaults(domains) - {d}| == 0;
    return Ok(d);
  }

  predicate Active(route: Route) {
    route.verification == Verified && (route.status == Up || route.status == Down)
  }

  /** `SqlRouteRepo.list_active`. */
  function ActiveRoutes(routes: map<Id, Route>): set<Id> {
    set r | r in routes && Active(routes[r])
  }

  /** One clause of the WHERE that `SqlRouteRepo.list` builds up. */
  datatype Condition =
    | HasVerification(verification: Verification)
    | HasStatus(status: Status)
    | NamedLike(pattern: string)
    | OwnedBy(entity: Id)

  /** `like(name, pattern)` is the LIKE of the database. */
  predicate Holds(like: (string, string) -> bool, c: Condition, route: Route) {
    match c
    case HasVerification(v) => route.verification == v
    case HasStatus(s) => route.status == s
    case NamedLike(p) => like(route.name, p)
    case OwnedBy(e) => e in route.owners
  }

  predicate AllHold(like: (string, string) -> bool, conditions: seq<Condition>, route: Route) {
    forall c :: c in conditions ==> Holds(like, c, route)
  }

  lemma AddCondition(like: (string, string) -> bool, conditions: seq<Condition>, c: Condition)
    ensures forall route ::
      AllHold(like, conditions + [c], route) <==> AllHold(like, conditions, route) && Holds(like, c, route)
  {
    forall route: Route
      ensures AllHold(like, conditions + [c], route) <==> AllHold(like, conditions, route) && Holds(like, c, route)
    {
      assert forall x :: x in conditions + [c] <==> x in conditions || x == c;
    }
  }

  /** `SqlRouteRepo.list`: each filter given adds a condition, and no condition selects every route. */
  method ListRoutes(routes: map<Id, Route>, like: (string, string) -> bool, verification: Option<Verification>,
      status: Option<Status>, name: Option<string>, owner: Option<Id>)
    returns (found: set<Id>)
    ensures forall r :: r in found <==>
      && r in routes
      && (verification.Some? ==> routes[r].verification == verification.value)
      && (status.Some? ==> routes[r].status == status.value)
      && (name.Some? && name.value != "" ==> like(routes[r].name, name.value))
      && (owner.Some? && owner.value != "" ==> owner.value in routes[r].owners)
  {
    var conditions: seq<Condition> := [];
    if verification.Some? {
      AddCondition(like, conditions, HasVerification(verification.value));
      conditions := conditions + [HasVerification(verification.value)];
    }
    if status.Some? {
      AddCondition(like, conditions, HasStatus(status.value));
      conditions := conditions + [HasStatus(status.value)];
    }
    if name.Some? && name.value != "" {
      AddCondition(like, conditions, NamedLike(name.value));
      conditions := conditions + [NamedLike(name.value)];
    }
    if owner.Some? && owner.value != "" {
      AddCondition(like, conditions, OwnedBy(owner.value));
      conditions := conditions + [OwnedBy(owner.value)];
    }
    found := set r | r in routes && AllHold(like, conditions, routes[r]);
  }
}
