/** `from_route`: splitting the rules of a route back into allowed and disallowed users and groups. */
module Adapter {
  import opened Common
  import opened Models
  import opened Schema
  import opened Repository
  import opened Cells
  import opened Refresh

  /** The names of one kind of entity (`names`) that `rules` give policy `policy`, in the order of the rules. */
  function Listed(names: map<Id, string>, rules: seq<Rule>, policy: Policy): seq<string> {
    if rules == [] then []
    else
      var last := rules[|rules| - 1];
      Listed(names, rules[..|rules| - 1], policy) +
      (if last.policy == policy && last.entity in names then [names[last.entity]] else [])
  }

  method FromRoute(users: map<Id, User>, groups: map<Id, Group>, rules: seq<Rule>)
    returns (allowed: EntitySet, disallowed: EntitySet)
    requires users.Keys !! groups.Keys
    requires forall x :: x in rules ==> x.entity in users.Keys + groups.Keys
    ensures allowed == EntitySet(Listed(Uids(users), rules, Allow), Listed(GroupNames(groups), rules, Allow))
    ensures disallowed == EntitySet(Listed(Uids(users), rules, Deny), Listed(GroupNames(groups), rules, Deny))
  {
    allowed, disallowed := EntitySet([], []), EntitySet([], []);
    for i := 0 to |rules|
      invariant allowed.users == Listed(Uids(users), rules[..i], Allow)
      invariant allowed.groups == Listed(GroupNames(groups), rules[..i], Allow)
      invariant disallowed.users == Listed(Uids(users), rules[..i], Deny)
      invariant disallowed.groups == Listed(GroupNames(groups), rules[..i], Deny)
    {
      var rule := rules[i];
      assert rules[..i + 1][..i] == rules[..i];
      var policySet := if rule.policy == Allow then allowed else disallowed;
      if rule.entity in users {
        policySet := policySet.(users := policySet.users + [users[rule.entity].uid]);
      } else {
        policySet := policySet.(groups := policySet.groups + [groups[rule.entity].name]);
      }
      if rule.policy == Allow {
        allowed := policySet;
      } else {
        disallowed := policySet;
      }
    }
    assert rules[..|rules|] == rules;
  }

  /** Listing rules that name each entity once yields each name once, and the names of exactly those entities. */
  lemma {:induction false} ListedNames(names: map<Id, string>, rules: seq<Rule>, policy: Policy)
    requires Injective(names)
    requires forall i, j :: 0 <= i < j < |rules| ==> rules[i].entity != rules[j].entity
    ensures forall n :: n in Listed(names, rules, policy) <==>
      exists x :: x in rules && x.policy == policy && x.entity in names && names[x.entity] == n
    ensures Distinct(Listed(names, rules, policy))
  {
    if rules != [] {
      var k := |rules| - 1;
      var init, last := rules[..k], rules[k];
      assert rules == init + [last];
      ListedNames(names, init, policy);
      assert forall x :: x in rules <==> x in init || x == last;
      if last.policy == policy && last.entity in names {
        assert names[last.entity] !in Listed(names, init, policy);
      }
    }
  }

  /**
   Round trip: once a document has been accepted for a route, reading the rules of the route back gives
   permutations of the document's four lists, whatever order the rules come in, and even when a user and a
   group have the same name.
   */
  lemma RoundTrip(s: Store, r: Id, reply: Reply, rules: seq<Rule>)
    requires s.Valid() && r in s.routes && UpdateResult(s, r, reply).Ok?
    requires Enumerates(rules, RulesOf(Updated(s, r, reply).rules, r))
    ensures
      && reply.response.Fetched?
      && reply.response.document.allowed.Some? && reply.response.document.disallowed.Some?
      && var allowed, disallowed := reply.response.document.allowed.value, reply.response.document.disallowed.value;
      && multiset(Listed(Uids(s.users), rules, Allow)) == multiset(Given(allowed.users))
      && multiset(Listed(Uids(s.users), rules, Deny)) == multiset(Given(disallowed.users))
      && multiset(Listed(GroupNames(s.groups), rules, Allow)) == multiset(Given(allowed.groups))
      && multiset(Listed(GroupNames(s.groups), rules, Deny)) == multiset(Given(disallowed.groups))
  {
    AllOrNothing(s, r, reply);
    ReadBack(s.users, s.groups, r, ParseAuthorization(reply.response.document).value, rules);
  }

  lemma ReadBack(users: map<Id, User>, groups: map<Id, Group>, r: Id, a: Authorization, rules: seq<Rule>)
    requires ValidDirectory(users, groups) && Resolves(users, groups, a) && !Contradicts(a)
    requires Enumerates(rules, DocumentRules(users, groups, r, a))
    ensures multiset(Listed(Uids(users), rules, Allow)) == multiset(a.allowed.users)
    ensures multiset(Listed(Uids(users), rules, Deny)) == multiset(a.disallowed.users)
    ensures multiset(Listed(GroupNames(groups), rules, Allow)) == multiset(a.allowed.groups)
    ensures multiset(Listed(GroupNames(groups), rules, Deny)) == multiset(a.disallowed.groups)
  {
    var all := DocumentRules(users, groups, r, a);
    ClashIsContradiction(users, groups, r, a);
    forall x | x in all {
      RuleComesFrom(users, groups, r, a, x);
    }
    assert forall i, j :: 0 <= i < j < |rules| ==> rules[i].entity != rules[j].entity by {
      assert forall x :: x in all ==> x.route == r;
    }
    OneList(Uids(users), r, rules, all, Allow, a.allowed.users);
    OneList(Uids(users), r, rules, all, Deny, a.disallowed.users);
    OneList(GroupNames(groups), r, rules, all, Allow, a.allowed.groups);
    OneList(GroupNames(groups), r, rules, all, Deny, a.disallowed.groups);
  }

  lemma OneList(names: map<Id, string>, r: Id, rules: seq<Rule>, all: set<Rule>, policy: Policy, wanted: seq<string>)
    requires Injective(names) && Resolvable(names, wanted)
    requires Enumerates(rules, all)
    requires forall i, j :: 0 <= i < j < |rules| ==> rules[i].entity != rules[j].entity
    requires forall x :: x in all && x.policy == policy && x.entity in names ==> names[x.entity] in wanted
    requires Grant(r, Matched(names, wanted), policy) <= all
    ensures multiset(Listed(names, rules, policy)) == multiset(wanted)
  {
    ListedNames(names, rules, policy);
    forall n | n in wanted
      ensures n in Listed(names, rules, policy)
    {
      var e :| e in names && names[e] == n;
      assert Rule(r, e, policy) in Grant(r, Matched(names, wanted), policy);
    }
    SameElementsPermute(Listed(names, rules, policy), wanted);
  }
}
