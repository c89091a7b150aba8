/** Queues of refresh tasks: what a queue does to one route depends on that route's own tasks alone. */
module TaskQueue {
  import opened Common
  import opened Models
  import opened Schema
  import opened Cells
  import opened Refresh

  /** One execution of the `update_route` task, with the reply it happens to get. */
  datatype Task = Task(route: Id, reply: Reply)

  ghost function Work(s: Store, tasks: seq<Task>): Store
    decreases |tasks|
  {
    if tasks == [] then s
    else Work(Updated(s, tasks[0].route, tasks[0].reply), tasks[1..])
  }

  /** The tasks of one route, in their order. */
  function Project(tasks: seq<Task>, r: Id): seq<Task>
    decreases |tasks|
  {
    if tasks == [] then []
    else (if tasks[0].route == r then [tasks[0]] else []) + Project(tasks[1..], r)
  }

  /** What a sequence of replies makes of one cell, given only the users and groups. */
  ghost function Fold(users: map<Id, User>, groups: map<Id, Group>, r: Id, cell: Cell, tasks: seq<Task>): Cell
    decreases |tasks|
  {
    if tasks == [] then cell
    else
      var reply := tasks[0].reply;
      Fold(users, groups, r, Obey(cell, Judge(users, groups, r, reply.response), reply.at), tasks[1..])
  }

  lemma UpdatedOnCell(s: Store, q: Id, reply: Reply, r: Id)
    requires s.Valid() && r in s.routes
    ensures
      var s' := Updated(s, q, reply);
      && s'.routes.Keys == s.routes.Keys
      && s'.(routes := s.routes, rules := s.rules) == s
      && CellOf(s', r) == if q == r then UpdateCell(s, r, reply) else CellOf(s, r)
  {
    if q in s.routes {
      UpdateFits(s, q, reply);
      PutThenRead(s, q, UpdateCell(s, q, reply));
    }
  }

  /** However the tasks of other routes are mixed in, a route ends as its own tasks alone leave it. */
  lemma {:induction false} QueueProjects(s: Store, tasks: seq<Task>, r: Id)
    requires s.Valid() && r in s.routes
    ensures r in Work(s, tasks).routes
    ensures CellOf(Work(s, tasks), r) == Fold(s.users, s.groups, r, CellOf(s, r), Project(tasks, r))
    decreases |tasks|
  {
    if tasks != [] {
      var q, reply := tasks[0].route, tasks[0].reply;
      var s1 := Updated(s, q, reply);
      UpdatedOnCell(s, q, reply, r);
      UpdatedKeepsValid(s, q, reply);
      QueueProjects(s1, tasks[1..], r);
      if q == r {
        assert Project(tasks, r)[1..] == Project(tasks[1..], r);
      } else {
        assert Project(tasks, r) == Project(tasks[1..], r);
      }
    }
  }

  lemma {:induction false} WorkFrame(s: Store, tasks: seq<Task>)
    requires s.Valid()
    ensures Work(s, tasks).Valid()
    ensures Work(s, tasks).routes.Keys == s.routes.Keys
    ensures Work(s, tasks).(routes := s.routes, rules := s.rules) == s
    decreases |tasks|
  {
    if tasks != [] {
      var q, reply := tasks[0].route, tasks[0].reply;
      UpdatedKeepsValid(s, q, reply);
      WorkFrame(Updated(s, q, reply), tasks[1..]);
    }
  }

  /** A route ends the same as when only its own tasks are run. */
  lemma OwnTasksSuffice(s: Store, tasks: seq<Task>, r: Id)
    requires s.Valid() && r in s.routes
    ensures r in Work(s, tasks).routes && r in Work(s, Project(tasks, r)).routes
    ensures CellOf(Work(s, tasks), r) == CellOf(Work(s, Project(tasks, r)), r)
  {
    QueueProjects(s, tasks, r);
    QueueProjects(s, Project(tasks, r), r);
    ProjectTwice(tasks, r);
  }

  lemma {:induction false} ProjectTwice(tasks: seq<Task>, r: Id)
    ensures Project(Project(tasks, r), r) == Project(tasks, r)
    decreases |tasks|
  {
    if tasks != [] {
      ProjectTwice(tasks[1..], r);
      if tasks[0].route == r {
        assert Project(tasks, r)[1..] == Project(tasks[1..], r);
      } else {
        assert Project(tasks, r) == Project(tasks[1..], r);
      }
    }
  }

  /** Two queues with the same tasks for each route, however interleaved, leave the same store. */
  lemma QueuesPermute(s: Store, a: seq<Task>, b: seq<Task>)
    requires s.Valid()
    requires forall r :: r in s.routes ==> Project(a, r) == Project(b, r)
    ensures Work(s, a) == Work(s, b)
  {
    WorkFrame(s, a);
    WorkFrame(s, b);
    forall r | r in s.routes
      ensures CellOf(Work(s, a), r) == CellOf(Work(s, b), r)
    {
      QueueProjects(s, a, r);
      QueueProjects(s, b, r);
    }
    EqualByCells(Work(s, a), Work(s, b));
  }

  /**
   Retrying a task any number of times, with tasks of other routes in between, ends with the status and rules of
   its first run, as long as each try gets the same response.
   */
  lemma {:induction false} RetriesSettle(s: Store, first: Reply, retries: seq<Task>, r: Id)
    requires s.Valid() && r in s.routes
    requires forall i :: 0 <= i < |retries| && retries[i].route == r ==> retries[i].reply.response == first.response
    ensures
      var once := Updated(s, r, first);
      var end := Work(once, retries);
      && r in once.routes && r in end.routes
      && RulesOf(end.rules, r) == RulesOf(once.rules, r)
      && end.routes[r] == once.routes[r].(lastContact := end.routes[r].lastContact)
    decreases |retries|
  {
    var once := Updated(s, r, first);
    UpdatedOnCell(s, r, first, r);
    UpdatedKeepsValid(s, r, first);
    if retries != [] {
      var n := |retries| - 1;
      var init, last := retries[..n], retries[n];
      RetriesSettle(s, first, init, r);
      WorkFrame(once, init);
      WorkAppend(once, init, last);
      assert retries == init + [last];
      UpdatedOnCell(Work(once, init), last.route, last.reply, r);
      if last.route == r {
        SettledCell(s, once, Work(once, init), first, last.reply, r);
      } else {
        assert CellOf(Work(once, retries), r) == CellOf(Work(once, init), r);
      }
    }
  }

  lemma SettledCell(s: Store, once: Store, later: Store, first: Reply, again: Reply, r: Id)
    requires r in s.routes && r in once.routes && r in later.routes
    requires CellOf(once, r) == UpdateCell(s, r, first) && again.response == first.response
    requires later.users == s.users && later.groups == s.groups
    requires RulesOf(later.rules, r) == RulesOf(once.rules, r)
    requires later.routes[r] == once.routes[r].(lastContact := later.routes[r].lastContact)
    ensures UpdateCell(later, r, again).rules == RulesOf(once.rules, r)
    ensures UpdateCell(later, r, again).row ==
            once.routes[r].(lastContact := UpdateCell(later, r, again).row.lastContact)
  {
  }

  lemma {:induction false} WorkAppend(s: Store, init: seq<Task>, last: Task)
    ensures Work(s, init + [last]) == Updated(Work(s, init), last.route, last.reply)
    decreases |init|
  {
    if init != [] {
      assert (init + [last])[1..] == init[1..] + [last];
      WorkAppend(Updated(s, init[0].route, init[0].reply), init[1..], last);
    }
  }
}
