/** When the sweeps give a route up, and when they never do, over runs in which anything else may happen. */
module Liveness {
  import opened Common
  import opened Models
  import opened Schema
  import opened Repository
  import opened Cells
  import opened Refresh
  import opened Sweep
  import opened Runs
  import opened Invariants

  // ---------------------------------------------------------------- a route that is never reached

  /** Every sweep of the run fails to connect to the route, and reads a clock not before `since`. */
  ghost predicate NeverConnects(steps: seq<Step>, r: Id, since: Time) {
    forall i :: 0 <= i < |steps| && steps[i].SweepRoutes? ==>
      steps[i].replies(r).response == ConnectionFailed && since <= steps[i].now
  }

  /** Some sweep of the run reads a clock at or after `deadline`. */
  ghost predicate SweptAtOrAfter(steps: seq<Step>, deadline: Time) {
    exists i :: 0 <= i < |steps| && steps[i].SweepRoutes? && steps[i].now >= deadline
  }

  lemma SweptLast(steps: seq<Step>, deadline: Time)
    requires steps != []
    ensures
      var n := |steps| - 1;
      SweptAtOrAfter(steps, deadline) <==>
        SweptAtOrAfter(steps[..n], deadline) || (steps[n].SweepRoutes? && steps[n].now >= deadline)
  {
    var n := |steps| - 1;
    if i :| 0 <= i < n && steps[..n][i].SweepRoutes? && steps[..n][i].now >= deadline {
      assert steps[i] == steps[..n][i];
    }
    if i :| 0 <= i < |steps| && steps[i].SweepRoutes? && steps[i].now >= deadline {
      if i < n {
        assert steps[..n][i] == steps[i];
      }
    }
  }

  lemma SweepEndsAs(cfg: Config, s: Store, step: Step, r: Id)
    requires s.Valid() && r in s.routes && Active(s.routes[r]) && step.SweepRoutes?
    ensures r in Apply(cfg, s, step).routes
    ensures Apply(cfg, s, step).routes[r] == SweptCell(s, r, step.now, cfg.staleDuration, step.replies(r)).row
  {
    StepOnRoute(cfg, s, step, r);
    assert CellOf(Apply(cfg, s, step), r) == SweptCell(s, r, step.now, cfg.staleDuration, step.replies(r));
  }

  lemma MissedRow(s: Store, r: Id, now: Time, staleDuration: int, reply: Reply)
    requires r in s.routes && s.routes[r].verification == Verified && reply.response == ConnectionFailed
    ensures SweptCell(s, r, now, staleDuration, reply).row == s.routes[r].(status := Down,
              verification := if Stale(now, s.routes[r].lastContact, staleDuration) then Unverified else Verified)
  {
  }

  lemma ReachedRow(s: Store, r: Id, now: Time, staleDuration: int, reply: Reply)
    requires r in s.routes && Judge(s.users, s.groups, r, reply.response).Accept?
    requires !Stale(now, s.routes[r].lastContact, staleDuration)
    ensures SweptCell(s, r, now, staleDuration, reply).row == s.routes[r].(status := Up, lastContact := reply.at)
  {
  }

  lemma SweepMissesRoute(cfg: Config, s: Store, step: Step, r: Id)
    requires s.Valid() && r in s.routes && Active(s.routes[r])
    requires step.SweepRoutes? && step.replies(r).response == ConnectionFailed
    ensures
      var row := Apply(cfg, s, step).routes[r];
      && r in Apply(cfg, s, step).routes
      && row == s.routes[r].(status := Down,
           verification := if Stale(step.now, s.routes[r].lastContact, cfg.staleDuration) then Unverified else Verified)
  {
    SweepEndsAs(cfg, s, step, r);
    MissedRow(s, r, step.now, cfg.staleDuration, step.replies(r));
  }

  /**
   A VERIFIED route that is UP or DOWN and that no sweep can reach is given up by the first sweep at or after
   last contact + (stale duration + 1) days, and by none before: at the end of any run it is UNVERIFIED exactly if
   such a sweep was among the steps, and until then VERIFIED with its last contact as it was.
   */
  lemma {:induction false} GivenUpExactlyOnTime(cfg: Config, s: Store, steps: seq<Step>, r: Id)
    requires s.Valid() && r in s.routes
    requires s.routes[r].verification == Verified && s.routes[r].status in {Up, Down}
    requires OnlySwept(cfg, s, steps, r) && NeverConnects(steps, r, s.routes[r].lastContact)
    ensures
      var s' := Run(cfg, s, steps);
      var deadline := s.routes[r].lastContact + (cfg.staleDuration + 1) * DAY;
      && r in s'.routes
      && s'.routes[r].lastContact == s.routes[r].lastContact
      && (SweptAtOrAfter(steps, deadline) ==> s'.routes[r].verification == Unverified && s'.routes[r].status == Down)
      && (!SweptAtOrAfter(steps, deadline) ==>
            s'.routes[r].verification == Verified && s'.routes[r].status in {Up, Down})
    decreases |steps|
  {
    if steps != [] {
      var n := |steps| - 1;
      var init, last := steps[..n], steps[n];
      OnlySweptPrefix(cfg, s, steps, r, n);
      assert NeverConnects(init, r, s.routes[r].lastContact) by {
        assert forall i :: 0 <= i < n ==> init[i] == steps[i];
      }
      GivenUpExactlyOnTime(cfg, s, init, r);
      SweptLast(steps, s.routes[r].lastContact + (cfg.staleDuration + 1) * DAY);
      var before := Run(cfg, s, init);
      RunKeepsValid(cfg, s, init);
      if last.SweepRoutes? && Active(before.routes[r]) {
        StaleFrom(last.now, s.routes[r].lastContact, cfg.staleDuration);
        SweepMissesRoute(cfg, before, last, r);
      } else {
        LeftAlone(cfg, before, last, r);
      }
    }
  }

  // ---------------------------------------------------------------- a route that always answers

  /** Each sweep of the run fetches a document for the route that is accepted in the store of that moment. */
  ghost predicate AlwaysAnswers(cfg: Config, s: Store, steps: seq<Step>, r: Id) {
    forall i :: 0 <= i < |steps| && steps[i].SweepRoutes? ==>
      var now := Run(cfg, s, steps[..i]);
      Judge(now.users, now.groups, r, steps[i].replies(r).response).Accept?
  }

  /** The instant of the last successful refresh in the run, `since` if there was none. */
  ghost function LastAnswer(steps: seq<Step>, r: Id, since: Time): Time
    decreases |steps|
  {
    if steps == [] then since
    else
      var n := |steps| - 1;
      if steps[n].SweepRoutes? then steps[n].replies(r).at else LastAnswer(steps[..n], r, since)
  }

  /** Each sweep comes less than `staleDuration + 1` days after the answer before it. */
  ghost predicate GapsBelow(steps: seq<Step>, r: Id, since: Time, staleDuration: int) {
    forall i :: 0 <= i < |steps| && steps[i].SweepRoutes? ==>
      var last := LastAnswer(steps[..i], r, since);
      last <= steps[i].now < last + (staleDuration + 1) * DAY
  }

  lemma SweepReachesRoute(cfg: Config, s: Store, step: Step, r: Id)
    requires s.Valid() && r in s.routes && Active(s.routes[r])
    requires step.SweepRoutes? && Judge(s.users, s.groups, r, step.replies(r).response).Accept?
    requires !Stale(step.now, s.routes[r].lastContact, cfg.staleDuration)
    ensures
      && r in Apply(cfg, s, step).routes
      && Apply(cfg, s, step).routes[r] == s.routes[r].(status := Up, lastContact := step.replies(r).at)
  {
    SweepEndsAs(cfg, s, step, r);
    ReachedRow(s, r, step.now, cfg.staleDuration, step.replies(r));
  }

  lemma AnswersPrefix(cfg: Config, s: Store, steps: seq<Step>, r: Id, since: Time)
    requires steps != [] && AlwaysAnswers(cfg, s, steps, r) && GapsBelow(steps, r, since, cfg.staleDuration)
    ensures AlwaysAnswers(cfg, s, steps[..|steps| - 1], r)
    ensures GapsBelow(steps[..|steps| - 1], r, since, cfg.staleDuration)
  {
    var n := |steps| - 1;
    forall i | 0 <= i < n
      ensures steps[..n][i] == steps[i] && steps[..n][..i] == steps[..i]
    {
    }
  }

  ghost predicate EverSwept(steps: seq<Step>) {
    exists i :: 0 <= i < |steps| && steps[i].SweepRoutes?
  }

  lemma EverSweptLast(steps: seq<Step>)
    requires steps != []
    ensures EverSwept(steps) <==> EverSwept(steps[..|steps| - 1]) || steps[|steps| - 1].SweepRoutes?
  {
    var init := steps[..|steps| - 1];
    assert forall i :: 0 <= i < |init| ==> init[i] == steps[i];
  }

  /**
   A route that answers every sweep, with gaps below the stale duration, stays VERIFIED for ever, and UP from its first
   sweep on.
   */
  lemma {:induction false} AnsweringKeepsAlive(cfg: Config, s: Store, steps: seq<Step>, r: Id)
    requires s.Valid() && r in s.routes
    requires s.routes[r].verification == Verified && s.routes[r].status in {Up, Down}
    requires OnlySwept(cfg, s, steps, r) && AlwaysAnswers(cfg, s, steps, r)
    requires GapsBelow(steps, r, s.routes[r].lastContact, cfg.staleDuration)
    ensures
      var s' := Run(cfg, s, steps);
      && r in s'.routes && s'.routes[r].verification == Verified
      && s'.routes[r].lastContact == LastAnswer(steps, r, s.routes[r].lastContact)
      && s'.routes[r].status == if EverSwept(steps) then Up else s.routes[r].status
    decreases |steps|
  {
    if steps != [] {
      var n := |steps| - 1;
      var init, last := steps[..n], steps[n];
      OnlySweptPrefix(cfg, s, steps, r, n);
      AnswersPrefix(cfg, s, steps, r, s.routes[r].lastContact);
      EverSweptLast(steps);
      AnsweringKeepsAlive(cfg, s, init, r);
      var before := Run(cfg, s, init);
      RunKeepsValid(cfg, s, init);
      if last.SweepRoutes? {
        StaleFrom(last.now, before.routes[r].lastContact, cfg.staleDuration);
        SweepReachesRoute(cfg, before, last, r);
      } else {
        LeftAlone(cfg, before, last, r);
      }
    }
  }

  // ---------------------------------------------------------------- a refresh that comes too late

  /**
   The sweep that gives a route up, followed by a refresh that was still queued: every time, the route ends
   UNVERIFIED and UP. It is not listed as available, since that takes VERIFIED too.
   */
  lemma LateRefreshRevives(cfg: Config, s: Store, r: Id, sweep: Step, late: Reply)
    requires s.Valid() && r in s.routes && Active(s.routes[r])
    requires sweep.SweepRoutes? && Stale(sweep.now, s.routes[r].lastContact, cfg.staleDuration)
    requires Judge(s.users, s.groups, r, late.response).Accept?
    ensures
      var s1 := Apply(cfg, s, sweep);
      var s2 := Apply(cfg, s1, RefreshTask(r, late));
      && r in s1.routes && s1.routes[r].verification == Unverified && s1.routes[r].status == Down
      && r in s2.routes && s2.routes[r].verification == Unverified && s2.routes[r].status == Up
      && LateRefresh(s1, RefreshTask(r, late)) && !UnverifiedDown(s2)
  {
    var s1 := Apply(cfg, s, sweep);
    StepOnRoute(cfg, s, sweep, r);
    assert CellOf(s1, r) == SweptCell(s, r, sweep.now, cfg.staleDuration, sweep.replies(r));
    ApplyKeepsValid(cfg, s, sweep);
    StepOnRoute(cfg, s1, RefreshTask(r, late), r);
    assert CellOf(Apply(cfg, s1, RefreshTask(r, late)), r) == UpdateCell(s1, r, late);
  }
}
