/** Retrying with exponential backoff, and the session loop's decisions between
    refreshing, rotating and recovering. */
module Backoff {
  import opened Common

  const BASE := 5 * SECOND
  const MAXIMUM := 2 * MINUTE
  const ATTEMPTS := 6

  /** How the world answers attempt `n`: the context may end before it, during it or in the wait after it. */
  datatype Env = Env(
    endedBefore: nat -> bool,
    error: nat -> Option<string>,
    endedAfter: nat -> bool,
    endedInWait: nat -> bool)

  datatype Result = Recovered | ContextEnded | Exhausted(error: string) | NeverTried

  datatype Report = Report(error: string, wait: Time)

  /** The wait announced after failed attempt `k`. */
  function Wait(base: Time, max: Time, k: nat): Time {
    if k == 0 then base else
      var doubled := Wait(base, max, k - 1) * 2;
      if doubled > max then max else doubled
  }

  function Pow2(k: nat): nat { if k == 0 then 1 else 2 * Pow2(k - 1) }

  lemma {:induction false} WaitAfterFirst(base: Time, max: Time, k: nat)
    requires 0 <= base && 0 <= max
    ensures Pow2(k) >= 1
    ensures k > 0 || base <= max ==> Wait(base, max, k) == Min(base * Pow2(k), max)
  {
    if k > 0 {
      WaitAfterFirst(base, max, k - 1);
      assert base * Pow2(k) == 2 * (base * Pow2(k - 1));
      if k == 1 {
        assert Pow2(0) == 1;
      } else {
        assert base * Pow2(k - 1) >= 0;
      }
    }
  }

  /** Every wait is the doubled base capped at the maximum, exactly when the base itself is within the maximum. */
  lemma WaitsAreCappedDoublings(base: Time, max: Time)
    requires 0 <= base && 0 <= max
    ensures (forall k: nat :: Wait(base, max, k) == Min(base * Pow2(k), max)) <==> base <= max
  {
    forall k: nat ensures k > 0 || base <= max ==> Wait(base, max, k) == Min(base * Pow2(k), max) {
      WaitAfterFirst(base, max, k);
    }
    if base > max {
      assert Wait(base, max, 0) != Min(base * Pow2(0), max);
    }
  }

  /** Attempt `n` fails and the loop goes on to the next one. */
  predicate GoesOn(env: Env, limit: nat, n: nat) {
    !env.endedBefore(n) && env.error(n).Some? && !env.endedAfter(n) && n + 1 < limit && !env.endedInWait(n)
  }

  /** What the loop returns from attempt `n`, when it does not go on. */
  function ResultAt(env: Env, limit: nat, n: nat): Result
    requires n < limit && !GoesOn(env, limit, n)
  {
    if env.endedBefore(n) then ContextEnded
    else if env.error(n).None? then Recovered
    else if env.endedAfter(n) then ContextEnded
    else if n + 1 == limit then Exhausted(env.error(n).value)
    else ContextEnded
  }

  /** The retries announced by attempt `n` and those before it. */
  predicate Announces(env: Env, limit: nat, n: nat) {
    !env.endedBefore(n) && env.error(n).Some? && !env.endedAfter(n) && n + 1 < limit
  }

  /** One report for each failed attempt, with the wait that follows it. */
  ghost predicate ReportsFailures(env: Env, base: Time, max: Time, reports: seq<Report>) {
    forall k: nat | k < |reports| ::
      env.error(k).Some? && reports[k] == Report(env.error(k).value, Wait(base, max, k))
  }

  ghost predicate GoesOnUntil(env: Env, limit: nat, n: nat) { forall k: nat | k < n :: GoesOn(env, limit, k) }

  /** The attempt that ends the loop. */
  ghost predicate Ends(env: Env, limit: nat, n: nat) {
    n < limit && GoesOnUntil(env, limit, n) && !GoesOn(env, limit, n)
  }

  method RetryWithBackoff(base: Time, max: Time, limit: nat, env: Env)
    returns (result: Result, reports: seq<Report>, ghost last: nat)
    ensures limit == 0 ==> result == NeverTried && reports == []
    ensures limit > 0 ==> Ends(env, limit, last) && result == ResultAt(env, limit, last)
    ensures limit > 0 ==> |reports| == last + (if Announces(env, limit, last) then 1 else 0)
    ensures ReportsFailures(env, base, max, reports)
  {
    var delay := base;
    reports := [];
    var n: nat := 0;
    while n < limit
      invariant n <= limit && GoesOnUntil(env, limit, n)
      invariant n == limit ==> limit == 0
      invariant delay == Wait(base, max, n)
      invariant |reports| == n && ReportsFailures(env, base, max, reports)
    {
      last := n;
      if env.endedBefore(n) {
        return ContextEnded, reports, last;
      }
      var error := env.error(n);
      if error.None? {
        return Recovered, reports, last;
      }
      if env.endedAfter(n) {
        return ContextEnded, reports, last;
      }
      if n == limit - 1 {
        return Exhausted(error.value), reports, last;
      }
      reports := reports + [Report(error.value, delay)];
      if env.endedInWait(n) {
        return ContextEnded, reports, last;
      }
      assert GoesOn(env, limit, n);
      delay := NextWait(base, max, n, delay);
      n := n + 1;
    }
    return NeverTried, reports, 0;
  }

  method NextWait(base: Time, max: Time, ghost k: nat, wait: Time) returns (delay: Time)
    requires wait == Wait(base, max, k)
    ensures delay == Wait(base, max, k + 1)
  {
    delay := wait * 2;
    if delay > max {
      delay := max;
    }
  }

  function TotalWait(base: Time, max: Time, retries: nat): Time {
    if retries == 0 then 0 else TotalWait(base, max, retries - 1) + Wait(base, max, retries - 1)
  }

  function ReportedWait(reports: seq<Report>): Time {
    if reports == [] then 0 else ReportedWait(reports[..|reports| - 1]) + reports[|reports| - 1].wait
  }

  lemma {:induction false} ReportedIsTotal(base: Time, max: Time, reports: seq<Report>)
    requires forall k: nat | k < |reports| :: reports[k].wait == Wait(base, max, k)
    ensures ReportedWait(reports) == TotalWait(base, max, |reports|)
  {
    if reports != [] {
      ReportedIsTotal(base, max, reports[..|reports| - 1]);
    }
  }

  /** With the shipped constants an exhausted recovery has announced five retries and waited 155 seconds. */
  lemma ShippedBackoff(env: Env, last: nat, reports: seq<Report>)
    requires Ends(env, ATTEMPTS, last) && ResultAt(env, ATTEMPTS, last).Exhausted?
    requires |reports| == last + (if Announces(env, ATTEMPTS, last) then 1 else 0)
    requires ReportsFailures(env, BASE, MAXIMUM, reports)
    ensures |reports| == ATTEMPTS - 1 == 5
    ensures ReportedWait(reports) == 155 * SECOND
  {
    assert last == ATTEMPTS - 1;
    ReportedIsTotal(BASE, MAXIMUM, reports);
    assert Wait(BASE, MAXIMUM, 1) == 10 * SECOND;
    assert Wait(BASE, MAXIMUM, 2) == 20 * SECOND;
    assert Wait(BASE, MAXIMUM, 3) == 40 * SECOND;
    assert Wait(BASE, MAXIMUM, 4) == 80 * SECOND;
    assert TotalWait(BASE, MAXIMUM, 1) == 5 * SECOND;
    assert TotalWait(BASE, MAXIMUM, 2) == 15 * SECOND;
    assert TotalWait(BASE, MAXIMUM, 3) == 35 * SECOND;
    assert TotalWait(BASE, MAXIMUM, 4) == 75 * SECOND;
  }
}

module SessionLoop {
  import opened Common
  import opened Strikes

  /** What woke the loop, with the issue that its health check found. */
  datatype Issue = Healthy | Lost | NearlyFull | ActivityMissing

  datatype Wake = SignalingLost | ActivityTick(issue: Issue) | UpdateTick(issue: Issue) | HealthCheck(issue: Issue)

  /** How the iteration's own calls turn out; `stopping` is the context having ended. */
  datatype Env = Env(rotates: bool, refreshes: bool, recovers: bool, stopping: bool)

  datatype Action = Rotate | Refresh | Recover(repeated: bool) | ReportStatic

  datatype Iteration = Iteration(failures: nat, actions: seq<Action>, goesOn: bool)

  /** `sessionUpdateFailureLimit`. */
  const FAILURE_LIMIT := LIMIT

  /** Whether the loop turns to recovery at once, to a refresh, or to nothing after handling an issue. */
  datatype Plan = Done | Recovering | Refreshing | Stopped

  /** What the source's chain of tests on the issue decides; `first` lists the actions it took. */
  function Handle(issue: Issue, canRecreate: bool, env: Env): (Plan, seq<Action>) {
    if issue.NearlyFull? then
      if env.rotates then (Done, [Rotate])
      else if env.stopping then (Stopped, [Rotate])
      else if canRecreate then (Recovering, [Rotate])
      else (Refreshing, [Rotate])
    else if issue.ActivityMissing? && !canRecreate then (Done, [ReportStatic])
    else if !issue.Healthy? && canRecreate then (Recovering, [])
    else (Refreshing, [])
  }

  predicate Skips(w: Wake) { (w.ActivityTick? || w.HealthCheck?) && w.issue.Healthy? }

  class Loop {
    var consecutiveFailures: nat
    const canRecreate: bool

    constructor (canRecreate: bool)
      ensures this.canRecreate == canRecreate && consecutiveFailures == 0
    {
      this.canRecreate := canRecreate;
      consecutiveFailures := 0;
    }

    /** One pass of the loop's body. */
    method Iterate(w: Wake, env: Env) returns (actions: seq<Action>, goesOn: bool)
      requires w.SignalingLost? ==> canRecreate
      requires consecutiveFailures < FAILURE_LIMIT
      modifies this
      ensures Iteration(consecutiveFailures, actions, goesOn) == Step(old(consecutiveFailures), canRecreate, w, env)
      ensures goesOn ==> consecutiveFailures < FAILURE_LIMIT
    {
      actions := [];
      if w.SignalingLost? {
        if !env.recovers {
          return [Recover(false)], false;
        }
        consecutiveFailures := 0;
        return [Recover(false)], true;
      }
      if Skips(w) {
        return [], true;
      }
      var issue := w.issue;
      var unhealthy := !issue.Healthy?;
      if issue.NearlyFull? {
        actions := [Rotate];
        if env.rotates {
          consecutiveFailures := 0;
          return actions, true;
        }
        if env.stopping {
          return actions, false;
        }
      }
      if unhealthy {
        if issue.ActivityMissing? && !canRecreate {
          return actions + [ReportStatic], true;
        }
        if canRecreate {
          actions := actions + [Recover(false)];
          if !env.recovers {
            return actions, false;
          }
          consecutiveFailures := 0;
          return actions, true;
        }
      }
      actions := actions + [Refresh];
      if env.refreshes {
        consecutiveFailures := 0;
        return actions, true;
      }
      if env.stopping {
        return actions, false;
      }
      consecutiveFailures := consecutiveFailures + 1;
      if consecutiveFailures >= FAILURE_LIMIT {
        actions := actions + [Recover(true)];
        if !env.recovers {
          return actions, false;
        }
        consecutiveFailures := 0;
      }
      return actions, true;
    }
  }

  function Step(failures: nat, canRecreate: bool, w: Wake, env: Env): Iteration {
    if w.SignalingLost? then Iteration(if env.recovers then 0 else failures, [Recover(false)], env.recovers)
    else if Skips(w) then Iteration(failures, [], true)
    else
      var (plan, first) := Handle(w.issue, canRecreate, env);
      match plan
      case Done => Iteration(if first == [Rotate] then 0 else failures, first, true)
      case Stopped => Iteration(failures, first, false)
      case Recovering => Iteration(if env.recovers then 0 else failures, first + [Recover(false)], env.recovers)
      case Refreshing =>
        if env.refreshes then Iteration(0, first + [Refresh], true)
        else if env.stopping then Iteration(failures, first + [Refresh], false)
        else if failures + 1 >= FAILURE_LIMIT then
          Iteration(if env.recovers then 0 else failures + 1, first + [Refresh, Recover(true)], env.recovers)
        else Iteration(failures + 1, first + [Refresh], true)
  }

  // ----- what a turn does, from the wake and the outcomes of its calls alone -----

  /** An issue that the turn has still to deal with after it tried to rotate. */
  predicate Broken(issue: Issue, env: Env) {
    issue == Lost || issue == ActivityMissing || (issue == NearlyFull && !env.rotates && !env.stopping)
  }

  /** The turn refreshes: the update tick found nothing wrong, or the session is broken and signaling is configured for good. */
  predicate RefreshIsDue(canRecreate: bool, w: Wake, env: Env) {
    if w.SignalingLost? then false
    else if w.issue == Healthy then w.UpdateTick?
    else !canRecreate && w.issue != ActivityMissing && Broken(w.issue, env)
  }

  /** The turn recovers at once. */
  predicate RecoveryIsDue(canRecreate: bool, w: Wake, env: Env) {
    w.SignalingLost? || (canRecreate && Broken(w.issue, env))
  }

  /** Exactly when each action is taken. */
  lemma ActionsIff(failures: nat, canRecreate: bool, w: Wake, env: Env)
    requires failures < FAILURE_LIMIT
    ensures var actions := Step(failures, canRecreate, w, env).actions;
            && (Rotate in actions <==> !w.SignalingLost? && w.issue == NearlyFull)
            && (Refresh in actions <==> RefreshIsDue(canRecreate, w, env))
            && (Recover(false) in actions <==> RecoveryIsDue(canRecreate, w, env))
            && (Recover(true) in actions <==> RefreshIsDue(canRecreate, w, env) && !env.refreshes && !env.stopping && failures == 2)
            && (ReportStatic in actions <==> !w.SignalingLost? && w.issue == ActivityMissing && !canRecreate)
  {}

  function Place(a: Action): nat {
    match a case Rotate => 0 case ReportStatic => 1 case Refresh => 2 case Recover(_) => 3
  }

  /** A rotation comes first and a recovery last, and nothing is done twice. */
  lemma ActionsAreOrdered(failures: nat, canRecreate: bool, w: Wake, env: Env)
    ensures var actions := Step(failures, canRecreate, w, env).actions;
            forall i, j | 0 <= i < j < |actions| :: Place(actions[i]) < Place(actions[j])
  {}

  /** The count starts again after a success, and goes up by one for a refresh that fails unless the loop is to stop. */
  lemma FailuresAre(failures: nat, canRecreate: bool, w: Wake, env: Env)
    requires failures < FAILURE_LIMIT
    ensures var it := Step(failures, canRecreate, w, env);
            it.failures ==
            if (Rotate in it.actions && env.rotates) || (Refresh in it.actions && env.refreshes) then 0
            else if (Recover(false) in it.actions || Recover(true) in it.actions) && env.recovers then 0
            else if Refresh in it.actions && !env.stopping then failures + 1
            else failures
  {}

  /** The loop ends exactly when a recovery gives up, or a rotation or a refresh fails because the context has ended. */
  lemma EndsIff(failures: nat, canRecreate: bool, w: Wake, env: Env)
    requires failures < FAILURE_LIMIT
    ensures var it := Step(failures, canRecreate, w, env);
            !it.goesOn <==>
            || ((Recover(false) in it.actions || Recover(true) in it.actions) && !env.recovers)
            || (Rotate in it.actions && !env.rotates && env.stopping)
            || (Refresh in it.actions && !env.refreshes && env.stopping)
  {
    ActionsIff(failures, canRecreate, w, env);
  }

  // ----- when the loop recovers for repeated failures -----

  datatype Turn = Turn(wake: Wake, env: Env)

  function Run(canRecreate: bool, turns: seq<Turn>): nat {
    if turns == [] then 0
    else Step(Run(canRecreate, turns[..|turns| - 1]), canRecreate, turns[|turns| - 1].wake, turns[|turns| - 1].env).failures
  }

  function At(canRecreate: bool, turns: seq<Turn>, n: nat): Iteration
    requires n < |turns|
  {
    Step(Run(canRecreate, turns[..n]), canRecreate, turns[n].wake, turns[n].env)
  }

  /** A turn's part in the count, from the turn alone: a refresh that fails strikes, a refresh,
      rotation or recovery that succeeds resets, anything else leaves the count. */
  function MarkOf(canRecreate: bool, t: Turn): Mark {
    if RefreshIsDue(canRecreate, t.wake, t.env) then
      if t.env.refreshes then Reset else if t.env.stopping then Skip else Strike(true)
    else if RecoveryIsDue(canRecreate, t.wake, t.env) then Reset
    else if t.wake.issue == NearlyFull && t.env.rotates then Reset
    else Skip
  }

  function Marks(canRecreate: bool, turns: seq<Turn>): seq<Mark> {
    seq(|turns|, i requires 0 <= i < |turns| => MarkOf(canRecreate, turns[i]))
  }

  ghost predicate GoesOn(canRecreate: bool, turns: seq<Turn>) {
    forall n: nat | n < |turns| :: At(canRecreate, turns, n).goesOn
  }

  lemma GoesOnBefore(canRecreate: bool, turns: seq<Turn>, n: nat)
    requires GoesOn(canRecreate, turns) && n <= |turns|
    ensures GoesOn(canRecreate, turns[..n])
  {
    forall k: nat | k < n ensures At(canRecreate, turns[..n], k) == At(canRecreate, turns, k) {
      assert turns[..n][..k] == turns[..k];
    }
  }

  lemma StepCounts(failures: nat, canRecreate: bool, t: Turn)
    requires failures < FAILURE_LIMIT && Step(failures, canRecreate, t.wake, t.env).goesOn
    ensures Step(failures, canRecreate, t.wake, t.env).failures ==
            Count(failures, MarkOf(canRecreate, t)).strikes < FAILURE_LIMIT
  {}

  lemma {:induction false} FailuresAreStrikes(canRecreate: bool, turns: seq<Turn>)
    requires GoesOn(canRecreate, turns)
    ensures Run(canRecreate, turns) == StrikeCount(Marks(canRecreate, turns)) < FAILURE_LIMIT
  {
    if turns != [] {
      var n := |turns| - 1;
      GoesOnBefore(canRecreate, turns, n);
      FailuresAreStrikes(canRecreate, turns[..n]);
      assert Marks(canRecreate, turns)[..n] == Marks(canRecreate, turns[..n]);
      assert At(canRecreate, turns, n).goesOn;
      StepCounts(Run(canRecreate, turns[..n]), canRecreate, turns[n]);
    }
  }

  /** The loop recovers for repeated failures exactly when a refresh fails and two earlier failed refreshes
      have been followed by no successful refresh, rotation or recovery. */
  lemma RecoversAtThirdFailure(canRecreate: bool, turns: seq<Turn>, n: nat)
    requires n < |turns| && GoesOn(canRecreate, turns[..n])
    ensures Recover(true) in At(canRecreate, turns, n).actions <==>
              && MarkOf(canRecreate, turns[n]).Strike?
              && exists i, j :: i < j && Counts(Marks(canRecreate, turns), i, n) && Counts(Marks(canRecreate, turns), j, n)
  {
    FailuresAreStrikes(canRecreate, turns[..n]);
    assert Marks(canRecreate, turns)[..n] == Marks(canRecreate, turns[..n]);
    FiresIff(Marks(canRecreate, turns), n);
    assert Marks(canRecreate, turns)[n] == MarkOf(canRecreate, turns[n]);
  }
}
