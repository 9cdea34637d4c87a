/** The check of the account's own activity handle: a miss, grace and cooldown machine that decides
    when the published session needs recovery, and the health record the checks leave behind. */
module Activity {
  import opened Common
  import opened Strikes

  const CHECK_INTERVAL := MINUTE
  const GRACE := 2 * MINUTE
  const COOLDOWN := 10 * MINUTE

  /** One check. A publication snapshot is named by a number; `failed` is an error from the query. */
  datatype Check = Check(now: Time, published: Option<nat>, failed: bool, found: bool, publishedAfter: Option<nat>)

  datatype Observation = Observation(
    publication: Option<nat>,
    checkAfter: Option<Time>,
    recoverAfter: Option<Time>,
    misses: nat)

  const UNOBSERVED := Observation(None, None, None, 0)

  /** Go's `now.Before(t)`, where no time has been set yet. */
  predicate Before(now: Time, t: Option<Time>) { t.Some? && now < t.value }

  datatype Decision = Decision(after: Observation, issue: bool)

  function Adopted(o: Observation, c: Check): Observation {
    if o.publication == c.published then o
    else o.(publication := c.published, misses := 0, checkAfter := Some(c.now + GRACE))
  }

  predicate Current(c: Check) { c.published.Some? && c.publishedAfter == c.published }

  function Step(before: Observation, c: Check): Decision {
    if c.published.None? then Decision(before, false) else
      var o := Adopted(before, c);
      var settling := Before(c.now, o.checkAfter);
      var misses :=
        if c.failed || c.found then 0
        else if settling || Before(c.now, o.recoverAfter) then o.misses
        else o.misses + 1;
      if misses < LIMIT || !Current(c) then Decision(o.(misses := misses), false)
      else Decision(o.(misses := 0, recoverAfter := Some(c.now + COOLDOWN)), true)
  }

  function Run(trace: seq<Check>): Observation {
    if trace == [] then UNOBSERVED else Step(Run(trace[..|trace| - 1]), trace[|trace| - 1]).after
  }

  predicate IssueAt(trace: seq<Check>, n: nat) {
    n < |trace| && Step(Run(trace[..n]), trace[n]).issue
  }

  // ----- what the checks alone say -----

  ghost predicate ClockRuns(trace: seq<Check>) {
    forall i, j | 0 <= i < j < |trace| :: trace[i].now <= trace[j].now
  }

  /** The publication that the latest check found published. */
  function LastPublished(trace: seq<Check>): Option<nat> {
    if trace == [] then None
    else if trace[|trace| - 1].published.Some? then trace[|trace| - 1].published
    else LastPublished(trace[..|trace| - 1])
  }

  /** Check `k` is the first to see its publication in place of another. */
  predicate Adopts(trace: seq<Check>, k: nat) {
    k < |trace| && trace[k].published.Some? && LastPublished(trace[..k]) != trace[k].published
  }

  /** When the latest publication was first seen. */
  function SeenSince(trace: seq<Check>): Option<Time> {
    if trace == [] then None
    else if Adopts(trace, |trace| - 1) then Some(trace[|trace| - 1].now)
    else SeenSince(trace[..|trace| - 1])
  }

  function LastIssue(trace: seq<Check>): Option<Time> {
    if trace == [] then None
    else if IssueAt(trace, |trace| - 1) then Some(trace[|trace| - 1].now)
    else LastIssue(trace[..|trace| - 1])
  }

  /** The cooldown of every issue raised by the first `n` checks is over at `now`. */
  ghost predicate CooledSince(trace: seq<Check>, n: nat, now: Time)
    requires n <= |trace|
  {
    forall m: nat | m < n && IssueAt(trace, m) :: now >= trace[m].now + COOLDOWN
  }

  /** An answered check that found no handle, after the publication's grace period and
      after the cooldown of every issue raised before. */
  ghost predicate Miss(trace: seq<Check>, x: nat) {
    && x < |trace|
    && trace[x].published.Some? && !Adopts(trace, x)
    && !trace[x].failed && !trace[x].found
    && SeenSince(trace[..x]).Some? && trace[x].now >= SeenSince(trace[..x]).value + GRACE
    && CooledSince(trace, x, trace[x].now)
  }

  /** A replacement, an error or a found handle. */
  predicate Clears(trace: seq<Check>, k: nat) {
    k < |trace| && trace[k].published.Some? && (Adopts(trace, k) || trace[k].failed || trace[k].found)
  }

  ghost function MarkOf(trace: seq<Check>, x: nat): Mark
    requires x < |trace|
  {
    if Clears(trace, x) then Reset
    else if Miss(trace, x) then Strike(trace[x].publishedAfter == trace[x].published)
    else Skip
  }

  ghost function Marks(trace: seq<Check>): seq<Mark> {
    seq(|trace|, x requires 0 <= x < |trace| => MarkOf(trace, x))
  }

  // ----- the machine agrees -----

  lemma IssuesInPrefix(trace: seq<Check>, n: nat)
    requires n <= |trace|
    ensures forall m: nat | m < n :: IssueAt(trace[..n], m) == IssueAt(trace, m)
    ensures forall m: nat | m < n :: Adopts(trace[..n], m) == Adopts(trace, m)
  {
    assert forall m: nat | m < n :: trace[..n][..m] == trace[..m];
  }

  lemma MarksOfPrefix(trace: seq<Check>, n: nat)
    requires n <= |trace|
    ensures Marks(trace)[..n] == Marks(trace[..n])
  {
    forall x: nat | x < n ensures Marks(trace)[x] == Marks(trace[..n])[x] {
      IssuesInPrefix(trace, n);
      assert trace[..n][..x] == trace[..x];
    }
  }

  /** With a clock that runs forward, `LastIssue` is an issue, and none is later. */
  lemma {:induction false} LastIssueIsLatest(trace: seq<Check>, n: nat)
    requires ClockRuns(trace) && n <= |trace|
    ensures forall m: nat | m < n && IssueAt(trace, m) ::
              LastIssue(trace[..n]).Some? && trace[m].now <= LastIssue(trace[..n]).value
    ensures LastIssue(trace[..n]).Some? ==>
              exists m: nat :: m < n && IssueAt(trace, m) && trace[m].now == LastIssue(trace[..n]).value
  {
    if n > 0 {
      LastIssueIsLatest(trace, n - 1);
      LastIssueStep(trace, n);
      if IssueAt(trace, n - 1) {
        assert forall m: nat | m < n :: trace[m].now <= trace[n - 1].now;
      }
    }
  }

  lemma LastIssueStep(trace: seq<Check>, n: nat)
    requires 0 < n <= |trace|
    ensures LastIssue(trace[..n]) == if IssueAt(trace, n - 1) then Some(trace[n - 1].now) else LastIssue(trace[..n - 1])
  {
    assert trace[..n][..n - 1] == trace[..n - 1];
  }

  /** So its cooldown is the one that matters. */
  lemma CooledIs(trace: seq<Check>, n: nat, now: Time)
    requires ClockRuns(trace) && n <= |trace|
    ensures (forall m: nat | m < n && IssueAt(trace, m) :: now >= trace[m].now + COOLDOWN)
            <==> !(LastIssue(trace[..n]).Some? && now < LastIssue(trace[..n]).value + COOLDOWN)
  {
    LastIssueIsLatest(trace, n);
  }

  ghost predicate Settled(o: Observation, now: Time) {
    o.checkAfter.Some? && !Before(now, o.checkAfter) && !Before(now, o.recoverAfter)
  }

  ghost predicate Follows(o: Observation, trace: seq<Check>) {
    && o.publication == LastPublished(trace)
    && o.checkAfter == (if SeenSince(trace).Some? then Some(SeenSince(trace).value + GRACE) else None)
    && o.recoverAfter == (if LastIssue(trace).Some? then Some(LastIssue(trace).value + COOLDOWN) else None)
    && (o.publication.Some? <==> o.checkAfter.Some?)
    && (o.misses > 0 ==> trace != [] && Settled(o, trace[|trace| - 1].now))
  }

  lemma StepFollows(trace: seq<Check>, c: Check)
    requires ClockRuns(trace + [c])
    requires Follows(Run(trace), trace)
    ensures Follows(Run(trace + [c]), trace + [c])
  {
    var all, n := trace + [c], |trace|;
    assert all[..n] == trace && all[n] == c;
    assert forall i | 0 <= i < n :: all[i] == trace[i];
  }

  lemma AdoptsIs(trace: seq<Check>, c: Check)
    requires Follows(Run(trace), trace)
    ensures Adopts(trace + [c], |trace|) <==> c.published.Some? && Run(trace).publication != c.published
  {
    assert (trace + [c])[..|trace|] == trace;
  }

  lemma {:induction false} CooldownIs(trace: seq<Check>, c: Check)
    requires ClockRuns(trace + [c])
    requires Follows(Run(trace), trace)
    ensures CooledSince(trace + [c], |trace|, c.now) <==> !Before(c.now, Run(trace).recoverAfter)
  {
    assert (trace + [c])[..|trace|] == trace;
    CooledIs(trace + [c], |trace|, c.now);
  }

  lemma {:induction false} MissIs(trace: seq<Check>, c: Check)
    requires ClockRuns(trace + [c])
    requires Follows(Run(trace), trace)
    ensures var o := Run(trace);
            Miss(trace + [c], |trace|) <==>
              && c.published.Some? && o.publication == c.published && !c.failed && !c.found
              && !Before(c.now, o.checkAfter) && !Before(c.now, o.recoverAfter)
  {
    var all, n := trace + [c], |trace|;
    assert all[..n] == trace && all[n] == c;
    AdoptsIs(trace, c);
    CooldownIs(trace, c);
  }

  /** A check's mark, from the observation it meets. */
  function MarkFrom(o: Observation, c: Check): Mark {
    if c.published.None? then Skip
    else if o.publication != c.published || c.failed || c.found then Reset
    else if !Before(c.now, o.checkAfter) && !Before(c.now, o.recoverAfter) then Strike(Current(c))
    else Skip
  }

  lemma {:induction false} MarkIs(trace: seq<Check>, c: Check)
    requires ClockRuns(trace + [c])
    requires Follows(Run(trace), trace)
    ensures MarkOf(trace + [c], |trace|) == MarkFrom(Run(trace), c)
  {
    assert (trace + [c])[|trace|] == c;
    AdoptsIs(trace, c);
    MissIs(trace, c);
  }

  lemma StepIsCount(o: Observation, c: Check)
    requires o.publication.Some? <==> o.checkAfter.Some?
    requires o.misses > 0 ==> Settled(o, c.now)
    ensures Count(o.misses, MarkFrom(o, c)) == Counted(Step(o, c).after.misses, Step(o, c).issue)
  {}

  /** The machine's decision at a check is that of the strike count on its mark. */
  lemma {:induction false} DecisionIsCount(trace: seq<Check>, c: Check)
    requires ClockRuns(trace + [c])
    requires Follows(Run(trace), trace)
    ensures var d := Step(Run(trace), c);
            Count(Run(trace).misses, MarkOf(trace + [c], |trace|)) == Counted(d.after.misses, d.issue)
  {
    MarkIs(trace, c);
    if Run(trace).misses > 0 {
      LatestIsPast(trace, c);
    }
    StepIsCount(Run(trace), c);
  }

  lemma LatestIsPast(trace: seq<Check>, c: Check)
    requires ClockRuns(trace + [c]) && trace != []
    ensures trace[|trace| - 1].now <= c.now
  {
    var all := trace + [c];
    assert all[|trace| - 1] == trace[|trace| - 1] && all[|trace|] == c;
  }

  lemma {:induction false} RunCountsStrikes(trace: seq<Check>)
    requires ClockRuns(trace)
    ensures Follows(Run(trace), trace)
    ensures Run(trace).misses == StrikeCount(Marks(trace))
  {
    if trace != [] {
      var n := |trace| - 1;
      var front, c := trace[..n], trace[n];
      assert trace == front + [c];
      RunCountsStrikes(front);
      StepFollows(front, c);
      DecisionIsCount(front, c);
      MarksOfPrefix(trace, n);
      assert Marks(trace)[n] == MarkOf(trace, n);
    }
  }

  lemma IssueIsFiring(trace: seq<Check>, n: nat)
    requires ClockRuns(trace) && n < |trace|
    ensures IssueAt(trace, n) == FiresAt(Marks(trace), n)
  {
    var front, c := trace[..n], trace[n];
    assert trace[..n + 1] == front + [c];
    RunCountsStrikes(front);
    DecisionIsCount(front, c);
    MarksOfPrefix(trace, n);
    MarksOfPrefix(trace, n + 1);
    assert Marks(trace)[n] == Marks(trace)[..n + 1][n] == MarkOf(front + [c], n);
  }

  /** From `i` up to `n` no replacement, error or found handle, and no issue, breaks the series. */
  ghost predicate Series(trace: seq<Check>, i: nat, n: nat) {
    n <= |trace| && forall k: nat | i <= k < n :: !Clears(trace, k) && !IssueAt(trace, k)
  }

  lemma CountsIsSeries(trace: seq<Check>, i: nat, n: nat)
    requires ClockRuns(trace) && n <= |trace|
    ensures Counts(Marks(trace), i, n) <==> i < n && Miss(trace, i) && Series(trace, i, n)
  {
    forall k: nat | k < n
      ensures (Marks(trace)[k] == Reset) == Clears(trace, k)
      ensures FiresAt(Marks(trace), k) == IssueAt(trace, k)
    {
      IssueIsFiring(trace, k);
    }
  }

  /** An issue is raised at a check exactly when that check is a miss of the publication that is still current, and
      two earlier misses belong to the same unbroken series. */
  lemma IssueIff(trace: seq<Check>, n: nat)
    requires ClockRuns(trace) && n < |trace|
    ensures IssueAt(trace, n) <==>
              && Miss(trace, n) && trace[n].publishedAfter == trace[n].published
              && exists i: nat, j: nat :: i < j < n && Miss(trace, i) && Miss(trace, j) && Series(trace, i, n)
  {
    IssueIsFiring(trace, n);
    FiresIff(Marks(trace), n);
    forall i: nat ensures Counts(Marks(trace), i, n) <==> i < n && Miss(trace, i) && Series(trace, i, n) {
      CountsIsSeries(trace, i, n);
    }
    assert Marks(trace)[n] == MarkOf(trace, n);
    if IssueAt(trace, n) {
      var i: nat, j: nat :| i < j && Counts(Marks(trace), i, n) && Counts(Marks(trace), j, n);
      assert i < j < n && Miss(trace, i) && Miss(trace, j) && Series(trace, i, n);
    }
    if i: nat, j: nat :| i < j < n && Miss(trace, i) && Miss(trace, j) && Series(trace, i, n) {
      assert Counts(Marks(trace), i, n) && Counts(Marks(trace), j, n);
    }
  }

  /** All checks of a series that see a session see the same one. */
  lemma SeriesIsOneSession(trace: seq<Check>, i: nat, n: nat)
    requires i < n < |trace| && Series(trace, i, n) && !Adopts(trace, n)
    requires trace[i].published.Some? && trace[n].published.Some?
    ensures trace[i].published == trace[n].published
  {
    SeriesKeepsPublication(trace, i, n);
  }

  lemma {:induction false} SeriesKeepsPublication(trace: seq<Check>, i: nat, n: nat)
    requires i < n <= |trace| && Series(trace, i, n) && trace[i].published.Some?
    ensures LastPublished(trace[..n]) == trace[i].published
    decreases n
  {
    var front := trace[..n];
    assert front[..n - 1] == trace[..n - 1];
    if n - 1 > i {
      SeriesKeepsPublication(trace, i, n - 1);
      assert !Clears(trace, n - 1);
    }
  }

  ghost predicate Spaced(trace: seq<Check>) {
    forall k: nat | k + 1 < |trace| :: trace[k + 1].now >= trace[k].now + CHECK_INTERVAL
  }

  lemma SpacedApart(trace: seq<Check>, i: nat, j: nat)
    requires ClockRuns(trace) && Spaced(trace) && i < j < |trace|
    ensures trace[j].now >= trace[i].now + CHECK_INTERVAL
  {
    assert trace[i + 1].now >= trace[i].now + CHECK_INTERVAL;
    assert j > i + 1 ==> trace[j].now >= trace[i + 1].now;
  }

  /** Two issues are never less than the cooldown apart, and two check intervals
      more when the checks are at least an interval apart. */
  lemma IssuesAreSpaced(trace: seq<Check>, n: nat, m: nat)
    requires ClockRuns(trace) && n < m < |trace|
    requires IssueAt(trace, n) && IssueAt(trace, m)
    ensures trace[m].now >= trace[n].now + COOLDOWN
    ensures Spaced(trace) ==> trace[m].now >= trace[n].now + COOLDOWN + 2 * CHECK_INTERVAL
  {
    IssueIff(trace, m);
    var i: nat, j: nat :| i < j < m && Miss(trace, i) && Miss(trace, j) && Series(trace, i, m);
    assert n < i;
    assert trace[i].now >= trace[n].now + COOLDOWN;
    assert trace[m].now >= trace[i].now;
    if Spaced(trace) {
      SpacedApart(trace, i, j);
      SpacedApart(trace, j, m);
    }
  }
}
