/** The session loop's observation of its activity handle, updated in place,
    and the health record that `AdvertisedAt` reads. */
module ActivityMonitor {
  import opened Common
  import opened Strikes
  import opened Activity

  const ADVERTISED_FRESHNESS := 5 * CHECK_INTERVAL
  const ANSWER_TOLERANCE := 15 * MINUTE

  datatype Health = Health(advertised: bool, checkedAt: Option<Time>, attemptedAt: Option<Time>)

  const UNKNOWN := Health(false, None, None)

  function Checked(h: Health, answered: bool, advertised: bool, at: Time): Health {
    if answered then Health(advertised, Some(at), Some(at)) else h.(attemptedAt := Some(at))
  }

  predicate Settling(o: Observation, c: Check) { Before(c.now, Adopted(o, c).checkAfter) }

  /** An error is no answer, and in the grace period only a found handle is one. */
  predicate Answers(o: Observation, c: Check) { !c.failed && (c.found || !Settling(o, c)) }

  function Recorded(h: Health, o: Observation, c: Check): Health {
    if Current(c) then Checked(h, Answers(o, c), c.found, c.now) else h
  }

  function HealthAfter(trace: seq<Check>): Health {
    if trace == [] then UNKNOWN
    else Recorded(HealthAfter(trace[..|trace| - 1]), Run(trace[..|trace| - 1]), trace[|trace| - 1])
  }

  predicate AdvertisedAt(h: Health, now: Time) {
    && h.advertised && h.checkedAt.Some? && h.attemptedAt.Some?
    && now - h.attemptedAt.value <= ADVERTISED_FRESHNESS
    && now - h.checkedAt.value <= ANSWER_TOLERANCE
  }

  class Monitor {
    var publication: Option<nat>
    var checkAfter: Option<Time>
    var recoverAfter: Option<Time>
    var misses: nat
    var advertised: bool
    var checkedAt: Option<Time>
    var attemptedAt: Option<Time>

    ghost function View(): Observation
      reads this
    {
      Observation(publication, checkAfter, recoverAfter, misses)
    }

    ghost function HealthView(): Health
      reads this
    {
      Health(advertised, checkedAt, attemptedAt)
    }

    constructor ()
      ensures View() == UNOBSERVED && HealthView() == UNKNOWN
    {
      publication, checkAfter, recoverAfter, misses := None, None, None, 0;
      advertised, checkedAt, attemptedAt := false, None, None;
    }

    method RecordCheck(answered: bool, found: bool, at: Time)
      modifies `advertised, `checkedAt, `attemptedAt
      ensures HealthView() == Checked(old(HealthView()), answered, found, at)
    {
      attemptedAt := Some(at);
      if answered {
        advertised, checkedAt := found, Some(at);
      }
    }

    method ActivityHealthIssue(c: Check) returns (issue: bool)
      modifies this
      ensures Decision(View(), issue) == Step(old(View()), c)
      ensures HealthView() == Recorded(old(HealthView()), old(View()), c)
    {
      if c.published.None? {
        return false;
      }
      if publication != c.published {
        publication := c.published;
        misses := 0;
        checkAfter := Some(c.now + GRACE);
      }
      var settling := Before(c.now, checkAfter);
      var current := c.publishedAfter == c.published;
      if current {
        RecordCheck(!c.failed && (c.found || !settling), c.found, c.now);
      }
      if c.failed || c.found {
        misses := 0;
      } else if settling || Before(c.now, recoverAfter) {
      } else {
        misses := misses + 1;
      }
      if misses < LIMIT {
        return false;
      }
      if !current {
        return false;
      }
      misses := 0;
      recoverAfter := Some(c.now + COOLDOWN);
      return true;
    }
  }

  // ----- what the gauge shows -----

  /** Check `i` comes less than two minutes after its publication was first seen. */
  predicate InGrace(trace: seq<Check>, i: nat)
    requires i < |trace|
  {
    Adopts(trace, i) || (SeenSince(trace[..i]).Some? && trace[i].now < SeenSince(trace[..i]).value + 2 * MINUTE)
  }

  /** Check `i` was about a publication that is still current when it ends. */
  ghost predicate AttemptAt(trace: seq<Check>, i: nat) {
    i < |trace| && trace[i].published.Some? && trace[i].publishedAfter == trace[i].published
  }

  /** Check `i` was answered about the publication that is still current: without an error, and in the grace period only
      by finding the handle. */
  ghost predicate AnswerAt(trace: seq<Check>, i: nat) {
    && AttemptAt(trace, i) && !trace[i].failed
    && (trace[i].found || !InGrace(trace, i))
  }

  lemma {:induction false} GraceIs(trace: seq<Check>)
    ensures Run(trace).publication == LastPublished(trace)
    ensures Run(trace).checkAfter == if SeenSince(trace).Some? then Some(SeenSince(trace).value + GRACE) else None
  {
    if trace != [] {
      GraceIs(trace[..|trace| - 1]);
    }
  }

  lemma AnswerIs(trace: seq<Check>, i: nat)
    requires i < |trace|
    ensures AnswerAt(trace, i) <==> AttemptAt(trace, i) && Answers(Run(trace[..i]), trace[i])
  {
    GraceIs(trace[..i]);
  }

  ghost predicate LastAnswer(trace: seq<Check>, i: nat) {
    AnswerAt(trace, i) && forall k: nat | i < k :: !AnswerAt(trace, k)
  }

  ghost predicate LastAttempt(trace: seq<Check>, i: nat) {
    AttemptAt(trace, i) && forall k: nat | i < k :: !AttemptAt(trace, k)
  }

  lemma AnswersInPrefix(trace: seq<Check>, n: nat)
    requires n <= |trace|
    ensures forall i: nat | i < n :: AnswerAt(trace[..n], i) == AnswerAt(trace, i)
    ensures forall i: nat | i < n :: AttemptAt(trace[..n], i) == AttemptAt(trace, i)
  {
    assert forall i: nat | i < n :: trace[..n][..i] == trace[..i];
  }

  /** The record holds the last answer and the time of the last attempt. */
  ghost predicate Records(trace: seq<Check>, h: Health) {
    && (forall i: nat | LastAnswer(trace, i) :: h.advertised == trace[i].found && h.checkedAt == Some(trace[i].now))
    && (forall i: nat | LastAttempt(trace, i) :: h.attemptedAt == Some(trace[i].now))
    && (h.checkedAt.Some? ==> exists i: nat :: LastAnswer(trace, i))
    && (h.attemptedAt.Some? ==> exists i: nat :: LastAttempt(trace, i))
  }

  lemma {:induction false} HealthIs(trace: seq<Check>)
    ensures Records(trace, HealthAfter(trace))
  {
    if trace != [] {
      var m := |trace| - 1;
      HealthIs(trace[..m]);
      AnswerIs(trace, m);
      LastsOneMore(trace, m);
      RecordsOneMore(trace, m, HealthAfter(trace[..m]), HealthAfter(trace));
    }
  }

  ghost predicate MovesOn(trace: seq<Check>, m: nat, h: Health, after: Health)
    requires m < |trace|
  {
    && after.advertised == (if AnswerAt(trace, m) then trace[m].found else h.advertised)
    && after.checkedAt == (if AnswerAt(trace, m) then Some(trace[m].now) else h.checkedAt)
    && after.attemptedAt == (if AttemptAt(trace, m) then Some(trace[m].now) else h.attemptedAt)
  }

  lemma {:induction false} RecordsOneMore(trace: seq<Check>, m: nat, h: Health, after: Health)
    requires |trace| == m + 1 && Records(trace[..m], h) && MovesOn(trace, m, h, after)
    requires forall i: nat :: LastAnswer(trace, i) <==> if AnswerAt(trace, m) then i == m else LastAnswer(trace[..m], i)
    requires forall i: nat :: LastAttempt(trace, i) <==> if AttemptAt(trace, m) then i == m else LastAttempt(trace[..m], i)
    ensures Records(trace, after)
  {
    assert AnswerAt(trace, m) ==> LastAnswer(trace, m);
    assert AttemptAt(trace, m) ==> LastAttempt(trace, m);
    if !AnswerAt(trace, m) && h.checkedAt.Some? {
      var i: nat :| LastAnswer(trace[..m], i);
      assert LastAnswer(trace, i);
    }
    if !AttemptAt(trace, m) && h.attemptedAt.Some? {
      var i: nat :| LastAttempt(trace[..m], i);
      assert LastAttempt(trace, i);
    }
  }

  /** The latest check, or else the one that was last before it. */
  lemma LastsOneMore(trace: seq<Check>, m: nat)
    requires |trace| == m + 1
    ensures forall i: nat :: LastAnswer(trace, i) <==> if AnswerAt(trace, m) then i == m else LastAnswer(trace[..m], i)
    ensures forall i: nat :: LastAttempt(trace, i) <==> if AttemptAt(trace, m) then i == m else LastAttempt(trace[..m], i)
  {
    AnswersInPrefix(trace, m);
  }

  /** The gauge is up exactly when the last answer found the session open, no longer ago than
      errors are tolerated, and checks have not stopped. */
  lemma AdvertisedIff(trace: seq<Check>, now: Time)
    ensures AdvertisedAt(HealthAfter(trace), now) <==>
              exists i: nat, l: nat ::
                && LastAnswer(trace, i) && LastAttempt(trace, l)
                && trace[i].found
                && now - trace[i].now <= 15 * MINUTE && now - trace[l].now <= 5 * MINUTE
  {
    HealthIs(trace);
    if AdvertisedAt(HealthAfter(trace), now) {
      var i: nat :| LastAnswer(trace, i);
      var l: nat :| LastAttempt(trace, l);
      assert LastAnswer(trace, i) && LastAttempt(trace, l);
    }
  }
}
