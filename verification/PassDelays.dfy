/** What the answers given to earlier passes allow a later one: when it adds players, whom it leaves alone, and when it removes
    friends, all from the history of the run. */
module PassDelays {
  import opened Common
  import opened BulkAccept
  import opened RunState
  import opened FriendPass
  import opened PassAnswers
  import opened FriendLedger
  import opened PassTrace
  import opened PassSafety
  import opened ExpiryScan

  // ----- one kind of delay along a run -----

  /** One pass, as far as one kind of delay goes: when it ran, the delay it was asked for, and the moment that earlier passes left. */
  datatype Span = Span(start: Time, end: Time, asked: Time, until: Option<Time>)

  function UntilAfter(p: Span): Option<Time> { if p.asked > 0 then Some(p.end + p.asked) else p.until }

  /** A pass that starts before the moment it finds is asked for nothing. */
  ghost predicate IsHistory(spans: seq<Span>) {
    && (spans != [] ==> spans[0].until == None)
    && (forall i | 0 < i < |spans| :: spans[i].until == UntilAfter(spans[i - 1]))
    && (forall i | 0 <= i < |spans| :: spans[i].start <= spans[i].end && (Before(spans[i].start, spans[i].until) ==> spans[i].asked <= 0))
    && (forall i, j | 0 <= i < j < |spans| :: spans[i].end <= spans[j].start)
  }

  /** The delay that pass `k` was asked for is not over at `t`. */
  ghost predicate Unfinished(spans: seq<Span>, k: nat, t: Time)
    requires k < |spans|
  {
    spans[k].asked > 0 && t < spans[k].end + spans[k].asked
  }

  lemma {:induction false} UntilWasAsked(spans: seq<Span>, m: nat)
    requires IsHistory(spans) && m < |spans| && spans[m].until.Some?
    ensures exists k: nat | k < m :: spans[k].asked > 0 && spans[m].until.value == spans[k].end + spans[k].asked
  {
    assert spans[m].until == UntilAfter(spans[m - 1]);
    if spans[m - 1].asked <= 0 {
      UntilWasAsked(spans, m - 1);
    }
  }

  lemma {:induction false} DelayLasts(spans: seq<Span>, k: nat, m: nat)
    requires IsHistory(spans) && k < m < |spans| && Unfinished(spans, k, spans[m].start)
    ensures spans[m].until.Some? && spans[m].until.value >= spans[k].end + spans[k].asked
    decreases m
  {
    assert spans[m].until == UntilAfter(spans[m - 1]);
    if k < m - 1 {
      assert spans[m - 1].start <= spans[m - 1].end <= spans[m].start;
      DelayLasts(spans, k, m - 1);
    }
  }

  /** A pass starts before the moment it finds exactly when some earlier delay is unfinished. */
  lemma UntilIff(spans: seq<Span>, m: nat)
    requires IsHistory(spans) && m < |spans|
    ensures Before(spans[m].start, spans[m].until) <==> exists k: nat | k < m :: Unfinished(spans, k, spans[m].start)
  {
    if spans[m].until.Some? {
      UntilWasAsked(spans, m);
      var k: nat :| k < m && spans[k].asked > 0 && spans[m].until.value == spans[k].end + spans[k].asked;
      assert Unfinished(spans, k, spans[m].start) <==> Before(spans[m].start, spans[m].until);
    }
    if k: nat :| k < m && Unfinished(spans, k, spans[m].start) {
      DelayLasts(spans, k, m);
    }
  }

  // ----- the account-wide delays -----

  function AddSpans(turns: seq<Turn>): seq<Span> {
    seq(|turns|, i requires 0 <= i < |turns| =>
      Span(turns[i].start, turns[i].end, turns[i].work.result.addRetryAfter, turns[i].before.addRetryUntil))
  }

  function RemovalSpans(turns: seq<Turn>): seq<Span> {
    seq(|turns|, i requires 0 <= i < |turns| =>
      Span(turns[i].start, turns[i].end, turns[i].work.result.removeRetryAfter, turns[i].before.removeRetryUntil))
  }

  /** One pass is a step of both histories: one that may not add is asked for no delay before adding, and one that may not remove
      for none before removing. */
  ghost predicate StepsDelays(p: Turn) {
    var r := p.work.result;
    && p.start <= p.end
    && p.after.addRetryUntil == UntilAfter(Span(p.start, p.end, r.addRetryAfter, p.before.addRetryUntil))
    && p.after.removeRetryUntil == UntilAfter(Span(p.start, p.end, r.removeRetryAfter, p.before.removeRetryUntil))
    && (Before(p.start, p.before.addRetryUntil) ==> r.addRetryAfter <= 0)
    && (Before(p.start, p.before.removeRetryUntil) ==> r.removeRetryAfter <= 0)
  }

  lemma TurnDelays(p: Turn, autoFriend: bool)
    requires IsTurn(autoFriend, p)
    ensures StepsDelays(p)
  {
    AcceptKeepsDelays(p.env, Skipped(p.before, p.start), p.before.refusedBefore);
  }

  lemma StepsAreHistories(turns: seq<Turn>)
    requires turns != [] ==> turns[0].before.addRetryUntil == turns[0].before.removeRetryUntil == None
    requires forall i | 0 <= i < |turns| :: StepsDelays(turns[i])
    requires forall i | 0 < i < |turns| :: turns[i - 1].after == turns[i].before
    requires InOrder(turns)
    ensures IsHistory(AddSpans(turns)) && IsHistory(RemovalSpans(turns))
  {
    forall i | 0 < i < |turns|
      ensures AddSpans(turns)[i].until == UntilAfter(AddSpans(turns)[i - 1])
      ensures RemovalSpans(turns)[i].until == UntilAfter(RemovalSpans(turns)[i - 1])
    {
      assert turns[i - 1].after == turns[i].before && StepsDelays(turns[i - 1]);
    }
  }

  lemma SpansAreHistories(autoFriend: bool, turns: seq<Turn>)
    requires IsRun(autoFriend, turns)
    ensures IsHistory(AddSpans(turns)) && IsHistory(RemovalSpans(turns))
  {
    forall i | 0 <= i < |turns| ensures StepsDelays(turns[i]) {
      TurnDelays(turns[i], autoFriend);
    }
    StepsAreHistories(turns);
  }

  /** Turn `k` was asked that nobody be added for a time that is not over at `t`. */
  ghost predicate HoldsAdds(turns: seq<Turn>, k: nat, t: Time)
    requires k < |turns|
  {
    var d := turns[k].work.result.addRetryAfter;
    d > 0 && t < turns[k].end + d
  }

  ghost predicate HoldsRemovals(turns: seq<Turn>, k: nat, t: Time)
    requires k < |turns|
  {
    var d := turns[k].work.result.removeRetryAfter;
    d > 0 && t < turns[k].end + d
  }

  ghost predicate AddsHeld(turns: seq<Turn>, m: nat)
    requires m < |turns|
  {
    exists k: nat | k < m :: HoldsAdds(turns, k, turns[m].start)
  }

  ghost predicate RemovalsHeld(turns: seq<Turn>, m: nat)
    requires m < |turns|
  {
    exists k: nat | k < m :: HoldsRemovals(turns, k, turns[m].start)
  }

  /** In every run, a pass may add players exactly when no delay that an earlier pass was asked for is unfinished, and the same of
      removing friends. */
  lemma MayIff(autoFriend: bool, turns: seq<Turn>, m: nat)
    requires IsRun(autoFriend, turns) && m < |turns|
    ensures MayAdd(turns[m].before, turns[m].start) <==> !AddsHeld(turns, m)
    ensures MayRemove(turns[m].before, turns[m].start) <==> !RemovalsHeld(turns, m)
  {
    SpansAreHistories(autoFriend, turns);
    UntilIff(AddSpans(turns), m);
    UntilIff(RemovalSpans(turns), m);
    assert forall k: nat | k < m :: Unfinished(AddSpans(turns), k, turns[m].start) == HoldsAdds(turns, k, turns[m].start);
    assert forall k: nat | k < m :: Unfinished(RemovalSpans(turns), k, turns[m].start) == HoldsRemovals(turns, k, turns[m].start);
  }

  // ----- the players who are held -----

  /** What turn `k` was told holds player `x` at `t`: an hour for a full list, or the delay asked for. */
  ghost predicate HoldsPlayer(turns: seq<Turn>, k: nat, x: Xuid, t: Time)
    requires k < |turns|
  {
    var r := turns[k].work.result;
    (x in r.fullPlayers && t < turns[k].end + HOUR) || (x in r.waits && t < turns[k].end + r.waits[x])
  }

  ghost predicate PlayerHeld(turns: seq<Turn>, m: nat, x: Xuid)
    requires m < |turns|
  {
    exists k: nat | k < m :: HoldsPlayer(turns, k, x, turns[m].start)
  }

  /** A hold that the state remembers is one that some turn was told. */
  ghost predicate Remembers(turns: seq<Turn>, m: nat, s: State, x: Xuid)
    requires m <= |turns|
  {
    && (x in s.fullPlayers ==> exists k: nat | k < m :: x in turns[k].work.result.fullPlayers && s.fullPlayers[x] == turns[k].end)
    && (x in s.waiting ==> exists k: nat | k < m :: WaitsUntil(turns, k, x, s.waiting[x]))
  }

  ghost predicate WaitsUntil(turns: seq<Turn>, k: nat, x: Xuid, until: Time)
    requires k < |turns|
  {
    var r := turns[k].work.result; x in r.waits && until == turns[k].end + r.waits[x]
  }

  lemma {:induction false} StateRemembers(autoFriend: bool, turns: seq<Turn>, m: nat, x: Xuid)
    requires IsRun(autoFriend, turns) && m < |turns|
    ensures Remembers(turns, m, turns[m].before, x)
  {
    if m > 0 {
      StateRemembers(autoFriend, turns, m - 1, x);
      var p := turns[m - 1];
      assert p.after == turns[m].before;
      PlayerRecorded(p, autoFriend, x);
      OneMoreRemembered(turns, m - 1, m, p.before, p.after, x);
    }
  }

  /** What one pass changes in what is remembered of a player. */
  lemma PlayerRecorded(p: Turn, autoFriend: bool, x: Xuid)
    requires IsTurn(autoFriend, p)
    ensures ChangesPlayer(p.before, p.after, p.work.result, p.end, x)
  {}

  ghost predicate ChangesPlayer(s: State, after: State, r: Result, end: Time, x: Xuid) {
    && (x in after.waiting ==> if x in r.waits then after.waiting[x] == end + r.waits[x]
                               else x in s.waiting && after.waiting[x] == s.waiting[x])
    && (x in after.fullPlayers ==> if x in r.fullPlayers then after.fullPlayers[x] == end
                                   else x in s.fullPlayers && after.fullPlayers[x] == s.fullPlayers[x])
  }

  lemma {:induction false} OneMoreRemembered(turns: seq<Turn>, j: nat, m: nat, s: State, after: State, x: Xuid)
    requires m == j + 1 <= |turns| && Remembers(turns, j, s, x) && ChangesPlayer(s, after, turns[j].work.result, turns[j].end, x)
    ensures Remembers(turns, m, after, x)
  {
    var r := turns[j].work.result;
    if x in after.waiting {
      if x in r.waits {
        assert WaitsUntil(turns, j, x, after.waiting[x]);
      } else {
        var k: nat :| k < j && WaitsUntil(turns, k, x, s.waiting[x]);
        assert WaitsUntil(turns, k, x, after.waiting[x]);
      }
    }
    if x in after.fullPlayers && x !in r.fullPlayers {
      var k: nat :| k < j && x in turns[k].work.result.fullPlayers && s.fullPlayers[x] == turns[k].end;
      assert after.fullPlayers[x] == turns[k].end;
    }
  }

  /** In every run, a pass leaves a player alone for what earlier answers said exactly when one of them said so and is not over. */
  lemma SkippedIff(autoFriend: bool, turns: seq<Turn>, m: nat, x: Xuid)
    requires IsRun(autoFriend, turns) && m < |turns|
    ensures x in Skipped(turns[m].before, turns[m].start) <==> PlayerHeld(turns, m, x)
  {
    var s, t := turns[m].before, turns[m].start;
    StateRemembers(autoFriend, turns, m, x);
    if x in s.waiting && t < s.waiting[x] {
      var k: nat :| k < m && WaitsUntil(turns, k, x, s.waiting[x]);
      assert HoldsPlayer(turns, k, x, t);
    }
    if x in s.fullPlayers && t < s.fullPlayers[x] + FULL_LIST_HOLD {
      var k: nat :| k < m && x in turns[k].work.result.fullPlayers && s.fullPlayers[x] == turns[k].end;
      assert HoldsPlayer(turns, k, x, t);
    }
    if k: nat :| k < m && HoldsPlayer(turns, k, x, t) {
      HoldReaches(autoFriend, turns, k, m, x);
    }
  }

  lemma HoldReaches(autoFriend: bool, turns: seq<Turn>, k: nat, m: nat, x: Xuid)
    requires IsRun(autoFriend, turns) && k < m < |turns| && HoldsPlayer(turns, k, x, turns[m].start)
    ensures x in Skipped(turns[m].before, turns[m].start)
  {
    var p, t := turns[k], turns[m].start;
    var r := p.work.result;
    RecordHolds(p.before, p.end, r, x);
    var until := if x in r.fullPlayers && t < p.end + HOUR then p.end + HOUR else p.end + r.waits[x];
    HoldLasts(autoFriend, turns, k, m, x, until);
    HeldIsSkipped(turns[m].before, x, until, t);
  }

  // ----- what a pass of a run does -----

  /** Somebody is there to be added: a named player of the pending list who is no guest and whom no earlier answer holds. */
  ghost predicate SomebodyAsks(turns: seq<Turn>, m: nat)
    requires m < |turns|
  {
    turns[m].env.pending.Listed? &&
    exists x :: x in turns[m].env.pending.players && x != "" && !IsGuest(x) && !PlayerHeld(turns, m, x)
  }

  /** In every run, a pass that starts before a delay on adding is over makes no request and no single add; any other one, if players
      are accepted at all, asks the service whenever there is somebody to ask for. */
  lemma AddsWhenDue(autoFriend: bool, turns: seq<Turn>, m: nat)
    requires IsRun(autoFriend, turns) && m < |turns|
    ensures var w := turns[m].work;
            && (!autoFriend || AddsHeld(turns, m) ==> w.requests == [] && w.singles == [] && w.result.accepted == 0)
            && (autoFriend && !AddsHeld(turns, m) ==> (w.requests != [] <==> SomebodyAsks(turns, m)))
  {
    MayIff(autoFriend, turns, m);
    var p := turns[m];
    if autoFriend && MayAdd(p.before, p.start) {
      var skip := Skipped(p.before, p.start);
      RequestsAreTheAccepts(p.env, skip, p.before.refusedBefore);
      if p.env.pending.Listed? {
        var players := p.env.pending.players;
        BatchesRead(p.env.server, [], Eligible(players, skip));
        forall x ensures x in Eligible(players, skip) <==> x in players && x != "" && !IsGuest(x) && !PlayerHeld(turns, m, x) {
          EligibleIff(players, skip, x);
          SkippedIff(autoFriend, turns, m, x);
        }
        SomebodyIsEligible(Eligible(players, skip));
      }
    }
  }

  lemma SomebodyIsEligible(xuids: seq<Xuid>)
    ensures xuids != [] <==> exists x :: x in xuids
  {
    if xuids != [] {
      assert xuids[0] in xuids;
    }
  }

  /** The answers of a pass that could make it wait: the last single add, or else the failure that stopped the accept. */
  ghost predicate AnsweredToPause(p: Turn, delay: Time) {
    delay > 0 &&
    if p.work.singles != [] then delay == Paused(p.env, p.work.singles)
    else p.work.requests != [] &&
         var stopped := LastFault(p.env.server, p.work.requests);
         stopped.Some? && !IsRead(stopped.value) && delay == Pause(stopped.value)
  }

  /** In every run, once a single add or the failure that stopped a bulk accept is answered with too many requests or a service that is
      unwell, and a delay, no later pass that starts before the delay is over makes any request or any single add. */
  lemma PausesAreHonoured(autoFriend: bool, turns: seq<Turn>, k: nat, m: nat, delay: Time)
    requires IsRun(autoFriend, turns) && k < m < |turns|
    requires AnsweredToPause(turns[k], delay) && turns[m].start < turns[k].end + delay
    ensures turns[k].work.result.addRetryAfter == delay
    ensures turns[m].work.requests == [] && turns[m].work.singles == []
  {
    var p := turns[k];
    assert IsTurn(autoFriend, p);
    if autoFriend && MayAdd(p.before, p.start) {
      PassReadsAnswers(p.env, Skipped(p.before, p.start), p.before.refusedBefore);
      if p.env.pending.Unread? {
        RequestsAreTheAccepts(p.env, Skipped(p.before, p.start), p.before.refusedBefore);
      }
    }
    assert HoldsAdds(turns, k, turns[m].start);
    AddsWhenDue(autoFriend, turns, m);
  }

  /** The pass adds players, and a failure of reading that asks for a delay stopped it. */
  ghost predicate AskedToReadLater(autoFriend: bool, turns: seq<Turn>, m: nat)
    requires m < |turns|
  {
    var stopped := StoppedBy(turns[m].env, turns[m].work.requests);
    autoFriend && !AddsHeld(turns, m) && stopped.Some? && IsRead(stopped.value) && Wait(stopped.value) > 0
  }

  /** In every run, the delays on reading and on removing that a pass is asked for are those of its listing half, and of no removal
      while an earlier delay on removing lasts; but if reading for the accept failed and asked for a delay, that one alone. */
  lemma DelaysAre(autoFriend: bool, turns: seq<Turn>, m: nat)
    requires IsRun(autoFriend, turns) && m < |turns|
    ensures var p := turns[m]; var r := p.work.result;
            if AskedToReadLater(autoFriend, turns, m) then
              r.readRetryAfter == Wait(StoppedBy(p.env, p.work.requests).value) && r.removeRetryAfter == 0
            else r.readRetryAfter == p.env.listDelay && r.removeRetryAfter == if RemovalsHeld(turns, m) then 0 else p.env.removeDelay
  {
    MayIff(autoFriend, turns, m);
    var p := turns[m];
    if autoFriend && MayAdd(p.before, p.start) {
      PassReadsAnswers(p.env, Skipped(p.before, p.start), p.before.refusedBefore);
      RequestsAreTheAccepts(p.env, Skipped(p.before, p.start), p.before.refusedBefore);
    }
  }

  // ----- removals -----

  /** In every run, a pass that starts before a delay on removing is over looks at no friend and removes none. */
  lemma RemovalsWait(autoFriend: bool, turns: seq<Turn>, m: nat, st: Settings, sv: Services, opts: Options, before: seq<Op>, after: seq<Op>)
    requires IsRun(autoFriend, turns) && m < |turns| && RemovalsHeld(turns, m)
    requires opts.removes == OptionsOf(turns[m].before, turns[m].start, opts.expires).removes && IsPass(st, sv, opts, before, after)
    ensures before <= after && forall i | |before| <= i < |after| :: !after[i].Looked? && !after[i].Removed?
  {
    MayIff(autoFriend, turns, m);
    var end := PassLeavesFriends(st, sv, opts, before, after);
  }

  /** When no such delay is unfinished, an expiring pass that is given the list deals with every friend on it. */
  lemma RemovalsResume(autoFriend: bool, turns: seq<Turn>, m: nat, st: Settings, sv: Services, opts: Options, before: seq<Op>, after: seq<Op>)
    returns (c: nat, from: nat, end: nat, looked: seq<Xuid>)
    requires IsRun(autoFriend, turns) && m < |turns| && !RemovalsHeld(turns, m)
    requires opts.removes == OptionsOf(turns[m].before, turns[m].start, opts.expires).removes && IsPass(st, sv, opts, before, after)
    requires opts.expires && sv.list.People? && AcceptHalfWork(sv, opts).result.readRetryAfter <= 0
    ensures Expires(st, sv, sv.list.people, before, after, c, from, end, looked)
  {
    MayIff(autoFriend, turns, m);
    c, from, end, looked := PassExpires(st, sv, opts, before, after);
  }

  /** The delay that a pass is asked for before removing is that of its last removal, read from the fault alone. */
  lemma RemovalDelayIs(st: Settings, sv: Services, opts: Options, before: seq<Op>, after: seq<Op>) returns (m: nat)
    requires IsPass(st, sv, opts, before, after) && PassResult(st, sv, opts, before).removeRetryAfter > 0
    ensures |before| <= m && Delays(sv, after, m)
    ensures PassResult(st, sv, opts, before).removeRetryAfter == Wait(sv.removals(m).value)
  {
    RemovalDelayNeedsRemovals(st, sv, opts, before);
    AcceptKeepsDelays(sv.env, opts.skip, opts.refusedBefore);
    var accepted := AcceptHalf(sv, st.clock, before, opts);
    AcceptsHalf(sv, st.clock, before, opts);
    var counted := After(sv, st.clock, accepted, Counted(sv.list.people, st.clock(|accepted|).time));
    m := ScanDelay(st, sv, counted, sv.list.people);
  }

  lemma {:induction false} ScanDelay(st: Settings, sv: Services, trace: seq<Op>, people: seq<Xuid>) returns (m: nat)
    requires FriendScan(sv, st.clock, st.loaded, trace, people, st.days).removeRetryAfter > 0
    ensures var scan := FriendScan(sv, st.clock, st.loaded, trace, people, st.days);
            |trace| <= m && Delays(sv, scan.trace, m) && scan.removeRetryAfter == Wait(sv.removals(m).value)
  {
    var front, x := people[..|people| - 1], people[|people| - 1];
    var before := FriendScan(sv, st.clock, st.loaded, trace, front, st.days);
    if IsGuest(x) || before.removeRetryAfter > 0 {
      m := ScanDelay(st, sv, trace, front);
    } else {
      var k;
      m, k := ExpireShape(st, sv, before.trace, x);
      assert FriendScan(sv, st.clock, st.loaded, trace, people, st.days) ==
             ExpireScan(sv, st.clock, before.trace, Histories(st.loaded, before.trace), x, st.days);
      ExpireDelay(st, sv, before.trace, x, m, k);
    }
  }

  /** And every removal that asks for a delay leaves exactly that. */
  lemma RemovalDelayIsLeft(st: Settings, sv: Services, opts: Options, before: seq<Op>, after: seq<Op>, m: nat)
    requires IsPass(st, sv, opts, before, after) && |before| <= m && Delays(sv, after, m)
    ensures PassResult(st, sv, opts, before).removeRetryAfter == Wait(sv.removals(m).value)
  {
    AcceptsHalf(sv, st.clock, before, opts);
    if !(opts.expires && opts.removes) {
      var end := PassLeavesFriends(st, sv, opts, before, after);
    } else if sv.list.People? && AcceptHalfWork(sv, opts).result.readRetryAfter <= 0 {
      var accepted := AcceptHalf(sv, st.clock, before, opts);
      var counted := After(sv, st.clock, accepted, Counted(sv.list.people, st.clock(|accepted|).time));
      StepShape(sv, st.clock, accepted, Counted(sv.list.people, st.clock(|accepted|).time));
      var scan := FriendScan(sv, st.clock, st.loaded, counted, sv.list.people, st.days);
      PruneGoesOn(st.clock, sv.list.people, scan.trace, after);
      var looked := ScanIsRight(st, sv, sv.list.people, counted, sv.list.people);
      DelaysLast(sv, scan.trace, after, m);
      assert !Delays(sv, counted, m);
      ScanDelayIsLeft(st, sv, counted, sv.list.people, m);
    }
  }

  lemma {:induction false} ScanDelayIsLeft(st: Settings, sv: Services, trace: seq<Op>, people: seq<Xuid>, m: nat)
    requires !Delays(sv, trace, m) && Delays(sv, FriendScan(sv, st.clock, st.loaded, trace, people, st.days).trace, m)
    ensures FriendScan(sv, st.clock, st.loaded, trace, people, st.days).removeRetryAfter == Wait(sv.removals(m).value)
  {
    if people != [] {
      var front, x := people[..|people| - 1], people[|people| - 1];
      var before := FriendScan(sv, st.clock, st.loaded, trace, front, st.days);
      if Delays(sv, before.trace, m) {
        ScanDelayIsLeft(st, sv, trace, front, m);
      } else if !IsGuest(x) && before.removeRetryAfter <= 0 {
        ExpireDelayIsLeft(st, sv, before.trace, x, m);
      }
    }
  }

  lemma {:induction false} ExpireDelayIsLeft(st: Settings, sv: Services, trace: seq<Op>, x: Xuid, m: nat)
    requires var scan := ExpireScan(sv, st.clock, trace, Histories(st.loaded, trace), x, st.days);
             Delays(sv, scan.trace, m) && !Delays(sv, trace, m)
    ensures var scan := ExpireScan(sv, st.clock, trace, Histories(st.loaded, trace), x, st.days);
            scan.removeRetryAfter == Wait(sv.removals(m).value)
  {
    var n, k := ExpireShape(st, sv, trace, x);
    ExpireDelay(st, sv, trace, x, n, k);
  }
}
