/** One sync pass's accepting half: the bulk accept, then the players it failed one by one,
    and what runs of passes guarantee to players who were told to wait. */
module FriendPass {
  import opened Common
  import opened BulkAccept
  import opened RunState

  /** The service's answer to adding one player. */
  datatype AddAnswer = Added | Restricted | ListFull | AddFailed(fault: Fault)

  /** What one pass meets. `adds` answers the n-th single add; the other two are the delays that the
      listing and expiry half of the pass runs into. */
  datatype Env = Env(
    pending: PendingList,
    server: Server,
    adds: (nat, Xuid) -> AddAnswer,
    listDelay: Time,
    removeDelay: Time)

  /** A pass's result with the requests and single adds it made. */
  datatype Work = Work(result: Result, requests: seq<seq<Xuid>>, singles: seq<Xuid>)

  function FirstRefusals(full: seq<Xuid>, refusedBefore: set<Xuid>): seq<Xuid> {
    Filter((x: Xuid) => x !in refusedBefore, full)
  }

  /** `addBlocked`: whether the pass stops adding players one by one. */
  predicate AddBlocked(r: Result, refusedBefore: set<Xuid>) {
    r.addRetryAfter > 0 || (r.accepted == 0 && |FirstRefusals(r.fullPlayers, refusedBefore)| >= FULL_LIST_PLAYERS)
  }

  /** `addFriend` on player `x`. */
  function AddOne(r: Result, x: Xuid, answer: AddAnswer): Result {
    match answer
    case Added => r.(accepted := r.accepted + 1)
    case Restricted => r
    case ListFull => r.(fullPlayers := r.fullPlayers + [x])
    case AddFailed(f) =>
      var delay := RetryDelay(f);
      if delay > 0 && PausesAllAdds(f) then r.(addRetryAfter := delay)
      else if delay > 0 && AboutPlayers(f) then r.(waits := r.waits[x := delay])
      else if AboutPlayers(f) then r.(waits := r.waits[x := REFUSED_BACKOFF])
      else r
  }

  /** The loop over the players that the bulk accept failed. */
  function AddSingly(env: Env, failed: seq<Xuid>, told: map<Xuid, Time>, refusedBefore: set<Xuid>, w: Work): Work
    decreases |failed|
  {
    if failed == [] then w
    else if failed[0] in told then AddSingly(env, failed[1..], told, refusedBefore, w)
    else if AddBlocked(w.result, refusedBefore) then w
    else
      var answer := env.adds(|w.singles|, failed[0]);
      AddSingly(env, failed[1..], told, refusedBefore,
                w.(result := AddOne(w.result, failed[0], answer), singles := w.singles + [failed[0]]))
  }

  /** The delays that the bulk accept was told, for the players it reports. */
  function Told(failed: seq<Xuid>, waits: map<Xuid, Time>): map<Xuid, Time> {
    map x | x in waits && x in failed && waits[x] > 0 :: waits[x]
  }

  function PendingRead(e: AcceptError): bool {
    match e
    case NoError => true
    case RequestsFailed(_, _, _) => true
    case Stopped(f) => f.Response? && !f.isRead
  }

  /** A failure that stopped the accept: a read delay, an account-wide add delay, or nothing. */
  function Stalled(r: Result, f: Fault): Result {
    var delay := RetryDelay(f);
    if delay <= 0 then r
    else if f.Response? && f.isRead then r.(readRetryAfter := delay)
    else if PausesAllAdds(f) then r.(addRetryAfter := delay)
    else r
  }

  /** `acceptPending`. */
  function AcceptWork(env: Env, skip: set<Xuid>, refusedBefore: set<Xuid>): Work {
    var a := AcceptPending(env.server, env.pending, skip);
    var r := NO_RESULT.(accepted := |a.accepted|, pendingRead := PendingRead(a.error));
    match a.error
    case NoError => Work(r, a.requests, [])
    case Stopped(f) => Work(Stalled(r, f), a.requests, [])
    case RequestsFailed(failed, waits, cause) =>
      var told := r.(waits := Told(failed, waits));
      if cause.Some? then Work(Stalled(told, cause.value), a.requests, [])
      else AddSingly(env, failed, waits, refusedBefore, Work(told, a.requests, []))
  }

  /** The whole pass, as far as its result goes: a delay on reading the pending list ends it, and a pass that may not remove is
      asked for no removal delay. */
  function PassWork(s: State, autoFriend: bool, start: Time, env: Env): Work {
    var w := if autoFriend && MayAdd(s, start) then AcceptWork(env, Skipped(s, start), s.refusedBefore)
             else Work(NO_RESULT, [], []);
    if w.result.readRetryAfter > 0 then w
    else w.(result := w.result.(readRetryAfter := env.listDelay, removeRetryAfter := if MayRemove(s, start) then env.removeDelay else 0))
  }

  lemma {:induction false} SinglesIgnoreDelays(e: Env, f: Env, failed: seq<Xuid>, told: map<Xuid, Time>, refusedBefore: set<Xuid>, w: Work)
    requires e.adds == f.adds
    ensures AddSingly(e, failed, told, refusedBefore, w) == AddSingly(f, failed, told, refusedBefore, w)
    decreases |failed|
  {
    if failed != [] {
      var x := failed[0];
      if x in told {
        SinglesIgnoreDelays(e, f, failed[1..], told, refusedBefore, w);
      } else if !AddBlocked(w.result, refusedBefore) {
        var next := w.(result := AddOne(w.result, x, e.adds(|w.singles|, x)), singles := w.singles + [x]);
        SinglesIgnoreDelays(e, f, failed[1..], told, refusedBefore, next);
      }
    }
  }

  /** The accepting half runs before the listing half and does not depend on its delays. */
  lemma AcceptIgnoresDelays(e: Env, f: Env, skip: set<Xuid>, refusedBefore: set<Xuid>)
    requires f == e.(listDelay := f.listDelay, removeDelay := f.removeDelay)
    ensures AcceptWork(e, skip, refusedBefore) == AcceptWork(f, skip, refusedBefore)
  {
    var a := AcceptPending(e.server, e.pending, skip);
    if a.error.RequestsFailed? && a.error.cause.None? {
      var r := NO_RESULT.(accepted := |a.accepted|, pendingRead := true, waits := Told(a.error.failed, a.error.waits));
      SinglesIgnoreDelays(e, f, a.error.failed, a.error.waits, refusedBefore, Work(r, a.requests, []));
    }
  }

  // ----- whom a pass touches -----

  /** Every single add, and every player a result speaks of, was in the failed list. */
  lemma {:induction false} SinglesAreFailed(env: Env, failed: seq<Xuid>, told: map<Xuid, Time>, refusedBefore: set<Xuid>, w: Work)
    ensures var after := AddSingly(env, failed, told, refusedBefore, w);
            && after.requests == w.requests
            && (forall x | x in after.singles :: x in w.singles || x in failed)
            && (forall x | x in after.result.fullPlayers :: x in w.result.fullPlayers || x in failed)
            && (forall x | x in after.result.waits :: x in w.result.waits || x in failed)
    decreases |failed|
  {
    if failed != [] {
      var x := failed[0];
      assert forall y :: y in failed[1..] ==> y in failed;
      if x in told {
        SinglesAreFailed(env, failed[1..], told, refusedBefore, w);
      } else if !AddBlocked(w.result, refusedBefore) {
        var next := w.(result := AddOne(w.result, x, env.adds(|w.singles|, x)), singles := w.singles + [x]);
        SinglesAreFailed(env, failed[1..], told, refusedBefore, next);
      }
    }
  }

  ghost predicate Touches(w: Work, x: Xuid) {
    || (exists q | q in w.requests :: x in q)
    || x in w.singles
    || x in w.result.fullPlayers
    || x in w.result.waits
  }

  /** A player who is held is in no bulk request and no single add, and the result says nothing about them. */
  lemma HeldIsUntouched(s: State, autoFriend: bool, start: Time, env: Env, x: Xuid)
    requires x in Skipped(s, start)
    ensures !Touches(PassWork(s, autoFriend, start, env), x)
  {
    var skip := Skipped(s, start);
    if autoFriend && MayAdd(s, start) && env.pending.Listed? {
      OnlyEligibleAreAsked(env.server, env.pending.players, skip);
      var a := AcceptPending(env.server, env.pending, skip);
      if a.error.RequestsFailed? {
        var r := NO_RESULT.(accepted := |a.accepted|, pendingRead := true, waits := Told(a.error.failed, a.error.waits));
        SinglesAreFailed(env, a.error.failed, a.error.waits, s.refusedBefore, Work(r, a.requests, []));
      }
    }
  }

  /** The accepting half sets no removal delay, and a read delay only when it could not read the pending list. */
  lemma {:induction false} SinglesKeepDelays(env: Env, failed: seq<Xuid>, told: map<Xuid, Time>, refusedBefore: set<Xuid>, w: Work)
    ensures var r := AddSingly(env, failed, told, refusedBefore, w).result;
            r.readRetryAfter == w.result.readRetryAfter && r.removeRetryAfter == w.result.removeRetryAfter
    decreases |failed|
  {
    if failed != [] {
      var x := failed[0];
      if x in told {
        SinglesKeepDelays(env, failed[1..], told, refusedBefore, w);
      } else if !AddBlocked(w.result, refusedBefore) {
        var next := w.(result := AddOne(w.result, x, env.adds(|w.singles|, x)), singles := w.singles + [x]);
        SinglesKeepDelays(env, failed[1..], told, refusedBefore, next);
      }
    }
  }

  lemma AcceptKeepsDelays(env: Env, skip: set<Xuid>, refusedBefore: set<Xuid>)
    ensures var r := AcceptWork(env, skip, refusedBefore).result;
            && r.removeRetryAfter == 0 && r.readRetryAfter >= 0
            && (r.readRetryAfter > 0 ==> var e := AcceptPending(env.server, env.pending, skip).error;
                                         e.Stopped? || (e.RequestsFailed? && e.cause.Some?))
  {
    var a := AcceptPending(env.server, env.pending, skip);
    if a.error.RequestsFailed? && a.error.cause.None? {
      var r := NO_RESULT.(accepted := |a.accepted|, pendingRead := true, waits := Told(a.error.failed, a.error.waits));
      SinglesKeepDelays(env, a.error.failed, a.error.waits, refusedBefore, Work(r, a.requests, []));
    }
  }

  // ----- what a pass is told is what it records -----

  /** The wait that a single add's answer asks for. */
  function WaitFor(answer: AddAnswer): Option<Time> {
    if answer.AddFailed? && AboutPlayers(answer.fault) && !(RetryDelay(answer.fault) > 0 && PausesAllAdds(answer.fault)) then
      Some(if RetryDelay(answer.fault) > 0 then RetryDelay(answer.fault) else REFUSED_BACKOFF)
    else None
  }

  /** The answers to the single adds from number `from` on are all in the result. */
  ghost predicate Recorded(env: Env, w: Work, from: nat) {
    && from <= |w.singles|
    && forall i: nat | from <= i < |w.singles| ::
         var x, answer := w.singles[i], env.adds(i, w.singles[i]);
         && (answer == ListFull ==> x in w.result.fullPlayers)
         && (WaitFor(answer).Some? ==> x in w.result.waits && w.result.waits[x] == WaitFor(answer).value)
  }

  lemma {:induction false} SinglesAreRecorded(env: Env, failed: seq<Xuid>, told: map<Xuid, Time>, refusedBefore: set<Xuid>, w: Work)
    requires NoDuplicates(failed) && Recorded(env, w, 0)
    requires forall x | x in w.singles :: x !in failed
    ensures var after := AddSingly(env, failed, told, refusedBefore, w);
            && Recorded(env, after, 0)
            && (forall x | x in w.result.waits && x !in failed :: x in after.result.waits && after.result.waits[x] == w.result.waits[x])
            && (forall x | x in w.result.waits && x in told :: x in after.result.waits && after.result.waits[x] == w.result.waits[x])
    decreases |failed|
  {
    if failed != [] {
      var x, rest := failed[0], failed[1..];
      assert forall y | y in rest :: y in failed && y != x;
      if x in told {
        SinglesAreRecorded(env, rest, told, refusedBefore, w);
      } else if !AddBlocked(w.result, refusedBefore) {
        var answer := env.adds(|w.singles|, x);
        var next := w.(result := AddOne(w.result, x, answer), singles := w.singles + [x]);
        assert forall i: nat | i < |w.singles| :: next.singles[i] == w.singles[i] && w.singles[i] in w.singles;
        SinglesAreRecorded(env, rest, told, refusedBefore, next);
      }
    }
  }

  /** With distinct pending players, every full-list refusal and every delay that a pass is given, in
      bulk or singly, is in its result as given. */
  lemma PassRecordsItsAnswers(env: Env, skip: set<Xuid>, refusedBefore: set<Xuid>)
    requires env.pending.Listed? && NoDuplicates(env.pending.players)
    ensures var w := AcceptWork(env, skip, refusedBefore);
            var a := AcceptPending(env.server, env.pending, skip);
            && Recorded(env, w, 0)
            && (a.error.RequestsFailed? ==>
                  forall x | x in Told(a.error.failed, a.error.waits) ::
                    x in w.result.waits && w.result.waits[x] == a.error.waits[x])
  {
    var a := AcceptPending(env.server, env.pending, skip);
    if a.error.RequestsFailed? && a.error.cause.None? {
      var failed := a.error.failed;
      FailedAreDistinct(env.server, env.pending.players, skip);
      var r := NO_RESULT.(accepted := |a.accepted|, pendingRead := true, waits := Told(failed, a.error.waits));
      SinglesAreRecorded(env, failed, a.error.waits, refusedBefore, Work(r, a.requests, []));
    }
  }

  lemma FailedAreDistinct(server: Server, players: seq<Xuid>, skip: set<Xuid>)
    requires NoDuplicates(players)
    ensures var e := AcceptPending(server, Listed(players), skip).error;
            e.RequestsFailed? ==> NoDuplicates(e.failed)
  {
    var xuids := Eligible(players, skip);
    FilterKeepsDistinct((x: Xuid) => IsEligible(x, skip), players);
    var o := AddBatches(server, [], map[], xuids);
    FilterKeepsDistinct((x: Xuid) => x in o.waits, xuids);
    var accepted := Filter((x: Xuid) => x in xuids, o.updated);
    FilterKeepsDistinct((x: Xuid) => x !in accepted, xuids);
  }

  // ----- runs of passes -----

  /** One `runSync`: the run state it found, what it met, when it began and was recorded, what it did,
      and the run state it left. */
  datatype Turn = Turn(before: State, start: Time, env: Env, work: Work, end: Time, after: State)

  ghost predicate IsTurn(autoFriend: bool, p: Turn) {
    && p.start <= p.end
    && p.work == PassWork(p.before, autoFriend, p.start, p.env)
    && p.after == Record(p.before, p.end, p.work.result)
  }

  ghost predicate IsRun(autoFriend: bool, turns: seq<Turn>) {
    && (turns != [] ==> turns[0].before == INITIAL)
    && (forall i | 0 <= i < |turns| :: IsTurn(autoFriend, turns[i]))
    && (forall i | 0 < i < |turns| :: turns[i - 1].after == turns[i].before)
    && InOrder(turns)
  }

  ghost predicate InOrder(turns: seq<Turn>) {
    forall i, j | 0 <= i < j < |turns| :: turns[i].end <= turns[j].start
  }

  /** No pass shortens a hold that outlasts it. */
  lemma PassKeepsHold(autoFriend: bool, p: Turn, x: Xuid, t: Time)
    requires IsTurn(autoFriend, p) && p.end < t && HeldUntil(p.before, x, t)
    ensures HeldUntil(p.after, x, t)
  {
    HeldIsSkipped(p.before, x, t, p.start);
    HeldIsUntouched(p.before, autoFriend, p.start, p.env, x);
    RecordKeepsHold(p.before, p.end, p.work.result, x, t);
  }

  ghost predicate Keeps(p: Turn, x: Xuid, t: Time) { HeldUntil(p.before, x, t) ==> HeldUntil(p.after, x, t) }

  lemma {:induction false} HoldsChain(turns: seq<Turn>, k: nat, m: nat, x: Xuid, t: Time)
    requires k < m < |turns| && forall j | k < j < m :: Keeps(turns[j], x, t)
    requires forall j | 0 < j < |turns| :: turns[j - 1].after == turns[j].before
    requires HeldUntil(turns[k].after, x, t)
    ensures HeldUntil(turns[m].before, x, t)
    decreases m - k
  {
    assert turns[k].after == turns[k + 1].before;
    if k + 1 < m {
      assert Keeps(turns[k + 1], x, t);
      HoldsChain(turns, k + 1, m, x, t);
    }
  }

  lemma HoldLasts(autoFriend: bool, turns: seq<Turn>, k: nat, m: nat, x: Xuid, t: Time)
    requires IsRun(autoFriend, turns) && k < m < |turns| && turns[m].start < t
    requires HeldUntil(turns[k].after, x, t)
    ensures HeldUntil(turns[m].before, x, t)
  {
    forall j | k < j < m ensures Keeps(turns[j], x, t) {
      if HeldUntil(turns[j].before, x, t) {
        PassKeepsHold(autoFriend, turns[j], x, t);
      }
    }
    HoldsChain(turns, k, m, x, t);
  }

  /** The pass was answered about player `x` that they wait for `delay`: their single add met a full list or
      asked for a delay, or a bulk answer did. */
  ghost predicate AnsweredToWait(p: Turn, x: Xuid, delay: Time) {
    SinglyAnswered(p.env, p.work, x, delay) || BulkAnswered(p.env, p.work.requests, Skipped(p.before, p.start), x, delay)
  }

  ghost predicate SinglyAnswered(env: Env, w: Work, x: Xuid, delay: Time) {
    exists i: nat | i < |w.singles| ::
      w.singles[i] == x && (WaitFor(env.adds(i, x)) == Some(delay) || (env.adds(i, x) == ListFull && delay == HOUR))
  }

  /** The last bulk answer that holds eligible player `x` asks for `delay`, and a failure stopped the accept or no
      answer updated them. */
  ghost predicate BulkAnswered(env: Env, requests: seq<seq<Xuid>>, skip: set<Xuid>, x: Xuid, delay: Time) {
    var waits := WaitsAfter(env.server, requests);
    && env.pending.Listed? && x in Eligible(env.pending.players, skip)
    && x in waits && waits[x] == delay
    && (LastFault(env.server, requests).Some? || x !in UpdatedFrom(env.server, requests, 0))
  }

  ghost predicate DistinctPending(turns: seq<Turn>) {
    forall i | 0 <= i < |turns| && turns[i].env.pending.Listed? :: NoDuplicates(turns[i].env.pending.players)
  }

  lemma {:induction false} WaitsArePositive(server: Server, requests: seq<seq<Xuid>>)
    ensures forall x | x in WaitsAfter(server, requests) :: WaitsAfter(server, requests)[x] > 0
  {
    if requests != [] {
      WaitsArePositive(server, requests[..|requests| - 1]);
    }
  }

  /** Whom the bulk answers hold is told so: exactly the players of `Told`. */
  lemma BulkToldIff(env: Env, skip: set<Xuid>, x: Xuid, delay: Time)
    ensures var a := AcceptPending(env.server, env.pending, skip);
            BulkAnswered(env, a.requests, skip, x, delay) <==>
            a.error.RequestsFailed? && x in Told(a.error.failed, a.error.waits) && a.error.waits[x] == delay
  {
    if env.pending.Listed? {
      var players := env.pending.players;
      var a, xuids := AcceptPending(env.server, env.pending, skip), Eligible(players, skip);
      AcceptReadsAnswers(env.server, players, skip);
      var updated, waits := UpdatedFrom(env.server, a.requests, 0), WaitsAfter(env.server, a.requests);
      WaitsArePositive(env.server, a.requests);
      FilterMembers((y: Xuid) => y in waits, xuids);
      FilterMembers((y: Xuid) => y !in updated, xuids);
    }
  }

  lemma AnswerIsInResult(env: Env, skip: set<Xuid>, refusedBefore: set<Xuid>, x: Xuid, delay: Time)
    requires env.pending.Listed? ==> NoDuplicates(env.pending.players)
    requires var w := AcceptWork(env, skip, refusedBefore);
             SinglyAnswered(env, w, x, delay) || BulkAnswered(env, w.requests, skip, x, delay)
    ensures var r := AcceptWork(env, skip, refusedBefore).result;
            (x in r.fullPlayers && delay == HOUR) || (x in r.waits && delay == r.waits[x])
  {
    RequestsAreTheAccepts(env, skip, refusedBefore);
    BulkToldIff(env, skip, x, delay);
    if env.pending.Listed? {
      PassRecordsItsAnswers(env, skip, refusedBefore);
    }
  }

  lemma RequestsAreTheAccepts(env: Env, skip: set<Xuid>, refusedBefore: set<Xuid>)
    ensures AcceptWork(env, skip, refusedBefore).requests == AcceptPending(env.server, env.pending, skip).requests
  {
    var a := AcceptPending(env.server, env.pending, skip);
    if a.error.RequestsFailed? && a.error.cause.None? {
      var r := NO_RESULT.(accepted := |a.accepted|, pendingRead := true, waits := Told(a.error.failed, a.error.waits));
      SinglesAreFailed(env, a.error.failed, a.error.waits, refusedBefore, Work(r, a.requests, []));
    }
  }

  lemma AnsweredIsHeld(autoFriend: bool, p: Turn, x: Xuid, delay: Time)
    requires IsTurn(autoFriend, p) && AnsweredToWait(p, x, delay)
    requires p.env.pending.Listed? ==> NoDuplicates(p.env.pending.players)
    ensures HeldUntil(p.after, x, p.end + delay)
  {
    if autoFriend && MayAdd(p.before, p.start) {
      AnswerIsInResult(p.env, Skipped(p.before, p.start), p.before.refusedBefore, x, delay);
    }
    RecordHolds(p.before, p.end, p.work.result, x);
  }

  /** In every run of passes over distinct pending players: a player about whom the service answered that their
      list is full, or that they should be asked again after a delay, is in no bulk request and no single
      add of any later pass that starts before an hour, or that delay, after the pass was recorded. */
  lemma {:induction false} HoldsAreHonoured(autoFriend: bool, turns: seq<Turn>, k: nat, m: nat, x: Xuid, delay: Time)
    requires IsRun(autoFriend, turns) && DistinctPending(turns) && k < m < |turns|
    requires AnsweredToWait(turns[k], x, delay) && turns[m].start < turns[k].end + delay
    ensures !Touches(turns[m].work, x)
  {
    var t := turns[k].end + delay;
    AnsweredIsHeld(autoFriend, turns[k], x, delay);
    HoldLasts(autoFriend, turns, k, m, x, t);
    HeldIsSkipped(turns[m].before, x, t, turns[m].start);
    HeldIsUntouched(turns[m].before, autoFriend, turns[m].start, turns[m].env, x);
  }

  function History(turns: seq<Turn>): seq<Pass> {
    if turns == [] then [] else
      var last := turns[|turns| - 1];
      History(turns[..|turns| - 1]) + [Pass(last.end, last.work.result)]
  }

  lemma {:induction false} HistoryTimes(turns: seq<Turn>)
    ensures |History(turns)| == |turns|
    ensures forall i | 0 <= i < |turns| :: History(turns)[i].now == turns[i].end
  {
    if turns != [] {
      HistoryTimes(turns[..|turns| - 1]);
    }
  }

  ghost predicate Chained(turns: seq<Turn>) {
    && (turns != [] ==> turns[0].before == INITIAL)
    && (forall i | 0 <= i < |turns| :: turns[i].after == Record(turns[i].before, turns[i].end, turns[i].work.result))
    && (forall i | 0 < i < |turns| :: turns[i - 1].after == turns[i].before)
  }

  /** The run state after turn `m` is the fold over the history that far. */
  ghost predicate Folded(turns: seq<Turn>, before: State) {
    before == RunState.Run(History(turns))
  }

  lemma FoldedOneMore(turns: seq<Turn>, last: Turn)
    requires Folded(turns, last.before) && last.after == Record(last.before, last.end, last.work.result)
    ensures Folded(turns + [last], last.after)
  {
    assert (turns + [last])[..|turns|] == turns;
    var h := History(turns + [last]);
    assert h[..|h| - 1] == History(turns);
  }

  lemma {:induction false} ChainedFront(turns: seq<Turn>, front: seq<Turn>, last: Turn)
    requires Chained(turns) && turns == front + [last]
    ensures Chained(front) && last.before == if front == [] then INITIAL else front[|front| - 1].after
    ensures last.after == Record(last.before, last.end, last.work.result)
  {
    assert turns[|front|] == last;
    assert forall i | 0 <= i < |front| :: turns[i] == front[i];
  }

  lemma {:induction false} HistoryIs(turns: seq<Turn>)
    requires turns != [] && Chained(turns)
    ensures Folded(turns, turns[|turns| - 1].after)
  {
    var front, last := turns[..|turns| - 1], turns[|turns| - 1];
    assert turns == front + [last];
    ChainedFront(turns, front, last);
    if front != [] {
      HistoryIs(front);
    }
    FoldedOneMore(front, last);
  }

  /** After every run of passes, the list is reported full exactly when two different players count as
      freshly refused in its history. */
  lemma {:induction false} FullInRun(autoFriend: bool, turns: seq<Turn>)
    requires IsRun(autoFriend, turns) && turns != []
    ensures turns[|turns| - 1].after.full <==>
              exists x, y :: x != y && FreshlyRefused(History(turns), x) && FreshlyRefused(History(turns), y)
  {
    assert Chained(turns) by {
      assert forall i | 0 <= i < |turns| :: IsTurn(autoFriend, turns[i]);
    }
    HistoryIs(turns);
    HistoryTimes(turns);
    forall i, j | 0 <= i < j < |turns| ensures turns[i].end <= turns[j].end {
      assert IsTurn(autoFriend, turns[j]);
      assert turns[i].end <= turns[j].start;
    }
    FullIff(History(turns));
  }
}
