/** The accepting half of a pass, read from the service's answers alone: whom it asks one by one and when it stops, and every
    field of its result. */
module PassAnswers {
  import opened Common
  import opened BulkAccept
  import opened RunState
  import opened FriendPass

  // ----- what one answer says -----

  /** The delay that a fault asks for. */
  function Wait(f: Fault): Time {
    if f.Transport? then 0
    else if f.retryAfter > 0 then f.retryAfter
    else if f.rateLimited then 20 * SECOND
    else 0
  }

  /** The delay that it asks of the whole account: too many requests, or a service that is unwell. */
  function Pause(f: Fault): Time {
    if f.Response? && (f.status == 429 || f.status >= 500) then Wait(f) else 0
  }

  function PauseOf(answer: AddAnswer): Time {
    if answer.AddFailed? then Pause(answer.fault) else 0
  }

  /** How long the player of a single add waits after the answer, if it is about them: an hour if it does not say. */
  function Hold(answer: AddAnswer): Option<Time> {
    if answer.AddFailed? && answer.fault.Response? && answer.fault.status in {400, 404, 409} then
      Some(if Wait(answer.fault) > 0 then Wait(answer.fault) else HOUR)
    else None
  }

  lemma HoldIs(answer: AddAnswer)
    ensures WaitFor(answer) == Hold(answer)
  {}

  // ----- what the answers to the single adds amount to -----

  function Adds(env: Env, singles: seq<Xuid>): nat {
    if singles == [] then 0 else
      var n := |singles| - 1;
      Adds(env, singles[..n]) + if env.adds(n, singles[n]) == Added then 1 else 0
  }

  function Full(env: Env, singles: seq<Xuid>): seq<Xuid> {
    if singles == [] then [] else
      var n := |singles| - 1;
      Full(env, singles[..n]) + if env.adds(n, singles[n]) == ListFull then [singles[n]] else []
  }

  /** Refusals for a full list of players whom no earlier pass saw refused. */
  function NewlyFull(env: Env, singles: seq<Xuid>, refusedBefore: set<Xuid>): nat {
    if singles == [] then 0 else
      var n := |singles| - 1;
      NewlyFull(env, singles[..n], refusedBefore) +
      if env.adds(n, singles[n]) == ListFull && singles[n] !in refusedBefore then 1 else 0
  }

  function Paused(env: Env, singles: seq<Xuid>): Time {
    if singles == [] then 0 else PauseOf(env.adds(|singles| - 1, singles[|singles| - 1]))
  }

  function Holds(env: Env, told: map<Xuid, Time>, singles: seq<Xuid>): map<Xuid, Time> {
    if singles == [] then told else
      var n := |singles| - 1;
      var hold := Hold(env.adds(n, singles[n]));
      if hold.Some? then Holds(env, told, singles[..n])[singles[n] := hold.value] else Holds(env, told, singles[..n])
  }

  /** No more players are asked after these: the account is to wait, or two refusals with nobody accepted suggest that the
      bot's own list is full. */
  predicate Enough(env: Env, accepted: nat, refusedBefore: set<Xuid>, singles: seq<Xuid>) {
    Paused(env, singles) > 0 || (accepted + Adds(env, singles) == 0 && NewlyFull(env, singles, refusedBefore) >= 2)
  }

  /** The result says what the answers to its single adds say, on top of `base`. */
  ghost predicate Tells(env: Env, base: Result, w: Work) {
    w.result == base.(
      accepted := base.accepted + Adds(env, w.singles),
      addRetryAfter := Paused(env, w.singles),
      fullPlayers := Full(env, w.singles),
      waits := Holds(env, base.waits, w.singles))
  }

  lemma {:induction false} FirstRefusalsAre(env: Env, singles: seq<Xuid>, refusedBefore: set<Xuid>)
    ensures |FirstRefusals(Full(env, singles), refusedBefore)| == NewlyFull(env, singles, refusedBefore)
  {
    if singles != [] {
      var n := |singles| - 1;
      FirstRefusalsAre(env, singles[..n], refusedBefore);
      var full := Full(env, singles[..n]);
      if env.adds(n, singles[n]) == ListFull {
        assert (full + [singles[n]])[..|full|] == full;
      } else {
        assert full + [] == full;
      }
    }
  }

  lemma BlockedIff(env: Env, base: Result, refusedBefore: set<Xuid>, w: Work)
    requires Tells(env, base, w)
    ensures AddBlocked(w.result, refusedBefore) <==> Enough(env, base.accepted, refusedBefore, w.singles)
  {
    FirstRefusalsAre(env, w.singles, refusedBefore);
  }

  function AskedOne(env: Env, w: Work, x: Xuid): Work {
    w.(result := AddOne(w.result, x, env.adds(|w.singles|, x)), singles := w.singles + [x])
  }

  lemma {:induction false} TellsOneMore(env: Env, base: Result, w: Work, x: Xuid)
    requires Tells(env, base, w) && Paused(env, w.singles) <= 0
    ensures Tells(env, base, AskedOne(env, w, x))
  {
    var more := w.singles + [x];
    assert more[..|w.singles|] == w.singles;
    HoldIs(env.adds(|w.singles|, x));
    PausesAre(env, w.singles);
  }

  lemma PausesAre(env: Env, singles: seq<Xuid>)
    ensures Paused(env, singles) >= 0
  {}

  // ----- whom the pass asks one by one -----

  /** `singles` are the candidates in order, up to the first point at which there is enough. */
  ghost predicate AsksInOrder(env: Env, accepted: nat, refusedBefore: set<Xuid>, candidates: seq<Xuid>, singles: seq<Xuid>) {
    && singles <= candidates
    && (forall n | 0 <= n < |singles| :: !Enough(env, accepted, refusedBefore, singles[..n]))
    && (|singles| < |candidates| ==> Enough(env, accepted, refusedBefore, singles))
  }

  lemma {:induction false} SinglesTell(env: Env, base: Result, failed: seq<Xuid>, told: map<Xuid, Time>, refusedBefore: set<Xuid>, w: Work)
    requires Tells(env, base, w)
    ensures Tells(env, base, AddSingly(env, failed, told, refusedBefore, w))
    decreases |failed|
  {
    if failed != [] {
      if failed[0] in told {
        SinglesTell(env, base, failed[1..], told, refusedBefore, w);
      } else if !AddBlocked(w.result, refusedBefore) {
        BlockedIff(env, base, refusedBefore, w);
        TellsOneMore(env, base, w, failed[0]);
        SinglesTell(env, base, failed[1..], told, refusedBefore, AskedOne(env, w, failed[0]));
      }
    }
  }

  function Untold(told: map<Xuid, Time>, failed: seq<Xuid>): seq<Xuid> { Filter((x: Xuid) => x !in told, failed) }

  lemma {:induction false} UntoldCons(told: map<Xuid, Time>, failed: seq<Xuid>)
    requires failed != []
    ensures Untold(told, failed) == (if failed[0] in told then [] else [failed[0]]) + Untold(told, failed[1..])
  {
    var untold := (x: Xuid) => x !in told;
    assert failed == [failed[0]] + failed[1..];
    FilterConcat(untold, [failed[0]], failed[1..]);
    FilterOne(untold, failed[0]);
  }

  /** The rest of the loop asks the rest of the candidates. */
  lemma {:induction false} SinglesAskInOrder(env: Env, base: Result, failed: seq<Xuid>, told: map<Xuid, Time>, refusedBefore: set<Xuid>,
                                             w: Work)
    requires Tells(env, base, w)
    requires forall n | 0 <= n < |w.singles| :: !Enough(env, base.accepted, refusedBefore, w.singles[..n])
    ensures AsksInOrder(env, base.accepted, refusedBefore, w.singles + Untold(told, failed),
                        AddSingly(env, failed, told, refusedBefore, w).singles)
    decreases |failed|
  {
    if failed == [] {
      assert w.singles + [] == w.singles;
    } else {
      var x := failed[0];
      UntoldCons(told, failed);
      BlockedIff(env, base, refusedBefore, w);
      if x in told {
        assert [] + Untold(told, failed[1..]) == Untold(told, failed[1..]);
        SinglesAskInOrder(env, base, failed[1..], told, refusedBefore, w);
      } else if !AddBlocked(w.result, refusedBefore) {
        var next := AskedOne(env, w, x);
        TellsOneMore(env, base, w, x);
        EnoughBefore(env, base.accepted, refusedBefore, w.singles, x);
        SinglesAskInOrder(env, base, failed[1..], told, refusedBefore, next);
        assert next.singles + Untold(told, failed[1..]) == w.singles + ([x] + Untold(told, failed[1..]));
      }
    }
  }

  lemma EnoughBefore(env: Env, accepted: nat, refusedBefore: set<Xuid>, singles: seq<Xuid>, x: Xuid)
    requires forall n | 0 <= n < |singles| :: !Enough(env, accepted, refusedBefore, singles[..n])
    requires !Enough(env, accepted, refusedBefore, singles)
    ensures forall n | 0 <= n < |singles + [x]| :: !Enough(env, accepted, refusedBefore, (singles + [x])[..n])
  {
    var more := singles + [x];
    forall n | 0 <= n < |more| ensures !Enough(env, accepted, refusedBefore, more[..n]) {
      assert more[..n] == if n < |singles| then singles[..n] else singles;
    }
  }

  // ----- the whole accepting half -----

  /** The failure that stopped the accept: of reading the pending list, or of the last bulk request. */
  function StoppedBy(env: Env, requests: seq<seq<Xuid>>): Option<Fault> {
    match env.pending
    case Unread(f) => Some(f)
    case Listed(_) => LastFault(env.server, requests)
  }

  predicate IsRead(f: Fault) { f.Response? && f.isRead }

  /** The players whom the bulk answers update, and the waits that they ask for. */
  function BulkAccepted(env: Env, requests: seq<seq<Xuid>>, skip: set<Xuid>): seq<Xuid> {
    match env.pending
    case Unread(_) => []
    case Listed(players) =>
      var xuids := Eligible(players, skip);
      Filter((x: Xuid) => x in xuids, UpdatedFrom(env.server, requests, 0))
  }

  ghost function BulkWaits(env: Env, requests: seq<seq<Xuid>>, skip: set<Xuid>): map<Xuid, Time> {
    var waits := WaitsAfter(env.server, requests);
    map x | x in waits && BulkAnswered(env, requests, skip, x, waits[x]) :: waits[x]
  }

  /** The players left to be asked one by one: eligible, neither updated nor told to wait. */
  function Candidates(env: Env, requests: seq<seq<Xuid>>, skip: set<Xuid>): seq<Xuid> {
    match env.pending
    case Unread(_) => []
    case Listed(players) =>
      var updated, waits := UpdatedFrom(env.server, requests, 0), WaitsAfter(env.server, requests);
      Filter((x: Xuid) => x !in updated && x !in waits, Eligible(players, skip))
  }

  ghost predicate ReadsAnswers(env: Env, skip: set<Xuid>, refusedBefore: set<Xuid>, w: Work) {
    var stopped, accepted := StoppedBy(env, w.requests), |BulkAccepted(env, w.requests, skip)|;
    && (if stopped.Some? then w.singles == []
        else AsksInOrder(env, accepted, refusedBefore, Candidates(env, w.requests, skip), w.singles))
    && w.result == Result(
         if stopped.Some? && IsRead(stopped.value) then Wait(stopped.value) else 0,
         if stopped.None? then Paused(env, w.singles) else if IsRead(stopped.value) then 0 else Pause(stopped.value),
         0,
         accepted + Adds(env, w.singles),
         Full(env, w.singles),
         Holds(env, BulkWaits(env, w.requests, skip), w.singles),
         stopped.None? || (env.pending.Listed? && WaitsAfter(env.server, w.requests) != map[])
           || (stopped.value.Response? && !stopped.value.isRead))
  }

  lemma BulkWaitsAre(env: Env, skip: set<Xuid>)
    ensures var a := AcceptPending(env.server, env.pending, skip);
            BulkWaits(env, a.requests, skip) == if a.error.RequestsFailed? then Told(a.error.failed, a.error.waits) else map[]
  {
    var a := AcceptPending(env.server, env.pending, skip);
    var waits := WaitsAfter(env.server, a.requests);
    if env.pending.Listed? {
      AcceptReadsAnswers(env.server, env.pending.players, skip);
    }
    forall x: Xuid, delay: Time
      ensures BulkAnswered(env, a.requests, skip, x, delay) <==>
              a.error.RequestsFailed? && x in Told(a.error.failed, a.error.waits) && a.error.waits[x] == delay
    {
      BulkToldIff(env, skip, x, delay);
    }
  }

  lemma {:induction false} FilterTwice(p: Xuid -> bool, q: Xuid -> bool, r: Xuid -> bool, s: seq<Xuid>)
    requires forall x :: r(x) == (p(x) && q(x))
    ensures Filter(q, Filter(p, s)) == Filter(r, s)
  {
    if s != [] {
      var front, last := s[..|s| - 1], s[|s| - 1];
      FilterTwice(p, q, r, front);
      if p(last) {
        assert (Filter(p, front) + [last])[..|Filter(p, front)|] == Filter(p, front);
      }
    }
  }

  lemma {:induction false} CandidatesAre(env: Env, skip: set<Xuid>)
    requires env.pending.Listed?
    ensures var a := AcceptPending(env.server, env.pending, skip);
            LastFault(env.server, a.requests).None? ==>
              Candidates(env, a.requests, skip) == if a.error.RequestsFailed? then Untold(a.error.waits, a.error.failed) else []
  {
    var a, xuids := AcceptPending(env.server, env.pending, skip), Eligible(env.pending.players, skip);
    AcceptReadsAnswers(env.server, env.pending.players, skip);
    var updated, waits := UpdatedFrom(env.server, a.requests, 0), WaitsAfter(env.server, a.requests);
    var rest := Filter((x: Xuid) => x !in updated, xuids);
    FilterTwice((x: Xuid) => x !in updated, (x: Xuid) => x !in waits, (x: Xuid) => x !in updated && x !in waits, xuids);
    assert Candidates(env, a.requests, skip) == Untold(waits, rest);
  }

  /** The accepting half does what the answers it is given say: it asks one by one, in order, the eligible players whom no bulk
      answer updated or told to wait, unless a failure stopped it, until there is enough; and every field of its result is read
      from the answers. In particular an answer that asks the account to wait leaves exactly its delay in `addRetryAfter`. */
  lemma {:induction false} PassReadsAnswers(env: Env, skip: set<Xuid>, refusedBefore: set<Xuid>)
    ensures ReadsAnswers(env, skip, refusedBefore, AcceptWork(env, skip, refusedBefore))
  {
    var a := AcceptPending(env.server, env.pending, skip);
    BulkWaitsAre(env, skip);
    RequestsAreTheAccepts(env, skip, refusedBefore);
    if env.pending.Listed? {
      AcceptReadsAnswers(env.server, env.pending.players, skip);
      CandidatesAre(env, skip);
      if a.error.RequestsFailed? && a.error.cause.None? {
        SinglesRead(env, a, refusedBefore);
      }
    }
  }

  lemma SinglesRead(env: Env, a: Accept, refusedBefore: set<Xuid>)
    requires a.error.RequestsFailed?
    ensures var failed, waits := a.error.failed, a.error.waits;
            var base := NO_RESULT.(accepted := |a.accepted|, pendingRead := true, waits := Told(failed, waits));
            var w := AddSingly(env, failed, waits, refusedBefore, Work(base, a.requests, []));
            && Tells(env, base, w)
            && AsksInOrder(env, |a.accepted|, refusedBefore, Untold(waits, failed), w.singles)
  {
    var failed, waits := a.error.failed, a.error.waits;
    var base := NO_RESULT.(accepted := |a.accepted|, pendingRead := true, waits := Told(failed, waits));
    var w := Work(base, a.requests, []);
    SinglesTell(env, base, failed, waits, refusedBefore, w);
    SinglesAskInOrder(env, base, failed, waits, refusedBefore, w);
    assert [] + Untold(waits, failed) == Untold(waits, failed);
  }
}
