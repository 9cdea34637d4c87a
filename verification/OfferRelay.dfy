/** The join-offer relay as a machine over timed events, each one region under the
    relay's lock. An offer is named by the index of the event that brought it, so
    a replaced offer and its replacement are different offers. */
module OfferRelay {
  import opened Common
  import opened OfferText

  datatype OfferKey = OfferKey(networkID: string, connectionID: nat)

  datatype Signal = Offer(sdp: string) | Candidate(data: string) | ConnectError(code: string) | OtherSignal

  /** How the target and the client's signaling treated one relayed offer. */
  datatype Attempt = Attempt(statusOk: bool, signalOk: bool, answer: Option<string>, delivered: bool)

  datatype ReplyBody = Answer(data: string) | ConnectFailure(code: int)

  datatype Reply = Reply(offer: nat, key: OfferKey, body: ReplyBody, delivered: bool)

  datatype Event =
    | Receive(key: OfferKey, signal: Signal)
    | TimerFires(key: OfferKey, offer: nat)     // either timer of that offer, received for that key, runs `flush`
    | Finish(offer: nat, attempt: Attempt)      // the offer's `relay` call returns
    | Close

  datatype TimedEvent = At(now: Time, event: Event)

  datatype Config = Config(quiet: Time, max: Time)

  const DEFAULTS := Config(500 * SECOND / 1000, 3 * SECOND)

  // What the client is told when the target session is gone, and when the connection could not be requested.
  const SERVER_NOT_FOUND := 1
  const CONNECT_REQUEST := 6

  datatype Pending = Pending(id: nat, sdp: string, candidates: seq<string>, quietDue: Time, maxDue: Time)

  datatype Started = Started(id: nat, key: OfferKey, text: string)

  datatype Relay = Relay(
    ticks: nat,                       // events so far
    pending: map<OfferKey, Pending>,
    closed: bool,
    started: seq<Started>,            // every `relay` call ever made
    running: map<nat, OfferKey>,      // those that have not returned
    replies: seq<Reply>,              // every attempt to answer a client
    joins: nat)

  const INITIAL := Relay(0, map[], false, [], map[], [], 0)

  function Due(p: Pending): Time { Min(p.quietDue, p.maxDue) }

  /** The one signal that a relayed offer is answered with. */
  function ReplyTo(offer: nat, key: OfferKey, attempt: Attempt): Reply {
    var body :=
      if !attempt.statusOk then ConnectFailure(SERVER_NOT_FOUND)
      else if !attempt.signalOk then ConnectFailure(CONNECT_REQUEST)
      else match attempt.answer
           case Some(data) => Answer(data)
           case None => ConnectFailure(CONNECT_REQUEST);
    Reply(offer, key, body, attempt.delivered)
  }

  predicate IsDeliveredAnswer(r: Reply) { r.body.Answer? && r.delivered }

  function Received(cfg: Config, r: Relay, now: Time, key: OfferKey, signal: Signal): Relay {
    if r.closed then r else
      match signal
      case Offer(sdp) =>
        r.(pending := r.pending[key := Pending(r.ticks, sdp, [], now + cfg.quiet, now + cfg.max)])
      case Candidate(data) =>
        if key !in r.pending then r else
          var o := r.pending[key];
          r.(pending := r.pending[key := o.(candidates := o.candidates + [data], quietDue := now + cfg.quiet)])
      case ConnectError(_) => r.(pending := r.pending - {key})
      case OtherSignal => r
  }

  /** What `NotifySignal` tells the signaling connection. */
  predicate Accepts(r: Relay, key: OfferKey, signal: Signal) {
    !r.closed && (signal.Offer? || signal.ConnectError? || (signal.Candidate? && key in r.pending))
  }

  /** The key under which offer `id` still waits, if it does. */
  ghost predicate Waits(r: Relay, key: OfferKey, id: nat) { key in r.pending && r.pending[key].id == id }

  function Flushed(r: Relay, key: OfferKey, id: nat): Relay {
    if r.closed || key !in r.pending || r.pending[key].id != id then r else FlushedAt(r, key)
  }

  function FlushedAt(r: Relay, key: OfferKey): Relay
    requires key in r.pending
  {
    var o := r.pending[key];
    r.(pending := r.pending - {key},
       started := r.started + [Started(o.id, key, CompleteOfferSDP(o.sdp, o.candidates))],
       running := r.running[o.id := key])
  }

  function Finished(r: Relay, id: nat, attempt: Attempt): Relay {
    if id !in r.running then r else
      var reply := ReplyTo(id, r.running[id], attempt);
      r.(running := r.running - {id},
         replies := r.replies + [reply],
         joins := if IsDeliveredAnswer(reply) then r.joins + 1 else r.joins)
  }

  function Step(cfg: Config, r: Relay, e: TimedEvent): Relay {
    var after := match e.event
      case Receive(key, signal) => Received(cfg, r, e.now, key, signal)
      case TimerFires(key, id) => Flushed(r, key, id)
      case Finish(id, attempt) => Finished(r, id, attempt)
      case Close => r.(closed := true, pending := map[]);
    after.(ticks := r.ticks + 1)
  }

  function Run(cfg: Config, from: Relay, trace: seq<TimedEvent>): Relay {
    if trace == [] then from
    else Step(cfg, Run(cfg, from, trace[..|trace| - 1]), trace[|trace| - 1])
  }

  // ----- what the trace alone says about an offer -----

  ghost predicate IsOffer(trace: seq<TimedEvent>, i: int) {
    && 0 <= i < |trace|
    && trace[i].event.Receive?
    && trace[i].event.signal.Offer?
    && !ClosedIn(trace[..i])
  }

  ghost predicate ClosedIn(trace: seq<TimedEvent>) { exists e | e in trace :: e.event == Close }

  /** Whether `e` ends offer `i` of key `key`: it is replaced, abandoned, closed out or flushed. */
  ghost predicate Ends(e: Event, key: OfferKey, i: nat) {
    || e == Close
    || e == TimerFires(key, i)
    || (e.Receive? && e.key == key && (e.signal.Offer? || e.signal.ConnectError?))
  }

  ghost predicate Live(trace: seq<TimedEvent>, i: nat) {
    && IsOffer(trace, i)
    && forall j: nat | i < j < |trace| :: !Ends(trace[j].event, trace[i].event.key, i)
  }

  predicate IsCandidateFor(e: Event, key: OfferKey) { e.Receive? && e.key == key && e.signal.Candidate? }

  /** The candidates that arrived for offer `i`, in order. */
  ghost function CandidatesOf(trace: seq<TimedEvent>, i: nat): seq<string>
    requires IsOffer(trace, i)
  {
    if |trace| == i + 1 then [] else
      var front, last := trace[..|trace| - 1], trace[|trace| - 1].event;
      assert front[..i] == trace[..i];
      CandidatesOf(front, i) + if IsCandidateFor(last, trace[i].event.key) then [last.signal.data] else []
  }

  /** When offer `i` or its latest candidate arrived. */
  ghost function LastHeard(trace: seq<TimedEvent>, i: nat): Time
    requires IsOffer(trace, i)
  {
    if |trace| == i + 1 then trace[i].now else
      var front, last := trace[..|trace| - 1], trace[|trace| - 1];
      assert front[..i] == trace[..i];
      if IsCandidateFor(last.event, trace[i].event.key) then last.now else LastHeard(front, i)
  }

  /** What waits for offer `i` when it is live. */
  ghost function Expected(cfg: Config, trace: seq<TimedEvent>, i: nat): Pending
    requires IsOffer(trace, i)
  {
    Pending(i, trace[i].event.signal.sdp, CandidatesOf(trace, i), LastHeard(trace, i) + cfg.quiet, trace[i].now + cfg.max)
  }

  /** The relay call that event `e` makes after `trace`: a timer fires for a live offer. */
  ghost function StartBy(trace: seq<TimedEvent>, e: Event): seq<Started> {
    if e.TimerFires? && Live(trace, e.offer) && trace[e.offer].event.key == e.key then
      [Started(e.offer, e.key, CompleteOfferSDP(trace[e.offer].event.signal.sdp, CandidatesOf(trace, e.offer)))]
    else []
  }

  /** The relay calls that a trace calls for. */
  ghost function Starts(trace: seq<TimedEvent>): seq<Started> {
    if trace == [] then [] else
      Starts(trace[..|trace| - 1]) + StartBy(trace[..|trace| - 1], trace[|trace| - 1].event)
  }

  // ----- the machine does what the trace says -----

  ghost predicate PendingAgrees(cfg: Config, trace: seq<TimedEvent>, r: Relay) {
    && (forall key | key in r.pending :: PendingIs(cfg, trace, key, r.pending[key]))
    && (forall i: nat | Live(trace, i) :: Waits(r, trace[i].event.key, i))
  }

  ghost predicate PendingIs(cfg: Config, trace: seq<TimedEvent>, key: OfferKey, p: Pending) {
    Live(trace, p.id) && trace[p.id].event.key == key && p == Expected(cfg, trace, p.id)
  }

  lemma LiveSnoc(trace: seq<TimedEvent>, e: TimedEvent, i: nat)
    ensures i < |trace| ==> (Live(trace + [e], i) <==> Live(trace, i) && !Ends(e.event, trace[i].event.key, i))
    ensures i == |trace| ==>
              (Live(trace + [e], i) <==> !ClosedIn(trace) && e.event.Receive? && e.event.signal.Offer?)
    ensures Live(trace + [e], i) ==> i <= |trace|
  {
    var all := trace + [e];
    if i < |trace| {
      assert all[..i] == trace[..i];
      assert all[|trace|] == e;
      assert forall j | i < j < |trace| :: all[j] == trace[j];
    } else if i == |trace| {
      assert all[..i] == trace;
    }
  }

  lemma ExpectedSnoc(cfg: Config, trace: seq<TimedEvent>, e: TimedEvent, i: nat)
    requires IsOffer(trace, i)
    ensures IsOffer(trace + [e], i)
    ensures var was, after := Expected(cfg, trace, i), Expected(cfg, trace + [e], i);
            after == if IsCandidateFor(e.event, trace[i].event.key)
                  then was.(candidates := was.candidates + [e.event.signal.data], quietDue := e.now + cfg.quiet)
                  else was
  {
    var all := trace + [e];
    assert all[..i] == trace[..i];
    assert all[..|all| - 1] == trace;
  }

  lemma ExpectedNew(cfg: Config, trace: seq<TimedEvent>, e: TimedEvent)
    requires e.event.Receive? && e.event.signal.Offer? && !ClosedIn(trace)
    ensures IsOffer(trace + [e], |trace|)
    ensures Expected(cfg, trace + [e], |trace|) ==
            Pending(|trace|, e.event.signal.sdp, [], e.now + cfg.quiet, e.now + cfg.max)
  {
    assert (trace + [e])[..|trace|] == trace;
  }

  lemma PendingStaysAgreed(cfg: Config, trace: seq<TimedEvent>, r: Relay, e: TimedEvent)
    requires PendingAgrees(cfg, trace, r)
    requires r.ticks == |trace| && (r.closed <==> ClosedIn(trace)) && (r.closed ==> r.pending == map[])
    ensures PendingAgrees(cfg, trace + [e], Step(cfg, r, e))
  {
    var after, all := Step(cfg, r, e), trace + [e];
    forall key | key in after.pending
      ensures PendingIs(cfg, all, key, after.pending[key])
    {
      PendingAfterIs(cfg, trace, r, e, key);
    }
    forall i: nat | Live(all, i)
      ensures Waits(after, all[i].event.key, i)
    {
      LiveWaitsAfter(cfg, trace, r, e, i);
    }
  }

  lemma {:induction false} PendingAfterIs(cfg: Config, trace: seq<TimedEvent>, r: Relay, e: TimedEvent, key: OfferKey)
    requires PendingAgrees(cfg, trace, r)
    requires r.ticks == |trace| && (r.closed <==> ClosedIn(trace)) && (r.closed ==> r.pending == map[])
    requires key in Step(cfg, r, e).pending
    ensures PendingIs(cfg, trace + [e], key, Step(cfg, r, e).pending[key])
  {
    if e.event.Receive? && e.event.signal.Offer? && e.event.key == key {
      LiveSnoc(trace, e, |trace|);
      ExpectedNew(cfg, trace, e);
    } else {
      var i := r.pending[key].id;
      assert PendingIs(cfg, trace, key, r.pending[key]);
      assert !Ends(e.event, key, i);
      LiveSnoc(trace, e, i);
      ExpectedSnoc(cfg, trace, e, i);
    }
  }

  lemma LiveWaitsAfter(cfg: Config, trace: seq<TimedEvent>, r: Relay, e: TimedEvent, i: nat)
    requires PendingAgrees(cfg, trace, r)
    requires r.ticks == |trace| && (r.closed <==> ClosedIn(trace)) && (r.closed ==> r.pending == map[])
    requires Live(trace + [e], i)
    ensures Waits(Step(cfg, r, e), (trace + [e])[i].event.key, i)
  {
    LiveSnoc(trace, e, i);
    if i < |trace| {
      var key := trace[i].event.key;
      assert Waits(r, key, i);
    }
  }

  ghost predicate Agrees(cfg: Config, trace: seq<TimedEvent>, r: Relay) {
    && r.ticks == |trace|
    && (r.closed <==> ClosedIn(trace))
    && (r.closed ==> r.pending == map[])
    && PendingAgrees(cfg, trace, r)
    && r.started == Starts(trace)
  }

  lemma StartedStaysAgreed(cfg: Config, trace: seq<TimedEvent>, r: Relay, e: TimedEvent)
    requires Agrees(cfg, trace, r)
    ensures Step(cfg, r, e).started == Starts(trace + [e])
  {
    var all := trace + [e];
    assert all[..|all| - 1] == trace;
    if e.event.TimerFires? {
      var key, i := e.event.key, e.event.offer;
      if Live(trace, i) && trace[i].event.key == key {
        assert Waits(r, key, i) && PendingIs(cfg, trace, key, r.pending[key]);
      } else {
        assert key in r.pending ==> PendingIs(cfg, trace, key, r.pending[key]);
      }
    }
  }

  lemma ClosedSnoc(trace: seq<TimedEvent>, e: TimedEvent)
    ensures ClosedIn(trace + [e]) <==> ClosedIn(trace) || e.event == Close
  {
    var all := trace + [e];
    assert e in all;
    assert forall x :: x in all <==> x in trace || x == e;
  }

  lemma {:induction false} StepStaysAgreed(cfg: Config, trace: seq<TimedEvent>, r: Relay, e: TimedEvent)
    requires Agrees(cfg, trace, r)
    ensures Agrees(cfg, trace + [e], Step(cfg, r, e))
  {
    PendingStaysAgreed(cfg, trace, r, e);
    StartedStaysAgreed(cfg, trace, r, e);
    ClosedSnoc(trace, e);
  }

  /** In every interleaving of signals, timers, finished relays and closing, the offers that wait and
      the relay calls made are exactly those that the trace calls for, with every candidate in order. */
  lemma {:induction false} RelayMatchesTrace(cfg: Config, trace: seq<TimedEvent>)
    ensures Agrees(cfg, trace, Run(cfg, INITIAL, trace))
  {
    if trace != [] {
      var front, last := trace[..|trace| - 1], trace[|trace| - 1];
      assert trace == front + [last];
      RelayMatchesTrace(cfg, front);
      StepStaysAgreed(cfg, front, Run(cfg, INITIAL, front), last);
    }
  }

  /** What the signaling connection is told: a signal is accepted exactly if it is an offer, a connect error, or a candidate for an offer that
      is still live, and the relay is not closed. */
  lemma AcceptsIff(cfg: Config, trace: seq<TimedEvent>, key: OfferKey, signal: Signal)
    ensures Accepts(Run(cfg, INITIAL, trace), key, signal) <==>
            && !ClosedIn(trace)
            && match signal
               case Offer(_) => true
               case ConnectError(_) => true
               case Candidate(_) => exists i: nat :: Live(trace, i) && trace[i].event.key == key
               case OtherSignal => false
  {
    RelayMatchesTrace(cfg, trace);
    var r := Run(cfg, INITIAL, trace);
    if key in r.pending {
      assert PendingIs(cfg, trace, key, r.pending[key]);
    }
    if i: nat :| Live(trace, i) && trace[i].event.key == key {
      assert Waits(r, key, i);
    }
  }

  // ----- each offer is relayed at most once -----

  /** Event `j` is one of offer `i`'s timers, and it fires while the offer is live. */
  ghost predicate RelayedAt(trace: seq<TimedEvent>, i: nat, j: nat) {
    && j < |trace|
    && Live(trace[..j], i)
    && trace[j].event == TimerFires(trace[i].event.key, i)
  }

  ghost predicate IsStartOf(started: seq<Started>, i: nat) { exists s | s in started :: s.id == i }

  lemma IsStartOfConcat(a: seq<Started>, b: seq<Started>, i: nat)
    ensures IsStartOf(a + b, i) <==> IsStartOf(a, i) || IsStartOf(b, i)
  {
    assert forall s :: s in a + b <==> s in a || s in b;
  }

  lemma RelayedBefore(trace: seq<TimedEvent>, n: nat, i: nat)
    requires n <= |trace|
    ensures forall j: nat | j < n :: RelayedAt(trace, i, j) <==> RelayedAt(trace[..n], i, j)
  {
    assert forall j: nat | j < n :: trace[..j] == trace[..n][..j];
  }

  lemma StartByIs(trace: seq<TimedEvent>, n: nat, i: nat)
    requires n < |trace|
    ensures IsStartOf(StartBy(trace[..n], trace[n].event), i) <==> RelayedAt(trace, i, n)
  {
    var starts := StartBy(trace[..n], trace[n].event);
    if RelayedAt(trace, i, n) {
      assert starts[0].id == i;
    }
  }

  lemma {:induction false} StartsAre(trace: seq<TimedEvent>, i: nat)
    ensures IsStartOf(Starts(trace), i) <==> (exists j: nat :: RelayedAt(trace, i, j))
  {
    if trace == [] {
      assert forall j: nat :: !RelayedAt(trace, i, j);
    } else {
      var n := |trace| - 1;
      StartsAre(trace[..n], i);
      RelayedBefore(trace, n, i);
      StartByIs(trace, n, i);
      IsStartOfConcat(Starts(trace[..n]), StartBy(trace[..n], trace[n].event), i);
    }
  }

  /** An offer is relayed if and only if one of its timers fires before it is replaced,
      abandoned, closed out or relayed already. */
  lemma RelayedIff(cfg: Config, trace: seq<TimedEvent>, i: nat)
    ensures IsStartOf(Run(cfg, INITIAL, trace).started, i) <==> (exists j: nat :: RelayedAt(trace, i, j))
  {
    RelayMatchesTrace(cfg, trace);
    StartsAre(trace, i);
  }

  lemma RelayedEnds(trace: seq<TimedEvent>, i: nat, j: nat)
    requires RelayedAt(trace, i, j)
    ensures !Live(trace, i)
  {
    assert i < j;
    assert Ends(trace[j].event, trace[i].event.key, i);
  }

  lemma LiveIsNotStarted(trace: seq<TimedEvent>, i: nat)
    ensures Live(trace, i) ==> !IsStartOf(Starts(trace), i)
  {
    StartsAre(trace, i);
    forall j: nat | RelayedAt(trace, i, j)
      ensures !Live(trace, i)
    {
      RelayedEnds(trace, i, j);
    }
  }

  ghost predicate DistinctStarts(started: seq<Started>) {
    forall a, b | 0 <= a < b < |started| :: started[a].id != started[b].id
  }

  lemma {:induction false} StartsAreDistinct(trace: seq<TimedEvent>)
    ensures DistinctStarts(Starts(trace))
  {
    if trace != [] {
      var front, e := trace[..|trace| - 1], trace[|trace| - 1].event;
      StartsAreDistinct(front);
      if e.TimerFires? && Live(front, e.offer) {
        LiveIsNotStarted(front, e.offer);
      }
    }
  }

  lemma RelayedAtMostOnce(cfg: Config, trace: seq<TimedEvent>)
    ensures DistinctStarts(Run(cfg, INITIAL, trace).started)
  {
    RelayMatchesTrace(cfg, trace);
    StartsAreDistinct(trace);
  }

  // ----- each relay call answers its client once -----

  ghost predicate IsStarted(r: Relay, id: nat, key: OfferKey) {
    exists s | s in r.started :: s.id == id && s.key == key
  }

  ghost predicate IsReplied(r: Relay, id: nat) { exists p | p in r.replies :: p.offer == id }

  /** Every relay call is either still running or has made exactly one reply attempt to the client
      that sent the offer, and `joins` counts the answers delivered. */
  ghost predicate Accounted(r: Relay) {
    && (forall s | s in r.started :: (s.id in r.running) != IsReplied(r, s.id))
    && (forall id | id in r.running :: IsStarted(r, id, r.running[id]))
    && (forall p | p in r.replies :: IsStarted(r, p.offer, p.key))
    && (forall a, b | 0 <= a < b < |r.replies| :: r.replies[a].offer != r.replies[b].offer)
    && |r.started| == |r.replies| + |r.running|
    && r.joins == |Filter((p: Reply) => p.body.Answer? && p.delivered, r.replies)|
  }

  lemma {:induction false} EveryRelayAnswersOnce(cfg: Config, trace: seq<TimedEvent>)
    ensures Accounted(Run(cfg, INITIAL, trace))
  {
    if trace != [] {
      var front := trace[..|trace| - 1];
      EveryRelayAnswersOnce(cfg, front);
      PendingIsNotStarted(cfg, front);
      StepStaysAccounted(cfg, Run(cfg, INITIAL, front), trace[|trace| - 1]);
    }
  }

  ghost predicate PendingUnstarted(r: Relay) {
    forall key | key in r.pending :: !IsStartOf(r.started, r.pending[key].id)
  }

  lemma PendingIsNotStarted(cfg: Config, trace: seq<TimedEvent>)
    ensures PendingUnstarted(Run(cfg, INITIAL, trace))
  {
    RelayMatchesTrace(cfg, trace);
    var r := Run(cfg, INITIAL, trace);
    forall key | key in r.pending
      ensures !IsStartOf(r.started, r.pending[key].id)
    {
      assert PendingIs(cfg, trace, key, r.pending[key]);
      LiveIsNotStarted(trace, r.pending[key].id);
    }
  }

  lemma {:induction false} StepStaysAccounted(cfg: Config, r: Relay, e: TimedEvent)
    requires Accounted(r) && PendingUnstarted(r)
    ensures Accounted(Step(cfg, r, e))
  {
    match e.event {
      case TimerFires(key, id) =>
        StartStaysAccounted(r, key, id);
        AccountedIgnores(Flushed(r, key, id), Step(cfg, r, e));
      case Finish(id, attempt) =>
        FinishStaysAccounted(r, id, attempt);
        AccountedIgnores(Finished(r, id, attempt), Step(cfg, r, e));
      case Receive(key, signal) =>
        ReceivingStartsNothing(cfg, r, e.now, key, signal);
        AccountedIgnores(r, Step(cfg, r, e));
      case Close =>
        AccountedIgnores(r, Step(cfg, r, e));
    }
  }

  lemma {:induction false} ReceivingStartsNothing(cfg: Config, r: Relay, now: Time, key: OfferKey, signal: Signal)
    ensures var s := Received(cfg, r, now, key, signal);
            s.started == r.started && s.running == r.running && s.replies == r.replies && s.joins == r.joins
  {}

  lemma {:induction false} AccountedIgnores(r: Relay, s: Relay)
    requires Accounted(r)
    requires s.started == r.started && s.running == r.running && s.replies == r.replies && s.joins == r.joins
    ensures Accounted(s)
  {
    assert forall id :: IsReplied(s, id) == IsReplied(r, id);
    assert forall id, key :: IsStarted(s, id, key) == IsStarted(r, id, key);
  }

  lemma {:induction false} StartStaysAccounted(r: Relay, key: OfferKey, id: nat)
    requires Accounted(r) && PendingUnstarted(r)
    ensures Accounted(Flushed(r, key, id))
  {
    var after := Flushed(r, key, id);
    if after != r {
      var last := Started(id, key, CompleteOfferSDP(r.pending[key].sdp, r.pending[key].candidates));
      StartedSnoc(r, after, last);
      assert !IsReplied(r, id) && id !in r.running by {
        assert forall k :: !IsStarted(r, id, k);
        assert forall p | p in r.replies :: IsStarted(r, p.offer, p.key);
      }
    }
  }

  lemma {:induction false} StartedSnoc(r: Relay, after: Relay, last: Started)
    requires after.started == r.started + [last] && after.replies == r.replies
    ensures forall s :: s in after.started <==> s in r.started || s == last
    ensures forall x, k :: IsStarted(after, x, k) <==> IsStarted(r, x, k) || (x == last.id && k == last.key)
    ensures forall x :: IsReplied(after, x) == IsReplied(r, x)
  {
    assert last in after.started;
  }

  lemma {:induction false} FinishStaysAccounted(r: Relay, id: nat, attempt: Attempt)
    requires Accounted(r)
    ensures Accounted(Finished(r, id, attempt))
  {
    if id in r.running {
      var after := Finished(r, id, attempt);
      var reply := ReplyTo(id, r.running[id], attempt);
      RepliedSnoc(r, after, reply);
      RepliesStayDistinct(r, id, reply);
      FinishRepliesTo(r, id, attempt);
      FinishCounts(r, id, attempt);
      assert IsStarted(r, id, r.running[id]);
    }
  }

  lemma {:induction false} FinishCounts(r: Relay, id: nat, attempt: Attempt)
    requires Accounted(r) && id in r.running
    ensures var after := Finished(r, id, attempt);
            && |after.started| == |after.replies| + |after.running|
            && after.joins == |Filter((p: Reply) => p.body.Answer? && p.delivered, after.replies)|
  {
    var after := Finished(r, id, attempt);
    assert after.replies[..|after.replies| - 1] == r.replies;
  }

  lemma {:induction false} FinishRepliesTo(r: Relay, id: nat, attempt: Attempt)
    requires Accounted(r) && id in r.running
    ensures var after := Finished(r, id, attempt);
            forall s | s in after.started :: (s.id in after.running) != IsReplied(after, s.id)
  {
    var after := Finished(r, id, attempt);
    RepliedSnoc(r, after, ReplyTo(id, r.running[id], attempt));
    forall s | s in after.started ensures (s.id in after.running) != IsReplied(after, s.id) {
      assert (s.id in r.running) != IsReplied(r, s.id);
    }
  }

  lemma {:induction false} RepliedSnoc(r: Relay, after: Relay, reply: Reply)
    requires after.replies == r.replies + [reply] && after.started == r.started
    ensures forall p :: p in after.replies <==> p in r.replies || p == reply
    ensures forall x :: IsReplied(after, x) <==> IsReplied(r, x) || x == reply.offer
    ensures forall x, k :: IsStarted(after, x, k) == IsStarted(r, x, k)
  {
    assert forall p :: p in after.replies <==> p in r.replies || p == reply;
  }

  lemma {:induction false} RepliesStayDistinct(r: Relay, id: nat, reply: Reply)
    requires Accounted(r) && id in r.running && reply.offer == id
    ensures forall a, b | 0 <= a < b < |r.replies + [reply]| ::
              (r.replies + [reply])[a].offer != (r.replies + [reply])[b].offer
  {
    assert IsStarted(r, id, r.running[id]);
    assert !IsReplied(r, id);
    assert forall a | 0 <= a < |r.replies| :: r.replies[a] in r.replies;
  }

  /** What a client is told of an attempt: the answer, or that the session is gone, or that the connection could not be requested. */
  ghost predicate Tells(p: Reply, a: Attempt) {
    && p.delivered == a.delivered
    && (a.statusOk && a.signalOk && a.answer.Some? ==> p.body == Answer(a.answer.value))
    && (!a.statusOk ==> p.body == ConnectFailure(SERVER_NOT_FOUND))
    && (a.statusOk && !(a.signalOk && a.answer.Some?) ==> p.body == ConnectFailure(CONNECT_REQUEST))
  }

  /** Event `j` is the end of the relay call that reply `p` is about, and the reply tells how it went. */
  ghost predicate TellsOf(trace: seq<TimedEvent>, j: nat, p: Reply) {
    j < |trace| && trace[j].event.Finish? && trace[j].event.offer == p.offer && Tells(p, trace[j].event.attempt)
  }

  /** Every reply tells how the relay call of its offer went. */
  lemma {:induction false} RepliesTellAttempts(cfg: Config, trace: seq<TimedEvent>, p: Reply) returns (j: nat)
    requires p in Run(cfg, INITIAL, trace).replies
    ensures TellsOf(trace, j, p)
  {
    var n := |trace| - 1;
    var r := Run(cfg, INITIAL, trace[..n]);
    if p in r.replies {
      j := RepliesTellAttempts(cfg, trace[..n], p);
    } else {
      j := n;
      StepReplies(cfg, r, trace[n], p);
    }
  }

  lemma {:induction false} StepReplies(cfg: Config, r: Relay, e: TimedEvent, p: Reply)
    requires p in Step(cfg, r, e).replies && p !in r.replies
    ensures e.event.Finish? && e.event.offer == p.offer && Tells(p, e.event.attempt)
  {}

  // ----- nothing runs or starts once `close` has returned -----

  /** What `close` waits for after it has set `closed`. */
  predicate Drained(r: Relay) { r.closed && r.running == map[] }

  lemma {:induction false} NothingStartsAfterClose(cfg: Config, r: Relay, trace: seq<TimedEvent>)
    requires r.closed
    ensures var after := Run(cfg, r, trace);
            after.closed && after.started == r.started && after.running.Keys <= r.running.Keys
    ensures var after := Run(cfg, r, trace);
            Drained(r) ==> Drained(after) && after.replies == r.replies && after.joins == r.joins
  {
    if trace != [] {
      NothingStartsAfterClose(cfg, r, trace[..|trace| - 1]);
    }
  }

  // ----- when an offer is relayed -----

  /** Timers fire on time: a waiting offer's timer runs at an instant it is armed for,
      and no event comes after an instant that some waiting offer's timer was armed for. */
  ghost predicate OnTime(r: Relay, e: TimedEvent) {
    && (forall key | key in r.pending :: e.now <= Due(r.pending[key]))
    && (e.event.TimerFires? && Waits(r, e.event.key, e.event.offer) ==>
          e.now in {r.pending[e.event.key].quietDue, r.pending[e.event.key].maxDue})
  }

  ghost predicate Punctual(cfg: Config, trace: seq<TimedEvent>) {
    forall j: nat | j < |trace| :: OnTime(Run(cfg, INITIAL, trace[..j]), trace[j])
  }

  /** When offer `i` is due, from the trace alone. */
  ghost function DueTime(cfg: Config, trace: seq<TimedEvent>, i: nat): Time
    requires IsOffer(trace, i)
  {
    Min(trace[i].now + cfg.max, LastHeard(trace, i) + cfg.quiet)
  }

  lemma RelayedWhenDue(cfg: Config, trace: seq<TimedEvent>, i: nat, j: nat)
    requires Punctual(cfg, trace) && RelayedAt(trace, i, j)
    ensures trace[j].now == DueTime(cfg, trace[..j], i)
    ensures trace[j].now <= trace[i].now + cfg.max
  {
    var before := trace[..j];
    RelayMatchesTrace(cfg, before);
    var key := before[i].event.key;
    assert OnTime(Run(cfg, INITIAL, before), trace[j]);
    assert Waits(Run(cfg, INITIAL, before), key, i);
    assert PendingIs(cfg, before, key, Run(cfg, INITIAL, before).pending[key]);
  }

  lemma {:induction false} LastHeardWithoutCandidates(trace: seq<TimedEvent>, i: nat)
    requires IsOffer(trace, i) && forall k | i < k < |trace| :: !IsCandidateFor(trace[k].event, trace[i].event.key)
    ensures LastHeard(trace, i) == trace[i].now
  {
    if |trace| > i + 1 {
      var front := trace[..|trace| - 1];
      assert front[..i] == trace[..i];
      LastHeardWithoutCandidates(front, i);
    }
  }

  /** With the shipped waits and timers on time, an offer is relayed no later than three seconds after it came, and after
      exactly half a second if it trickles nothing. */
  lemma ShippedWaits(trace: seq<TimedEvent>, i: nat, j: nat)
    requires Punctual(DEFAULTS, trace) && RelayedAt(trace, i, j)
    ensures trace[j].now <= trace[i].now + 3 * SECOND
    ensures (forall k | i < k < j :: !IsCandidateFor(trace[k].event, trace[i].event.key)) ==>
              trace[j].now == trace[i].now + 500_000_000
  {
    RelayedWhenDue(DEFAULTS, trace, i, j);
    if forall k | i < k < j :: !IsCandidateFor(trace[k].event, trace[i].event.key) {
      LastHeardWithoutCandidates(trace[..j], i);
    }
  }

  /** Until event `j`, offer `i` is not replaced, abandoned or closed out. */
  ghost predicate LeftAlone(trace: seq<TimedEvent>, i: nat, j: nat)
    requires j < |trace| && IsOffer(trace, i)
  {
    forall k | i < k < j :: Ends(trace[k].event, trace[i].event.key, i) ==> trace[k].event == TimerFires(trace[i].event.key, i)
  }

  ghost predicate RelayedOnTime(cfg: Config, trace: seq<TimedEvent>, i: nat, k: nat) {
    RelayedAt(trace, i, k) && trace[k].now == DueTime(cfg, trace[..k], i)
  }

  /** With timers on time, an offer that is left alone for longer than the longest wait
      has been relayed, at exactly the earlier of its two due times. */
  lemma {:induction false} RelayedOnceLeftAlone(cfg: Config, trace: seq<TimedEvent>, i: nat, j: nat)
    requires Punctual(cfg, trace)
    requires i < j < |trace| && IsOffer(trace, i) && LeftAlone(trace, i, j)
    requires trace[j].now > trace[i].now + cfg.max
    ensures exists k: nat | i < k < j :: RelayedOnTime(cfg, trace, i, k)
  {
    assert trace[..j][..i] == trace[..i];
    NotLivePastDue(cfg, trace, i, j);
    var before := trace[..j];
    var k := FirstEnd(before, i);
    assert forall m | i < m <= k :: before[m] == trace[m];
    FirstEndRelays(trace, i, j, k);
    RelayedWhenDue(cfg, trace, i, k);
    assert RelayedOnTime(cfg, trace, i, k);
  }

  lemma NotLivePastDue(cfg: Config, trace: seq<TimedEvent>, i: nat, j: nat)
    requires Punctual(cfg, trace)
    requires i < j < |trace|
    requires trace[j].now > trace[i].now + cfg.max
    ensures !Live(trace[..j], i)
  {
    var before := trace[..j];
    var r := Run(cfg, INITIAL, before);
    RelayMatchesTrace(cfg, before);
    assert OnTime(r, trace[j]);
    assert forall key | key in r.pending && PendingIs(cfg, before, key, r.pending[key]) && r.pending[key].id == i ::
        trace[j].now <= trace[i].now + cfg.max;
  }

  lemma FirstEndRelays(trace: seq<TimedEvent>, i: nat, j: nat, k: nat)
    requires i < k < j < |trace| && IsOffer(trace, i) && LeftAlone(trace, i, j)
    requires Ends(trace[k].event, trace[i].event.key, i)
    requires forall m | i < m < k :: !Ends(trace[m].event, trace[i].event.key, i)
    ensures RelayedAt(trace, i, k)
  {
    assert trace[..k][..i] == trace[..i];
  }

  ghost function FirstEnd(trace: seq<TimedEvent>, i: nat): (k: nat)
    requires IsOffer(trace, i) && !Live(trace, i)
    ensures i < k < |trace|
    ensures Ends(trace[k].event, trace[i].event.key, i)
    ensures forall m | i < m < k :: !Ends(trace[m].event, trace[i].event.key, i)
  {
    var front := trace[..|trace| - 1];
    assert forall m: nat | m < |front| :: front[m] == trace[m];
    if |trace| - 1 > i && !Live(front, i) then
      assert front[..i] == trace[..i];
      FirstEnd(front, i)
    else
      assert |trace| - 1 > i ==> front[..i] == trace[..i];
      |trace| - 1
  }
}
