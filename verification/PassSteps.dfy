/** What a pass adds to the trace besides expiring friends, read from the answers it is given: whom it counts and records as new, whom
    it declines, and when it lists friends for the count. */
module PassSteps {
  import opened Common
  import opened BulkAccept
  import opened RunState
  import opened FriendPass
  import opened PassAnswers
  import opened FriendLedger
  import opened PassTrace
  import opened PassSafety
  import opened ExpiryScan

  // ----- the accepting half -----

  /** A step of the accepting half, without its time: one more friend, the sighting that starts their clock, or a request that is declined. */
  datatype Deed = Gains(x: Xuid) | Records(x: Xuid) | Declines(x: Xuid)

  function DeedOf(op: Op): seq<Deed> {
    match op
    case Gained(x, _) => [Gains(x)]
    case Saw(x, _, _, _) => [Records(x)]
    case Declined(x, _) => [Declines(x)]
    case _ => []
  }

  /** What the trace adds from step `from` on, in order. */
  function Deeds(trace: seq<Op>, from: nat): seq<Deed> {
    if |trace| <= from then [] else
      var n := |trace| - 1;
      Deeds(trace[..n], from) + DeedOf(trace[n])
  }

  /** What the bulk answers call for: each player that they updated is gained and their clock started. */
  function BulkDeeds(accepted: seq<Xuid>): seq<Deed> {
    if accepted == [] then [] else
      var n := |accepted| - 1;
      BulkDeeds(accepted[..n]) + [Gains(accepted[n]), Records(accepted[n])]
  }

  /** What one answer to a single add calls for. */
  function SingleDeed(x: Xuid, answer: AddAnswer): seq<Deed> {
    match answer case Added => [Gains(x), Records(x)] case Restricted => [Declines(x)] case _ => []
  }

  function SingleDeeds(env: Env, singles: seq<Xuid>): seq<Deed> {
    if singles == [] then [] else
      var n := |singles| - 1;
      SingleDeeds(env, singles[..n]) + SingleDeed(singles[n], env.adds(n, singles[n]))
  }

  lemma {:induction false} DeedsJoin(clock: Clock, trace: seq<Op>, joins: seq<Join>, from: nat)
    requires from <= |trace|
    ensures Deeds(AfterJoins(clock, trace, joins), from) == Deeds(trace, from)
  {
    if joins != [] {
      var front := AfterJoins(clock, trace, joins[..|joins| - 1]);
      var last := JoinedAt(clock(|front|), joins[|joins| - 1], true);
      DeedsJoin(clock, trace, joins[..|joins| - 1], from);
      assert (front + [last])[..|front|] == front;
      NothingMore(Deeds(front, from));
    }
  }

  lemma {:induction false} DeedsOneMore(sv: Services, clock: Clock, trace: seq<Op>, op: Op, from: nat)
    requires from <= |trace|
    ensures Deeds(After(sv, clock, trace, op), from) == Deeds(trace, from) + DeedOf(op)
  {
    assert (trace + [op])[..|trace|] == trace;
    DeedsJoin(clock, trace + [op], sv.joins(|trace + [op]|), from);
  }

  lemma {:induction false} DeedsOfSight(sv: Services, clock: Clock, trace: seq<Op>, x: Xuid, from: nat)
    requires from <= |trace|
    ensures Deeds(AfterSight(sv, clock, trace, x), from) == Deeds(trace, from) + [Records(x)]
  {
    DeedsOneMore(sv, clock, trace, SawAt(clock(|trace|), x, sv.obliges(|trace|)), from);
  }

  lemma {:induction false} DeedsOfAdded(sv: Services, clock: Clock, trace: seq<Op>, x: Xuid, from: nat)
    requires from <= |trace|
    ensures Deeds(AfterAdded(sv, clock, trace, x), from) == Deeds(trace, from) + [Gains(x), Records(x)]
  {
    var gain := Gained(x, clock(|trace|).time);
    var gained := After(sv, clock, trace, gain);
    DeedsOneMore(sv, clock, trace, gain, from);
    DeedsOfSight(sv, clock, gained, x, from);
    BothDeeds(Deeds(trace, from), Deeds(gained, from), Deeds(AfterAdded(sv, clock, trace, x), from), x);
  }

  lemma BothDeeds(before: seq<Deed>, gained: seq<Deed>, after: seq<Deed>, x: Xuid)
    requires gained == before + [Gains(x)] && after == gained + [Records(x)]
    ensures after == before + [Gains(x), Records(x)]
  {}

  lemma {:induction false} DeedsOfBulk(sv: Services, clock: Clock, trace: seq<Op>, accepted: seq<Xuid>, from: nat)
    requires from <= |trace|
    ensures Deeds(AfterBulk(sv, clock, trace, accepted), from) == Deeds(trace, from) + BulkDeeds(accepted)
  {
    if accepted == [] {
      NothingMore(Deeds(trace, from));
    } else {
      var front, x := accepted[..|accepted| - 1], accepted[|accepted| - 1];
      DeedsOfBulk(sv, clock, trace, front, from);
      DeedsOfAdded(sv, clock, AfterBulk(sv, clock, trace, front), x, from);
      Associative(Deeds(trace, from), BulkDeeds(front), [Gains(x), Records(x)]);
    }
  }

  lemma Associative(a: seq<Deed>, b: seq<Deed>, c: seq<Deed>)
    ensures a + b + c == a + (b + c)
  {}

  lemma NothingMore(a: seq<Deed>)
    ensures a + [] == a == [] + a
  {}

  lemma {:induction false} DeedsOfSingle(sv: Services, clock: Clock, trace: seq<Op>, x: Xuid, answer: AddAnswer, from: nat)
    requires from <= |trace|
    ensures Deeds(AfterSingle(sv, clock, trace, x, answer), from) == Deeds(trace, from) + SingleDeed(x, answer)
  {
    match answer
    case Added => DeedsOfAdded(sv, clock, trace, x, from);
    case Restricted => DeedsOneMore(sv, clock, trace, Declined(x, clock(|trace|).time), from);
    case _ => NothingMore(Deeds(trace, from));
  }

  lemma {:induction false} DeedsOfSingles(sv: Services, clock: Clock, trace: seq<Op>, singles: seq<Xuid>, from: nat)
    requires from <= |trace|
    ensures Deeds(AfterSingles(sv, clock, trace, singles), from) == Deeds(trace, from) + SingleDeeds(sv.env, singles)
  {
    if singles == [] {
      NothingMore(Deeds(trace, from));
    } else {
      var n := |singles| - 1;
      var x, answer := singles[n], sv.env.adds(n, singles[n]);
      DeedsOfSingles(sv, clock, trace, singles[..n], from);
      DeedsOfSingle(sv, clock, AfterSingles(sv, clock, trace, singles[..n]), x, answer, from);
      Associative(Deeds(trace, from), SingleDeeds(sv.env, singles[..n]), SingleDeed(x, answer));
    }
  }

  /** What the accepting half adds: nothing if the pass may not add, and otherwise what the bulk answers and then the answers to the single
      adds call for, in order. */
  lemma AcceptingDoes(sv: Services, clock: Clock, trace: seq<Op>, opts: Options)
    ensures var w := AcceptHalfWork(sv, opts);
            Deeds(AcceptHalf(sv, clock, trace, opts), |trace|) ==
            if !opts.adds then [] else BulkDeeds(BulkAccepted(sv.env, w.requests, opts.skip)) + SingleDeeds(sv.env, w.singles)
  {
    if opts.adds {
      var a, w := AcceptPending(sv.env.server, sv.env.pending, opts.skip), AcceptHalfWork(sv, opts);
      RequestsAreTheAccepts(sv.env, opts.skip, opts.refusedBefore);
      if sv.env.pending.Listed? {
        AcceptReadsAnswers(sv.env.server, sv.env.pending.players, opts.skip);
      }
      DeedsOfBulk(sv, clock, trace, a.accepted, |trace|);
      DeedsOfSingles(sv, clock, AfterBulk(sv, clock, trace, a.accepted), w.singles, |trace|);
      NothingMore(BulkDeeds(a.accepted));
    }
  }

  // ----- listing friends for the count -----

  /** The count wants a list at `now`: none failed within five minutes, and there is no count yet or, without expiry, it is half an hour old. */
  predicate Wanted(trace: seq<Op>, expiryOn: bool, now: Time) {
    && (LastFailed(trace).Some? ==> now >= LastFailed(trace).value + 5 * MINUTE)
    && (LastCounted(trace).None? || (!expiryOn && now - LastCounted(trace).value > 30 * MINUTE))
  }

  /** The step that asking for the list makes. */
  function ListStep(sv: Services, at: Time): Op {
    match sv.list case People(people) => Counted(people, at) case Unlisted(_) => ListFailed(at)
  }

  /** A pass that is not to expire friends accepts, reads the clock at step `r`, and lists friends then exactly if the count wants it. */
  lemma CountsWhenWanted(st: Settings, sv: Services, opts: Options, before: seq<Op>, after: seq<Op>) returns (r: nat, next: nat)
    requires IsPass(st, sv, opts, before, after) && !opts.expires && AcceptHalfWork(sv, opts).result.readRetryAfter <= 0
    ensures |before| <= r < |after| && next == r + 1 && OnlyAccepts(before, after[..r]) && after[r] == Read(st.clock(r).time)
    ensures if Wanted(after[..r], st.expiryOn, st.clock(r).time) then
              next < |after| && after[next] == ListStep(sv, st.clock(next).time) && OnlyJoins(after, next + 1)
            else next == |after|
    ensures PassResult(st, sv, opts, before).readRetryAfter ==
            if Wanted(after[..r], st.expiryOn, st.clock(r).time) && sv.list.Unlisted? then Wait(sv.list.fault) else 0
  {
    var accepted := AcceptHalf(sv, st.clock, before, opts);
    AcceptsHalf(sv, st.clock, before, opts);
    NeedsListIff(accepted, st.expiryOn, st.clock(|accepted|).time);
    var read := ReadNow(st.clock, accepted);
    StepShape(sv, st.clock, read, ListStep(sv, st.clock(|read|).time));
    if sv.list.Unlisted? {
      WaitIs(sv.list.fault);
    }
    r, next := |accepted|, |read|;
    assert after[..r] == accepted;
  }

  /** An expiring pass that cannot get the list does nothing but accept, and comes back after the delay that the failure asks for. */
  lemma UnlistedExpiry(st: Settings, sv: Services, opts: Options, before: seq<Op>, after: seq<Op>)
    requires IsPass(st, sv, opts, before, after) && opts.expires && AcceptHalfWork(sv, opts).result.readRetryAfter <= 0
    ensures sv.list.Unlisted? ==> OnlyAccepts(before, after)
    ensures PassResult(st, sv, opts, before).readRetryAfter == if sv.list.Unlisted? then Wait(sv.list.fault) else 0
  {
    AcceptsHalf(sv, st.clock, before, opts);
    if sv.list.Unlisted? {
      WaitIs(sv.list.fault);
    }
  }

  /** A pass that could not read the pending list and is asked for a delay does nothing more. */
  lemma UnreadPass(st: Settings, sv: Services, opts: Options, before: seq<Op>, after: seq<Op>)
    requires IsPass(st, sv, opts, before, after) && opts.adds && sv.env.pending.Unread?
    requires IsRead(sv.env.pending.fault) && Wait(sv.env.pending.fault) > 0
    ensures after == before && PassResult(st, sv, opts, before).readRetryAfter == Wait(sv.env.pending.fault)
  {
    PassReadsAnswers(sv.env, opts.skip, opts.refusedBefore);
    RequestsAreTheAccepts(sv.env, opts.skip, opts.refusedBefore);
  }
}
