/** What an expiring pass does about each friend, read from its trace alone: in which order it looks at them, what follows each
    look, and where it stops. From there on: when a friend's clock starts, and when they are asked to be removed. */
module ExpiryScan {
  import opened Common
  import opened BulkAccept
  import opened RunState
  import opened FriendPass
  import opened PassAnswers
  import opened FriendLedger
  import opened PassTrace
  import opened PassSafety

  // ----- the syncer's own steps, joins aside -----

  /** Step `m` is the syncer's own next step after step `l`. */
  ghost predicate Next(trace: seq<Op>, l: nat, m: nat) {
    l < m < |trace| && !JoinsDuring(trace[m]) && forall i | l < i < m :: JoinsDuring(trace[i])
  }

  /** Nothing but joins from step `from` on. */
  ghost predicate OnlyJoins(trace: seq<Op>, from: nat) { forall i | from <= i < |trace| :: JoinsDuring(trace[i]) }

  /** The players looked at from step `from` on, in order. */
  function Looks(trace: seq<Op>, from: nat): seq<Xuid> {
    if |trace| <= from then [] else
      var n := |trace| - 1;
      Looks(trace[..n], from) + if trace[n].Looked? then [trace[n].x] else []
  }

  // ----- what has to follow a look -----

  /** How long a friend may stay unseen: so many days of twenty-four hours, fifteen if none are configured. */
  function Limit(days: int): Time { (if days <= 0 then 15 else days) * 86_400_000_000_000 }

  /** The pass goes on to the next friend, or to prune. */
  ghost predicate LeavesAlone(people: seq<Xuid>, trace: seq<Op>, l: nat) {
    forall m: nat | Next(trace, l, m) :: trace[m].Looked? || (trace[m].Cleared? && trace[m].x !in people)
  }

  /** Their clock starts at the second of that reading, if the file obliges. */
  ghost predicate StartsClock(clock: Clock, sv: Services, trace: seq<Op>, l: nat, x: Xuid) {
    exists m: nat :: Next(trace, l, m) && trace[m] == Saw(x, clock(m).time, clock(m).second, sv.obliges(m))
  }

  /** They are asked to be removed, and once removed their entry is cleared. */
  ghost predicate AsksRemoval(clock: Clock, sv: Services, trace: seq<Op>, l: nat, x: Xuid) {
    exists m: nat :: Next(trace, l, m) && RemovedAt(clock, sv, trace, m, x)
  }

  ghost predicate RemovedAt(clock: Clock, sv: Services, trace: seq<Op>, m: nat, x: Xuid)
    requires m < |trace|
  {
    && trace[m] == Removed(x, clock(m).time, sv.removals(m).None?)
    && (trace[m].ok ==> exists k: nat :: Next(trace, m, k) && trace[k] == Cleared(x, clock(k).time, sv.obliges(k)))
  }

  /** What the look at step `l` calls for: nothing if the file cannot be read, a clock for a friend without an entry, removal of
      one whose entry is before the window, and nothing for anybody else. */
  ghost predicate Answers(st: Settings, sv: Services, people: seq<Xuid>, trace: seq<Op>, l: nat)
    requires l < |trace| && trace[l].Looked?
  {
    var x, at, h := trace[l].x, trace[l].at, Histories(st.loaded, trace[..l]);
    if !trace[l].ok then LeavesAlone(people, trace, l)
    else if x !in h then StartsClock(st.clock, sv, trace, l, x)
    else if FromUnix(h[x]) < at - Limit(st.days) then AsksRemoval(st.clock, sv, trace, l, x)
    else LeavesAlone(people, trace, l)
  }

  /** Step `m` of a scan that began at step `from` is called for: a look, or what follows one. */
  ghost predicate CalledFor(sv: Services, clock: Clock, trace: seq<Op>, from: nat, m: nat)
    requires m < |trace|
  {
    match trace[m]
    case Looked(_, at, ok) => ok == sv.obliges(m) && at == clock(m).time
    case Joined(_, _, _, _, during) => during
    case Saw(x, _, _, _) => exists l: nat | from <= l < m :: Next(trace, l, m) && trace[l].Looked? && trace[l].x == x
    case Removed(x, _, _) => exists l: nat | from <= l < m :: Next(trace, l, m) && trace[l].Looked? && trace[l].x == x
    case Cleared(x, _, _) => exists r: nat | from <= r < m :: Next(trace, r, m) && trace[r].Removed? && trace[r].x == x && trace[r].ok
    case _ => false
  }

  /** From step `from` on the trace is a scan that has looked at `looked`, in order. */
  ghost predicate Scanned(st: Settings, sv: Services, people: seq<Xuid>, trace: seq<Op>, from: nat, looked: seq<Xuid>) {
    && from <= |trace| && Looks(trace, from) == looked
    && (forall l: nat | from <= l < |trace| && trace[l].Looked? :: Answers(st, sv, people, trace, l))
    && (forall m: nat | from <= m < |trace| :: CalledFor(sv, st.clock, trace, from, m))
  }

  /** Step `m` is a removal that asks for a delay. */
  ghost predicate Delays(sv: Services, trace: seq<Op>, m: nat) {
    m < |trace| && trace[m].Removed? && !trace[m].ok && sv.removals(m).Some? && Wait(sv.removals(m).value) > 0
  }

  // ----- one friend -----

  /** How the trace continues for one friend: the look, at most one step about them, and one more after a removal. */
  ghost predicate Continues(trace: seq<Op>, more: seq<Op>, m: nat, k: nat) {
    && trace < more && |trace| <= m <= k < |more|
    && forall i | |trace| < i < |more| && i != m && i != k :: JoinsDuring(more[i])
  }

  /** The trace continues with a look at `x` and with what that look calls for. */
  ghost predicate Deals(st: Settings, sv: Services, trace: seq<Op>, more: seq<Op>, x: Xuid, m: nat, k: nat) {
    var h, at := Histories(st.loaded, trace), st.clock(|trace|).time;
    && Continues(trace, more, m, k)
    && more[|trace|] == Looked(x, at, sv.obliges(|trace|))
    && if !sv.obliges(|trace|) || (x in h && !(FromUnix(h[x]) < at - Limit(st.days))) then m == k == |trace|
       else if x !in h then |trace| < m == k && more[m] == Saw(x, st.clock(m).time, st.clock(m).second, sv.obliges(m))
       else && |trace| < m && more[m] == Removed(x, st.clock(m).time, sv.removals(m).None?)
            && (if more[m].ok then m < k && more[k] == Cleared(x, st.clock(k).time, sv.obliges(k)) else k == m)
  }

  lemma StepShape(sv: Services, clock: Clock, trace: seq<Op>, op: Op)
    ensures var after := After(sv, clock, trace, op); trace + [op] <= after && OnlyJoins(after, |trace| + 1)
  {
    JoinsExtend(clock, trace + [op], sv.joins(|trace + [op]|));
  }

  /** What `ExpireScan` adds to the trace. */
  lemma ExpireShape(st: Settings, sv: Services, trace: seq<Op>, x: Xuid) returns (m: nat, k: nat)
    ensures Deals(st, sv, trace, ExpireScan(sv, st.clock, trace, Histories(st.loaded, trace), x, st.days).trace, x, m, k)
  {
    var h, look := Histories(st.loaded, trace), LookAt(sv, st.clock, trace, x);
    var looked := After(sv, st.clock, trace, look);
    StepShape(sv, st.clock, trace, look);
    m, k := |trace|, |trace|;
    if look.ok && x !in h {
      m, k := |looked|, |looked|;
      StepShape(sv, st.clock, looked, SawAt(st.clock(m), x, sv.obliges(m)));
    } else if look.ok && Stale(h, x, look.at, st.days) {
      m, k := |looked|, |looked|;
      var remove := Removed(x, st.clock(m).time, sv.removals(m).None?);
      StepShape(sv, st.clock, looked, remove);
      if remove.ok {
        var removed := After(sv, st.clock, looked, remove);
        k := |removed|;
        StepShape(sv, st.clock, removed, Cleared(x, st.clock(k).time, sv.obliges(k)));
      }
    }
  }

  // ----- what was right stays right as the trace grows -----

  lemma NextLasts(trace: seq<Op>, more: seq<Op>, l: nat, m: nat)
    requires trace <= more && m < |trace|
    ensures Next(more, l, m) <==> Next(trace, l, m)
  {}

  /** The first of the syncer's own steps beyond `trace` goes on to the next friend, or prunes. */
  ghost predicate GoesOn(people: seq<Xuid>, trace: seq<Op>, more: seq<Op>) {
    forall m: nat | |trace| <= m < |more| && !JoinsDuring(more[m]) && (forall i | |trace| <= i < m :: JoinsDuring(more[i])) ::
      more[m].Looked? || (more[m].Cleared? && more[m].x !in people)
  }

  lemma AnswersLast(st: Settings, sv: Services, people: seq<Xuid>, trace: seq<Op>, more: seq<Op>, l: nat)
    requires trace <= more && l < |trace| && trace[l].Looked? && Answers(st, sv, people, trace, l) && GoesOn(people, trace, more)
    ensures Answers(st, sv, people, more, l)
  {
    assert more[..l] == trace[..l];
    var x := trace[l].x;
    if m: nat :| Next(trace, l, m) && trace[m] == Saw(x, st.clock(m).time, st.clock(m).second, sv.obliges(m)) {
      NextLasts(trace, more, l, m);
    }
    if m: nat :| Next(trace, l, m) && RemovedAt(st.clock, sv, trace, m, x) {
      NextLasts(trace, more, l, m);
      if k: nat :| Next(trace, m, k) && trace[k] == Cleared(x, st.clock(k).time, sv.obliges(k)) {
        NextLasts(trace, more, m, k);
      }
      assert RemovedAt(st.clock, sv, more, m, x);
    }
    if LeavesAlone(people, trace, l) {
      forall m: nat | Next(more, l, m) ensures more[m].Looked? || (more[m].Cleared? && more[m].x !in people) {
        if m < |trace| {
          NextLasts(trace, more, l, m);
        }
      }
    }
  }

  lemma CalledForLasts(sv: Services, clock: Clock, trace: seq<Op>, more: seq<Op>, from: nat, m: nat)
    requires trace <= more && m < |trace| && CalledFor(sv, clock, trace, from, m)
    ensures CalledFor(sv, clock, more, from, m)
  {
    if l: nat :| from <= l < m && Next(trace, l, m) {
      NextLasts(trace, more, l, m);
    }
  }

  lemma {:induction false} LooksLast(trace: seq<Op>, more: seq<Op>, from: nat)
    requires trace <= more && from <= |trace| && forall i | |trace| <= i < |more| :: !more[i].Looked?
    ensures Looks(more, from) == Looks(trace, from)
    decreases |more|
  {
    if |more| > |trace| {
      LooksLast(trace, more[..|more| - 1], from);
    } else {
      assert more == trace;
    }
  }

  /** Dealing with one more friend as their look calls for. */
  lemma OneMoreFriend(st: Settings, sv: Services, people: seq<Xuid>, trace: seq<Op>, more: seq<Op>, from: nat, looked: seq<Xuid>,
                      x: Xuid, m: nat, k: nat)
    requires Scanned(st, sv, people, trace, from, looked)
    requires Deals(st, sv, trace, more, x, m, k)
    ensures Scanned(st, sv, people, more, from, looked + [x])
  {
    var n := |trace|;
    assert more[..n] == trace;
    var first := trace + [more[n]];
    assert first <= more && first[..n] == trace;
    LooksLast(first, more, from);
    FriendAnswered(st, sv, people, trace, more, x, m, k);
    forall l: nat | from <= l < |more| && more[l].Looked? ensures Answers(st, sv, people, more, l) {
      if l < n {
        AnswersLast(st, sv, people, trace, more, l);
      }
    }
    forall i: nat | from <= i < |more| ensures CalledFor(sv, st.clock, more, from, i) {
      if i < n {
        CalledForLasts(sv, st.clock, trace, more, from, i);
      } else {
        FriendCalledFor(st, sv, trace, more, from, x, m, k, i);
      }
    }
  }

  lemma FriendCalledFor(st: Settings, sv: Services, trace: seq<Op>, more: seq<Op>, from: nat, x: Xuid, m: nat, k: nat, i: nat)
    requires Deals(st, sv, trace, more, x, m, k) && from <= |trace| <= i < |more|
    ensures CalledFor(sv, st.clock, more, from, i)
  {
    if |trace| < m {
      assert Next(more, |trace|, m);
    }
    if m < k {
      assert Next(more, m, k);
    }
  }

  lemma FriendAnswered(st: Settings, sv: Services, people: seq<Xuid>, trace: seq<Op>, more: seq<Op>, x: Xuid, m: nat, k: nat)
    requires Deals(st, sv, trace, more, x, m, k)
    ensures Answers(st, sv, people, more, |trace|)
  {
    var n := |trace|;
    assert more[..n] == trace;
    if n < m {
      assert Next(more, n, m);
      if m < k {
        assert Next(more, m, k);
      }
    }
  }

  // ----- the scan -----

  /** The friends that a scan is to look at. */
  function Players(people: seq<Xuid>): seq<Xuid> { Filter((x: Xuid) => !IsGuest(x), people) }

  /** The delay that the scan ends with is that of its last removal, after which it did nothing. */
  ghost predicate EndsWith(sv: Services, trace: seq<Op>, from: nat, delay: Time) {
    if delay > 0 then exists m: nat | from <= m :: Delays(sv, trace, m) && OnlyJoins(trace, m + 1)
    else forall m: nat | from <= m :: !Delays(sv, trace, m)
  }

  lemma DelaysLast(sv: Services, trace: seq<Op>, more: seq<Op>, m: nat)
    requires trace <= more && m < |trace|
    ensures Delays(sv, more, m) <==> Delays(sv, trace, m)
  {}

  lemma {:induction false} WaitIs(f: Fault)
    ensures RetryDelay(f) == Wait(f)
  {}

  lemma EndsOneMore(sv: Services, trace: seq<Op>, more: seq<Op>, from: nat, m: nat, k: nat, delay: Time)
    requires from <= |trace| && EndsWith(sv, trace, from, 0) && Continues(trace, more, m, k)
    requires more[|trace|].Looked? && (k == m || more[k].Cleared?)
    requires delay > 0 <==> Delays(sv, more, m)
    requires delay > 0 ==> k == m
    ensures EndsWith(sv, more, from, delay)
  {
    forall i: nat | from <= i && Delays(sv, more, i) ensures i == m {
      if i < |trace| {
        DelaysLast(sv, trace, more, i);
      }
    }
    if delay > 0 {
      assert OnlyJoins(more, m + 1);
    }
  }

  /** One more friend ends the scan exactly if their removal asks for a delay. */
  lemma ExpireEnds(st: Settings, sv: Services, trace: seq<Op>, from: nat, x: Xuid)
    requires from <= |trace| && EndsWith(sv, trace, from, 0)
    ensures var scan := ExpireScan(sv, st.clock, trace, Histories(st.loaded, trace), x, st.days);
            trace < scan.trace && EndsWith(sv, scan.trace, from, scan.removeRetryAfter)
  {
    var scan := ExpireScan(sv, st.clock, trace, Histories(st.loaded, trace), x, st.days);
    var m, k := ExpireShape(st, sv, trace, x);
    ExpireDelay(st, sv, trace, x, m, k);
    EndsOneMore(sv, trace, scan.trace, from, m, k, scan.removeRetryAfter);
  }

  lemma ExpireDelay(st: Settings, sv: Services, trace: seq<Op>, x: Xuid, m: nat, k: nat)
    requires var scan := ExpireScan(sv, st.clock, trace, Histories(st.loaded, trace), x, st.days);
             Deals(st, sv, trace, scan.trace, x, m, k)
    ensures var scan := ExpireScan(sv, st.clock, trace, Histories(st.loaded, trace), x, st.days);
            && (scan.removeRetryAfter > 0 <==> Delays(sv, scan.trace, m))
            && (Delays(sv, scan.trace, m) ==> k == m && scan.removeRetryAfter == Wait(sv.removals(m).value))
  {
    var look := LookAt(sv, st.clock, trace, x);
    var looked := After(sv, st.clock, trace, look);
    var scan := ExpireScan(sv, st.clock, trace, Histories(st.loaded, trace), x, st.days);
    StepShape(sv, st.clock, trace, look);
    if look.ok && Stale(Histories(st.loaded, trace), x, look.at, st.days) {
      var n := |looked|;
      StepShape(sv, st.clock, looked, Removed(x, st.clock(n).time, sv.removals(n).None?));
      if sv.removals(n).Some? {
        WaitIs(sv.removals(n).value);
      } else {
        var removed := After(sv, st.clock, looked, Removed(x, st.clock(n).time, true));
        StepShape(sv, st.clock, removed, Cleared(x, st.clock(|removed|).time, sv.obliges(|removed|)));
      }
      assert scan.trace[n].Removed? && m == n;
    }
  }

  /** The loop over the friends, from its trace: it deals with each player as their look calls for, in order, until a removal asks
      for a delay. */
  lemma {:induction false} ScanIsRight(st: Settings, sv: Services, all: seq<Xuid>, trace: seq<Op>, people: seq<Xuid>) returns (looked: seq<Xuid>)
    ensures var scan := FriendScan(sv, st.clock, st.loaded, trace, people, st.days);
            && trace <= scan.trace
            && Scanned(st, sv, all, scan.trace, |trace|, looked)
            && EndsWith(sv, scan.trace, |trace|, scan.removeRetryAfter)
            && looked <= Players(people)
            && (scan.removeRetryAfter <= 0 ==> looked == Players(people))
  {
    if people == [] {
      looked := [];
      assert Looks(trace, |trace|) == [];
    } else {
      var front, x := people[..|people| - 1], people[|people| - 1];
      looked := ScanIsRight(st, sv, all, trace, front);
      var before := FriendScan(sv, st.clock, st.loaded, trace, front, st.days);
      if !IsGuest(x) && before.removeRetryAfter <= 0 {
        var m, k := ExpireShape(st, sv, before.trace, x);
        var after := ExpireScan(sv, st.clock, before.trace, Histories(st.loaded, before.trace), x, st.days);
        OneMoreFriend(st, sv, all, before.trace, after.trace, |trace|, looked, x, m, k);
        ExpireEnds(st, sv, before.trace, |trace|, x);
        looked := looked + [x];
      }
    }
  }

  // ----- the whole pass -----

  /** What the accepting half adds: accepted and declined players, sightings and joins. */
  predicate IsAccepting(op: Op) { op.Gained? || op.Declined? || op.Saw? || op.Joined? }

  ghost predicate OnlyAccepts(before: seq<Op>, after: seq<Op>) {
    before <= after && forall i | |before| <= i < |after| :: IsAccepting(after[i])
  }

  lemma AcceptsStep(sv: Services, clock: Clock, trace: seq<Op>, op: Op)
    requires IsAccepting(op)
    ensures OnlyAccepts(trace, After(sv, clock, trace, op))
  {
    StepShape(sv, clock, trace, op);
  }

  lemma AcceptsAdded(sv: Services, clock: Clock, trace: seq<Op>, x: Xuid)
    ensures OnlyAccepts(trace, AfterAdded(sv, clock, trace, x))
  {
    var gain := Gained(x, clock(|trace|).time);
    var gained := After(sv, clock, trace, gain);
    AcceptsStep(sv, clock, trace, gain);
    AcceptsStep(sv, clock, gained, SawAt(clock(|gained|), x, sv.obliges(|gained|)));
  }

  lemma {:induction false} AcceptsBulk(sv: Services, clock: Clock, trace: seq<Op>, accepted: seq<Xuid>)
    ensures OnlyAccepts(trace, AfterBulk(sv, clock, trace, accepted))
  {
    if accepted != [] {
      var front := accepted[..|accepted| - 1];
      AcceptsBulk(sv, clock, trace, front);
      AcceptsAdded(sv, clock, AfterBulk(sv, clock, trace, front), accepted[|accepted| - 1]);
    }
  }

  lemma {:induction false} AcceptsSingles(sv: Services, clock: Clock, trace: seq<Op>, singles: seq<Xuid>)
    ensures OnlyAccepts(trace, AfterSingles(sv, clock, trace, singles))
  {
    if singles != [] {
      var front, x := singles[..|singles| - 1], singles[|singles| - 1];
      var before := AfterSingles(sv, clock, trace, front);
      AcceptsSingles(sv, clock, trace, front);
      AcceptsAdded(sv, clock, before, x);
      AcceptsStep(sv, clock, before, Declined(x, clock(|before|).time));
    }
  }

  lemma AcceptsHalf(sv: Services, clock: Clock, trace: seq<Op>, opts: Options)
    ensures OnlyAccepts(trace, AcceptHalf(sv, clock, trace, opts))
  {
    var accepted := AcceptPending(sv.env.server, sv.env.pending, opts.skip).accepted;
    AcceptsBulk(sv, clock, trace, accepted);
    AcceptsSingles(sv, clock, AfterBulk(sv, clock, trace, accepted), AcceptWork(sv.env, opts.skip, opts.refusedBefore).singles);
  }

  /** An expiring pass, by the places in its trace: it accepts, counts the list at step `c`, scans from `from` up to `end`, and prunes. */
  ghost predicate Expires(st: Settings, sv: Services, people: seq<Xuid>, before: seq<Op>, after: seq<Op>,
                          c: nat, from: nat, end: nat, looked: seq<Xuid>) {
    && |before| <= c < from <= end <= |after|
    && before <= after && OnlyAccepts(before, after[..c])
    && after[c] == Counted(people, st.clock(c).time) && OnlyJoins(after[..from], c + 1)
    && Scanned(st, sv, people, after[..end], from, looked)
    && (forall l: nat | from <= l < |after| && after[l].Looked? :: Answers(st, sv, people, after, l))
    && PrunesAll(sv, st.clock, st.loaded, after[..end], after, people)
    && (if looked < Players(people) then exists m: nat | from <= m :: Delays(sv, after[..end], m) && OnlyJoins(after[..end], m + 1)
        else looked == Players(people))
  }

  lemma PruneGoesOn(clock: Clock, people: seq<Xuid>, trace: seq<Op>, more: seq<Op>)
    requires Prunes(clock, trace, more, people)
    ensures GoesOn(people, trace, more)
    ensures forall i | |trace| <= i < |more| :: !more[i].Looked? && !more[i].Removed?
  {
    forall i | |trace| <= i < |more| ensures !more[i].Looked? && !more[i].Removed? {
      assert PruneStep(more[i], clock(i), people);
    }
    forall m: nat | |trace| <= m < |more| && !JoinsDuring(more[m]) ensures more[m].Cleared? && more[m].x !in people {
      assert PruneStep(more[m], clock(m), people);
    }
  }

  /** A pass that may expire and remove friends, and is given the list, looks at every friend on it in order until a removal asks for
      a delay, and does about each what the look calls for. */
  lemma PassExpires(st: Settings, sv: Services, opts: Options, before: seq<Op>, after: seq<Op>)
    returns (c: nat, from: nat, end: nat, looked: seq<Xuid>)
    requires IsPass(st, sv, opts, before, after) && opts.expires && opts.removes && sv.list.People?
    requires AcceptHalfWork(sv, opts).result.readRetryAfter <= 0
    ensures Expires(st, sv, sv.list.people, before, after, c, from, end, looked)
  {
    var people, accepted := sv.list.people, AcceptHalf(sv, st.clock, before, opts);
    var count := Counted(people, st.clock(|accepted|).time);
    var counted := After(sv, st.clock, accepted, count);
    var scan := FriendScan(sv, st.clock, st.loaded, counted, people, st.days);
    AcceptsHalf(sv, st.clock, before, opts);
    StepShape(sv, st.clock, accepted, count);
    looked := ScanIsRight(st, sv, people, counted, people);
    c, from, end := |accepted|, |counted|, |scan.trace|;
    assert after[..end] == scan.trace && after[..from] == counted && after[..c] == accepted;
    PruneGoesOn(st.clock, people, scan.trace, after);
    forall l: nat | from <= l < |after| && after[l].Looked? ensures Answers(st, sv, people, after, l) {
      AnswersLast(st, sv, people, scan.trace, after, l);
    }
  }

  ghost predicate LeavesFriends(before: seq<Op>, after: seq<Op>) {
    before <= after && forall i | |before| <= i < |after| :: !after[i].Looked? && !after[i].Removed? && !after[i].Cleared?
  }

  lemma {:induction false} StepLeavesFriends(sv: Services, clock: Clock, before: seq<Op>, trace: seq<Op>, op: Op)
    requires LeavesFriends(before, trace) && !op.Looked? && !op.Removed? && !op.Cleared?
    ensures LeavesFriends(before, trace + [op]) && LeavesFriends(before, After(sv, clock, trace, op))
  {
    StepShape(sv, clock, trace, op);
  }

  /** The list was counted, as `people`. */
  ghost predicate ListCounted(before: seq<Op>, after: seq<Op>, people: seq<Xuid>) {
    exists c :: |before| <= c < |after| && after[c].Counted? && after[c].people == people
  }

  lemma {:induction false} TakingLeavesFriends(sv: Services, clock: Clock, h: History, before: seq<Op>, trace: seq<Op>,
                                               expires: bool, remove: bool, days: int)
    requires LeavesFriends(before, trace) && !(expires && remove)
    ensures var o := TakeListing(sv, clock, h, trace, expires, remove, days);
            && LeavesFriends(before, o.trace)
            && (o.prunes <==> expires && sv.list.People?)
            && (o.prunes ==> ListCounted(before, o.trace, sv.list.people))
  {
    match sv.list
    case Unlisted(_) => StepLeavesFriends(sv, clock, before, trace, ListFailed(clock(|trace|).time));
    case People(people) =>
      var count := Counted(people, clock(|trace|).time);
      StepLeavesFriends(sv, clock, before, trace, count);
      StepShape(sv, clock, trace, count);
      assert After(sv, clock, trace, count)[|trace|] == count;
  }

  /** A pass that may not remove friends, or is not to expire any, looks at nobody, removes nobody, and clears only the entries of those
      whom the list it counted does not name. */
  lemma {:induction false} PassLeavesFriends(st: Settings, sv: Services, opts: Options, before: seq<Op>, after: seq<Op>) returns (end: nat)
    requires IsPass(st, sv, opts, before, after) && !(opts.expires && opts.removes)
    ensures before <= after && end <= |after| && LeavesFriends(before, after[..end])
    ensures end < |after| || (opts.expires && sv.list.People? && AcceptHalfWork(sv, opts).result.readRetryAfter <= 0) ==>
              && opts.expires && sv.list.People?
              && ListCounted(before, after[..end], sv.list.people)
              && PrunesAll(sv, st.clock, st.loaded, after[..end], after, sv.list.people)
    ensures forall i | |before| <= i < |after| :: !after[i].Looked? && !after[i].Removed?
  {
    var accepted := AcceptHalf(sv, st.clock, before, opts);
    AcceptsHalf(sv, st.clock, before, opts);
    end := |after|;
    assert after[..end] == after;
    if AcceptHalfWork(sv, opts).result.readRetryAfter <= 0 {
      var o := ListingOf(sv, st.clock, st.loaded, accepted, opts.expires, st.expiryOn, opts.removes, st.days);
      ListingLeavesFriends(st, sv, before, accepted, opts.expires, opts.removes);
      if o.prunes {
        end := |o.trace|;
        assert after[..end] == o.trace;
        PruneGoesOn(st.clock, sv.list.people, o.trace, after);
      }
    }
  }

  lemma {:induction false} ListingLeavesFriends(st: Settings, sv: Services, before: seq<Op>, trace: seq<Op>, expires: bool, remove: bool)
    requires LeavesFriends(before, trace) && !(expires && remove)
    ensures var o := ListingOf(sv, st.clock, st.loaded, trace, expires, st.expiryOn, remove, st.days);
            && LeavesFriends(before, o.trace)
            && (o.prunes <==> expires && sv.list.People?)
            && (o.prunes ==> ListCounted(before, o.trace, sv.list.people))
  {
    if expires {
      TakingLeavesFriends(sv, st.clock, st.loaded, before, trace, true, remove, st.days);
    } else {
      StepLeavesFriends(sv, st.clock, before, trace, Read(st.clock(|trace|).time));
      TakingLeavesFriends(sv, st.clock, st.loaded, before, ReadNow(st.clock, trace), false, remove, st.days);
    }
  }

  // ----- one friend in an expiring pass -----

  lemma {:induction false} LookOf(trace: seq<Op>, from: nat, x: Xuid) returns (l: nat)
    requires x in Looks(trace, from)
    ensures from <= l < |trace| && trace[l].Looked? && trace[l].x == x
  {
    var n := |trace| - 1;
    if trace[n].Looked? && trace[n].x == x {
      l := n;
    } else {
      l := LookOf(trace[..n], from, x);
    }
  }

  lemma {:induction false} LookIsListed(trace: seq<Op>, from: nat, l: nat)
    requires from <= l < |trace| && trace[l].Looked?
    ensures trace[l].x in Looks(trace, from)
    decreases |trace|
  {
    if l < |trace| - 1 {
      LookIsListed(trace[..|trace| - 1], from, l);
    }
  }

  lemma {:induction false} LookedAtOnce(trace: seq<Op>, from: nat, l: nat, m: nat)
    requires NoDuplicates(Looks(trace, from)) && from <= l < m < |trace|
    requires trace[l].Looked? && trace[m].Looked?
    ensures trace[l].x != trace[m].x
    decreases |trace|
  {
    var n := |trace| - 1;
    var front := Looks(trace[..n], from);
    if m < n {
      assert forall i | 0 <= i < |front| :: front[i] == Looks(trace, from)[i];
      LookedAtOnce(trace[..n], from, l, m);
    } else {
      LookIsListed(trace[..n], from, l);
      assert Looks(trace, from) == front + [trace[n].x];
      LastIsNew(front, trace[n].x);
    }
  }

  lemma LastIsNew(front: seq<Xuid>, x: Xuid)
    requires NoDuplicates(front + [x])
    ensures x !in front
  {
    var all := front + [x];
    assert all[|front|] == x && forall i | 0 <= i < |front| :: all[i] == front[i];
  }

  /** No removal of the scan asks for a delay. */
  ghost predicate Undelayed(sv: Services, trace: seq<Op>, from: nat) { forall m: nat | from <= m :: !Delays(sv, trace, m) }

  /** Before and after the scan the pass looks at nobody and touches no entry of a listed player, joins aside. */
  lemma OutsideTheScan(st: Settings, sv: Services, people: seq<Xuid>, before: seq<Op>, after: seq<Op>,
                       c: nat, from: nat, end: nat, looked: seq<Xuid>)
    requires Expires(st, sv, people, before, after, c, from, end, looked)
    ensures forall i | c <= i < |after| && !(from <= i < end) ::
              JoinsDuring(after[i]) || after[i].Counted? || (after[i].Cleared? && after[i].x !in people)
  {
    forall i | end <= i < |after| ensures JoinsDuring(after[i]) || (after[i].Cleared? && after[i].x !in people) {
      assert PruneStep(after[i], st.clock(i), people);
    }
    forall i | c < i < from ensures JoinsDuring(after[i]) {
      assert after[..from][i] == after[i];
    }
  }

  /** An expiring pass whose removals ask for no delay looks at every friend on the list exactly once. */
  lemma EveryFriendIsLookedAt(st: Settings, sv: Services, people: seq<Xuid>, before: seq<Op>, after: seq<Op>,
                              c: nat, from: nat, end: nat, looked: seq<Xuid>, x: Xuid) returns (l: nat)
    requires Expires(st, sv, people, before, after, c, from, end, looked) && Undelayed(sv, after, from)
    requires NoDuplicates(people) && x in people && !IsGuest(x)
    ensures from <= l < end && after[l] == Looked(x, st.clock(l).time, sv.obliges(l)) && Answers(st, sv, people, after, l)
    ensures IsOnlyLook(after, c, l, x)
  {
    var scan := after[..end];
    forall m: nat | from <= m ensures !Delays(sv, scan, m) {
      assert !Delays(sv, after, m);
    }
    FilterMembers((y: Xuid) => !IsGuest(y), people);
    FilterKeepsDistinct((y: Xuid) => !IsGuest(y), people);
    l := LookOf(scan, from, x);
    assert CalledFor(sv, st.clock, scan, from, l);
    OutsideTheScan(st, sv, people, before, after, c, from, end, looked);
    forall m: nat | c <= m < |after| && after[m].Looked? && after[m].x == x ensures m == l {
      if m < l {
        LookedAtOnce(scan, from, m, l);
      } else if l < m {
        LookedAtOnce(scan, from, l, m);
      }
    }
  }

  ghost predicate IsOnlyLook(trace: seq<Op>, c: nat, l: nat, x: Xuid) {
    forall m: nat | c <= m < |trace| && trace[m].Looked? && trace[m].x == x :: m == l
  }

  // ----- what becomes of the friend's entry -----

  /** The step changes the entry of `x`. */
  predicate Touches(op: Op, x: Xuid) { Sees(op, x) || (op.Cleared? && op.x == x && op.ok) || op.Lost? }

  lemma {:induction false} EntryStays(h: History, trace: seq<Op>, a: nat, b: nat, x: Xuid)
    requires a <= b <= |trace| && forall i | a <= i < b :: !Touches(trace[i], x)
    ensures x in Histories(h, trace[..b]) <==> x in Histories(h, trace[..a])
    ensures x in Histories(h, trace[..a]) ==> Histories(h, trace[..b])[x] == Histories(h, trace[..a])[x]
    decreases b
  {
    if a < b {
      EntryStays(h, trace, a, b - 1, x);
      assert trace[..b][..b - 1] == trace[..b - 1];
    }
  }

  lemma EntryStep(h: History, trace: seq<Op>, i: nat, n: nat)
    requires i < |trace| && n == i + 1
    ensures Histories(h, trace[..n]) == HistoryAfter(Histories(h, trace[..i]), trace[i])
  {
    assert trace[..n][..i] == trace[..i];
  }

  lemma NextIsUnique(trace: seq<Op>, l: nat, m: nat, n: nat)
    requires Next(trace, l, m) && Next(trace, l, n)
    ensures m == n
  {}

  /** Step `i` is what the look at step `l` led to: a sighting, or the clearing that follows a removal. */
  ghost predicate LedTo(trace: seq<Op>, l: nat, i: nat)
    requires i < |trace|
  {
    || (trace[i].Saw? && Next(trace, l, i))
    || (trace[i].Cleared? && exists r: nat :: Next(trace, l, r) && trace[r].Removed? && trace[r].ok && Next(trace, r, i))
  }

  /** Whatever touches the entry of `x` from step `c` on is what the look at step `l` led to. */
  ghost predicate TouchedOnlyBy(trace: seq<Op>, c: nat, l: nat, x: Xuid) {
    forall i: nat | c <= i < |trace| && Touches(trace[i], x) :: LedTo(trace, l, i)
  }

  lemma TouchedByLook(st: Settings, sv: Services, people: seq<Xuid>, before: seq<Op>, after: seq<Op>,
                      c: nat, from: nat, end: nat, looked: seq<Xuid>, x: Xuid, l: nat)
    requires Expires(st, sv, people, before, after, c, from, end, looked) && x in people
    requires IsOnlyLook(after, c, l, x) && JoinsNot(after, c, x)
    ensures TouchedOnlyBy(after, c, l, x)
  {
    var scan := after[..end];
    OutsideTheScan(st, sv, people, before, after, c, from, end, looked);
    forall i: nat | c <= i < |after| && Touches(after[i], x) ensures LedTo(after, l, i) {
      assert CalledFor(sv, st.clock, scan, from, i);
      if scan[i].Saw? {
        var j: nat :| from <= j < i && Next(scan, j, i) && scan[j].Looked? && scan[j].x == x;
        NextLasts(scan, after, j, i);
      } else {
        var r: nat :| from <= r < i && Next(scan, r, i) && scan[r].Removed? && scan[r].x == x && scan[r].ok;
        assert CalledFor(sv, st.clock, scan, from, r);
        var j: nat :| from <= j < r && Next(scan, j, r) && scan[j].Looked? && scan[j].x == x;
        NextLasts(scan, after, j, r);
        NextLasts(scan, after, r, i);
      }
    }
  }

  lemma LedToOnce(trace: seq<Op>, l: nat, i: nat, j: nat)
    requires i < |trace| && j < |trace| && LedTo(trace, l, i) && LedTo(trace, l, j)
    ensures i == j
  {}

  /** A step that the look led to is the last to touch the entry. */
  lemma EntryAfterStep(h: History, trace: seq<Op>, c: nat, l: nat, i: nat, x: Xuid)
    requires TouchedOnlyBy(trace, c, l, x) && c <= i < |trace| && Touches(trace[i], x)
    ensures trace[i].Saw? ==> x in Histories(h, trace) && Histories(h, trace)[x] == trace[i].second
    ensures trace[i].Cleared? ==> x !in Histories(h, trace)
  {
    var n := i + 1;
    forall j | n <= j < |trace| ensures !Touches(trace[j], x) {
      if Touches(trace[j], x) {
        LedToOnce(trace, l, i, j);
      }
    }
    EntryStep(h, trace, i, n);
    EntryStays(h, trace, n, |trace|, x);
    assert trace[..|trace|] == trace;
  }

  lemma EntryUntouched(h: History, trace: seq<Op>, people: seq<Xuid>, c: nat, l: nat, x: Xuid)
    requires TouchedOnlyBy(trace, c, l, x) && x in people && c <= l < |trace|
    requires LeavesAlone(people, trace, l) || exists m: nat :: Next(trace, l, m) && trace[m].Removed? && !trace[m].ok
    ensures x in Histories(h, trace) <==> x in Histories(h, trace[..l])
    ensures x in Histories(h, trace[..l]) ==> Histories(h, trace)[x] == Histories(h, trace[..l])[x]
  {
    assert forall j: nat | l <= j < |trace| :: !Touches(trace[j], x);
    EntryStays(h, trace, l, |trace|, x);
    assert trace[..|trace|] == trace;
  }

  ghost predicate JoinsNot(trace: seq<Op>, from: nat, x: Xuid) { forall i | from <= i < |trace| :: !(trace[i].Joined? && trace[i].x == x) }

  /** After an expiring pass through which the file obliges and no removal asks for a delay, for every friend on the list who does not
      join meanwhile: one without an entry has the second of a reading taken after their look; one whose entry was before the window at
      their look was asked to be removed, and has no entry if that succeeded; and any other entry is as it was. */
  lemma ExpiringPassDealsWith(st: Settings, sv: Services, people: seq<Xuid>, before: seq<Op>, after: seq<Op>,
                              c: nat, from: nat, end: nat, looked: seq<Xuid>, x: Xuid) returns (l: nat, m: nat)
    requires Expires(st, sv, people, before, after, c, from, end, looked) && Undelayed(sv, after, from)
    requires NoDuplicates(people) && x in people && !IsGuest(x) && JoinsNot(after, c, x)
    requires forall n: nat | from <= n < |after| :: sv.obliges(n)
    ensures c < l < |after| && after[l] == Looked(x, st.clock(l).time, true)
    ensures var h, left := Histories(st.loaded, after[..c]), Histories(st.loaded, after);
            if x !in h then
              l < m < |after| && after[m] == Saw(x, st.clock(m).time, st.clock(m).second, true)
              && x in left && left[x] == st.clock(m).second
            else if FromUnix(h[x]) < st.clock(l).time - Limit(st.days) then
              l < m < |after| && after[m] == Removed(x, st.clock(m).time, sv.removals(m).None?)
              && (if sv.removals(m).None? then x !in left else x in left && left[x] == h[x])
            else x in left && left[x] == h[x]
  {
    l := EveryFriendIsLookedAt(st, sv, people, before, after, c, from, end, looked, x);
    m := l;
    var h := Histories(st.loaded, after[..c]);
    TouchedByLook(st, sv, people, before, after, c, from, end, looked, x, l);
    assert forall i: nat | c <= i < l :: !Touches(after[i], x);
    EntryStays(st.loaded, after, c, l, x);
    if x !in h {
      m :| Next(after, l, m) && after[m] == Saw(x, st.clock(m).time, st.clock(m).second, sv.obliges(m));
      EntryAfterStep(st.loaded, after, c, l, m, x);
    } else if FromUnix(h[x]) < st.clock(l).time - Limit(st.days) {
      m :| Next(after, l, m) && RemovedAt(st.clock, sv, after, m, x);
      if after[m].ok {
        var k: nat :| Next(after, m, k) && after[k] == Cleared(x, st.clock(k).time, sv.obliges(k));
        EntryAfterStep(st.loaded, after, c, l, k, x);
      } else {
        EntryUntouched(st.loaded, after, people, c, l, x);
      }
    } else {
      EntryUntouched(st.loaded, after, people, c, l, x);
    }
  }

  /** Guests on the list, and players who are not on it, keep their entries through the scan, joins aside. */
  lemma OthersKeepTheirEntries(st: Settings, sv: Services, people: seq<Xuid>, before: seq<Op>, after: seq<Op>,
                               c: nat, from: nat, end: nat, looked: seq<Xuid>, x: Xuid)
    requires Expires(st, sv, people, before, after, c, from, end, looked) && (IsGuest(x) || x !in people)
    requires JoinsNot(after, c, x)
    ensures forall i: nat | c <= i < end :: !Touches(after[i], x)
  {
    var scan := after[..end];
    FilterMembers((y: Xuid) => !IsGuest(y), people);
    assert x !in Players(people) && looked <= Players(people);
    forall i: nat | c <= i < end ensures !Touches(after[i], x) {
      if c < i < from {
        assert after[..from][i] == after[i];
      } else if from <= i {
        OthersAreNotHandled(st, sv, people, scan, from, looked, x, i);
      }
    }
  }

  lemma OthersAreNotHandled(st: Settings, sv: Services, people: seq<Xuid>, scan: seq<Op>, from: nat, looked: seq<Xuid>, x: Xuid, i: nat)
    requires Scanned(st, sv, people, scan, from, looked) && x !in looked && from <= i < |scan|
    ensures scan[i].Saw? || scan[i].Cleared? ==> scan[i].x != x
    ensures !scan[i].Lost?
  {
    assert CalledFor(sv, st.clock, scan, from, i);
    if scan[i].Saw? {
      var l: nat :| from <= l < i && Next(scan, l, i) && scan[l].Looked? && scan[l].x == scan[i].x;
      LookIsListed(scan, from, l);
    } else if scan[i].Cleared? {
      var r: nat :| from <= r < i && Next(scan, r, i) && scan[r].Removed? && scan[r].x == scan[i].x && scan[r].ok;
      assert CalledFor(sv, st.clock, scan, from, r);
      var l: nat :| from <= l < r && Next(scan, l, r) && scan[l].Looked? && scan[l].x == scan[r].x;
      LookIsListed(scan, from, l);
    }
  }

  /** An expiring pass that is given the list, of a file that can be listed and obliges, leaves no entry of a player who is not on the
      list and does not join while it prunes. */
  lemma PassForgetsOthers(st: Settings, sv: Services, opts: Options, before: seq<Op>, after: seq<Op>, x: Xuid)
    requires IsPass(st, sv, opts, before, after) && opts.expires && sv.list.People?
    requires AcceptHalfWork(sv, opts).result.readRetryAfter <= 0
    requires sv.lists && (forall i | |before| <= i < |after| && after[i].Cleared? :: after[i].ok)
    requires x !in sv.list.people && JoinsNot(after, |before|, x)
    ensures x !in Histories(st.loaded, after)
  {
    var end: nat;
    if opts.removes {
      var c, from, looked;
      c, from, end, looked := PassExpires(st, sv, opts, before, after);
    } else {
      end := PassLeavesFriends(st, sv, opts, before, after);
    }
    assert Gone(st.loaded, after[..end], after, x);
    forall i | end <= i < |after| ensures !Sees(after[i], x) {
      assert PruneStep(after[i], st.clock(i), sv.list.people);
    }
  }

  // ----- a friend who stays on the list and is not seen -----

  lemma PassExtends(st: Settings, sv: Services, opts: Options, before: seq<Op>, after: seq<Op>)
    requires IsPass(st, sv, opts, before, after)
    ensures before <= after
  {
    AcceptsHalf(sv, st.clock, before, opts);
    if opts.expires && opts.removes {
      if sv.list.People? && AcceptHalfWork(sv, opts).result.readRetryAfter <= 0 {
        var c, from, end, looked := PassExpires(st, sv, opts, before, after);
      }
    } else {
      var end := PassLeavesFriends(st, sv, opts, before, after);
    }
  }

  /** Why a pass may clear an entry: it removed the friend, or counted a list that does not name them. */
  ghost predicate MayClear(before: seq<Op>, after: seq<Op>, i: nat, x: Xuid) {
    exists r: nat :: |before| <= r < i < |after| &&
      ((after[r].Removed? && after[r].x == x && after[r].ok) || (after[r].Counted? && x !in after[r].people))
  }

  lemma PassClears(st: Settings, sv: Services, opts: Options, before: seq<Op>, after: seq<Op>, i: nat)
    requires IsPass(st, sv, opts, before, after) && |before| <= i < |after| && after[i].Cleared?
    ensures opts.expires && MayClear(before, after, i, after[i].x)
  {
    AcceptsHalf(sv, st.clock, before, opts);
    if opts.expires && opts.removes {
      if sv.list.People? && AcceptHalfWork(sv, opts).result.readRetryAfter <= 0 {
        var c, from, end, looked := PassExpires(st, sv, opts, before, after);
        ExpiringPassClears(st, sv, sv.list.people, before, after, c, from, end, looked, i);
      }
    } else {
      var end := PassLeavesFriends(st, sv, opts, before, after);
      assert end <= i;
      assert PruneStep(after[i], st.clock(i), sv.list.people);
      var c: nat :| |before| <= c < end && after[..end][c].Counted? && after[..end][c].people == sv.list.people;
      assert after[c] == after[..end][c];
    }
  }

  lemma ExpiringPassClears(st: Settings, sv: Services, people: seq<Xuid>, before: seq<Op>, after: seq<Op>,
                           c: nat, from: nat, end: nat, looked: seq<Xuid>, i: nat)
    requires Expires(st, sv, people, before, after, c, from, end, looked) && |before| <= i < |after| && after[i].Cleared?
    ensures MayClear(before, after, i, after[i].x)
  {
    OutsideTheScan(st, sv, people, before, after, c, from, end, looked);
    assert forall j | |before| <= j < c :: after[..c][j] == after[j] && IsAccepting(after[j]);
    if from <= i < end {
      var scan := after[..end];
      assert CalledFor(sv, st.clock, scan, from, i);
      var r: nat :| from <= r < i && Next(scan, r, i) && scan[r].Removed? && scan[r].x == scan[i].x && scan[r].ok;
      assert after[r] == scan[r];
    }
  }

  /** From step `from` on, `x` is not seen, not removed and not lost sight of: every list that is counted names them. */
  ghost predicate StaysUnseen(trace: seq<Op>, from: nat, x: Xuid) {
    forall j: nat | from <= j < |trace| ::
      && !Sees(trace[j], x) && !trace[j].Lost?
      && (trace[j].Counted? ==> x in trace[j].people)
      && !(trace[j].Removed? && trace[j].x == x && trace[j].ok)
  }

  lemma PieceExtends(st: Settings, piece: Piece, before: seq<Op>, after: seq<Op>)
    requires Follows(st, piece, before, after)
    ensures before <= after
  {
    if piece.Pass? {
      PassExtends(st, piece.sv, piece.opts, before, after);
    }
  }

  /** The entry of a friend who stays unseen does not change. */
  lemma PieceKeepsEntry(st: Settings, piece: Piece, before: seq<Op>, after: seq<Op>, x: Xuid)
    requires Follows(st, piece, before, after) && StaysUnseen(after, |before|, x)
    ensures before <= after
    ensures x in Histories(st.loaded, after) <==> x in Histories(st.loaded, before)
    ensures x in Histories(st.loaded, before) ==> Histories(st.loaded, after)[x] == Histories(st.loaded, before)[x]
  {
    PieceExtends(st, piece, before, after);
    forall i: nat | |before| <= i < |after| ensures !Touches(after[i], x) {
      if after[i].Cleared? && after[i].x == x && piece.Pass? {
        PassClears(st, piece.sv, piece.opts, before, after, i);
      }
    }
    EntryStays(st.loaded, after, |before|, |after|, x);
    assert after[..|after|] == after && after[..|before|] == before;
  }

  lemma {:induction false} EntryLasts(st: Settings, pieces: seq<Piece>, stages: seq<seq<Op>>, i: nat, k: nat, x: Xuid)
    requires Makes(st, pieces, stages) && i <= k <= |pieces|
    requires x in Histories(st.loaded, stages[i])
    requires |stages[i]| <= |stages[k]| && StaysUnseen(stages[k], |stages[i]|, x)
    ensures x in Histories(st.loaded, stages[k]) && Histories(st.loaded, stages[k])[x] == Histories(st.loaded, stages[i])[x]
    decreases k
  {
    if i < k {
      var j := k - 1;
      assert Follows(st, pieces[j], stages[j], stages[j + 1]);
      PieceExtends(st, pieces[j], stages[j], stages[k]);
      StagesGrow(st, pieces, stages, i, j);
      assert forall n: nat | n < |stages[j]| :: stages[k][n] == stages[j][n];
      EntryLasts(st, pieces, stages, i, j, x);
      PieceKeepsEntry(st, pieces[j], stages[j], stages[k], x);
    }
  }

  lemma {:induction false} StagesGrow(st: Settings, pieces: seq<Piece>, stages: seq<seq<Op>>, i: nat, k: nat)
    requires Makes(st, pieces, stages) && i <= k <= |pieces|
    ensures stages[i] <= stages[k]
    decreases k
  {
    if i < k {
      var j := k - 1;
      assert Follows(st, pieces[j], stages[j], stages[j + 1]);
      PieceExtends(st, pieces[j], stages[j], stages[k]);
      StagesGrow(st, pieces, stages, i, j);
    }
  }

  /** In every trace of passes, joins and losses: a friend with an entry who stays on the list, unseen, is asked to be removed by any
      expiring pass that starts more than the window after that entry, if the file obliges and no removal asks for a delay. */
  lemma AskedAfterWindow(st: Settings, pieces: seq<Piece>, stages: seq<seq<Op>>, i: nat, k: nat, n: nat, people: seq<Xuid>, x: Xuid)
    returns (m: nat)
    requires Runs(st.clock) && Makes(st, pieces, stages) && i <= k && n == k + 1 <= |pieces| && x in Histories(st.loaded, stages[i])
    requires StaysUnseen(stages[k], |stages[i]|, x)
    requires pieces[k].Pass? && pieces[k].opts.expires && pieces[k].opts.removes && pieces[k].sv.list == People(people)
    requires AcceptHalfWork(pieces[k].sv, pieces[k].opts).result.readRetryAfter <= 0
    requires NoDuplicates(people) && x in people && !IsGuest(x)
    requires forall j | |stages[k]| <= j < |stages[n]| :: !(IsSighting(stages[n][j]) && stages[n][j].x == x)
    requires Undelayed(pieces[k].sv, stages[n], |stages[k]|) && forall j: nat | |stages[k]| <= j :: pieces[k].sv.obliges(j)
    requires FromUnix(Histories(st.loaded, stages[i])[x]) + Limit(st.days) < st.clock(|stages[k]|).time
    ensures |stages[k]| <= m < |stages[n]| && stages[n][m].Removed? && stages[n][m].x == x
  {
    var sv, opts, before, after := pieces[k].sv, pieces[k].opts, stages[k], stages[n];
    StagesGrow(st, pieces, stages, i, k);
    EntryLasts(st, pieces, stages, i, k, x);
    assert Follows(st, pieces[k], stages[k], stages[k + 1]);
    var c, from, end, looked := PassExpires(st, sv, opts, before, after);
    AcceptingKeepsEntry(st, before, after, c, x);
    var l;
    l, m := ExpiringPassDealsWith(st, sv, people, before, after, c, from, end, looked, x);
  }

  lemma AcceptingKeepsEntry(st: Settings, before: seq<Op>, after: seq<Op>, c: nat, x: Xuid)
    requires before <= after && |before| <= c <= |after| && OnlyAccepts(before, after[..c])
    requires forall j | |before| <= j < |after| :: !(IsSighting(after[j]) && after[j].x == x)
    ensures x in Histories(st.loaded, before) ==>
              x in Histories(st.loaded, after[..c]) && Histories(st.loaded, after[..c])[x] == Histories(st.loaded, before)[x]
  {
    forall j: nat | |before| <= j < c ensures !Touches(after[j], x) {
      assert IsAccepting(after[..c][j]);
    }
    EntryStays(st.loaded, after, |before|, c, x);
    assert after[..|before|] == before;
  }
}
