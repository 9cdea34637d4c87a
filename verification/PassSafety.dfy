/** What every pass keeps, whatever the services answer and whenever joins are recorded: it removes only the stale, and with a
    truthful service only friends. From there on to every trace of passes, joins and losses. */
module PassSafety {
  import opened Common
  import opened BulkAccept
  import opened RunState
  import opened FriendPass
  import opened FriendLedger
  import opened PassTrace

  // ----- a clock that runs -----

  ghost predicate AllTimed(clock: Clock, trace: seq<Op>) { forall i | 0 <= i < |trace| :: Timed(trace[i], clock(i)) }

  ghost predicate Runs(clock: Clock) {
    && (forall i, j | 0 <= i <= j :: clock(i).time <= clock(j).time)
    && (forall i: nat :: FallsIn(clock(i).time, clock(i).second))
  }

  /** Every step is timed by the clock, and every removal follows a look that found a stale entry. */
  ghost predicate Sound(st: Settings, trace: seq<Op>) {
    Disciplined(st.loaded, trace, st.days) && AllTimed(st.clock, trace)
  }

  lemma SoundRuns(st: Settings, trace: seq<Op>)
    requires Runs(st.clock) && Sound(st, trace)
    ensures FriendLedger.ClockRuns(trace)
  {
    forall i, j | 0 <= i < j < |trace| ensures trace[i].at <= trace[j].at {
      assert Timed(trace[i], st.clock(i)) && Timed(trace[j], st.clock(j));
    }
    forall i | 0 <= i < |trace| && IsSighting(trace[i]) ensures FallsIn(trace[i].at, trace[i].second) {
      assert Timed(trace[i], st.clock(i));
    }
  }

  // ----- one step -----

  lemma DisciplinedOneMore(h: History, trace: seq<Op>, op: Op, days: int)
    requires Disciplined(h, trace, days) && !(op.Removed? && op.ok)
    ensures Disciplined(h, trace + [op], days)
  {
    var t := trace + [op];
    forall j: nat | j < |t| && t[j].Removed? && t[j].ok ensures Justified(h, t, j, days) {
      assert Justified(h, trace, j, days);
      var l: nat :| JustifiedBy(h, trace, l, j, days);
      assert t[..l] == trace[..l];
      assert JustifiedBy(h, t, l, j, days);
    }
  }

  lemma TimedOneMore(clock: Clock, trace: seq<Op>, op: Op)
    requires AllTimed(clock, trace) && Timed(op, clock(|trace|))
    ensures AllTimed(clock, trace + [op])
  {}

  lemma SoundOneMore(st: Settings, trace: seq<Op>, op: Op)
    requires Sound(st, trace) && !(op.Removed? && op.ok) && Timed(op, st.clock(|trace|))
    ensures Sound(st, trace + [op])
  {
    DisciplinedOneMore(st.loaded, trace, op, st.days);
    TimedOneMore(st.clock, trace, op);
  }

  lemma {:induction false} JoinsAreSound(st: Settings, trace: seq<Op>, joins: seq<Join>)
    requires Sound(st, trace)
    ensures Sound(st, AfterJoins(st.clock, trace, joins))
  {
    if joins != [] {
      var before := AfterJoins(st.clock, trace, joins[..|joins| - 1]);
      JoinsAreSound(st, trace, joins[..|joins| - 1]);
      SoundOneMore(st, before, JoinedAt(st.clock(|before|), joins[|joins| - 1], true));
    }
  }

  lemma StepIsSound(st: Settings, sv: Services, trace: seq<Op>, op: Op)
    requires Sound(st, trace) && !(op.Removed? && op.ok) && Timed(op, st.clock(|trace|))
    ensures Sound(st, After(sv, st.clock, trace, op))
  {
    SoundOneMore(st, trace, op);
    JoinsAreSound(st, trace + [op], sv.joins(|trace + [op]|));
  }

  lemma SightIsSound(st: Settings, sv: Services, trace: seq<Op>, x: Xuid)
    requires Sound(st, trace)
    ensures Sound(st, AfterSight(sv, st.clock, trace, x))
  {
    StepIsSound(st, sv, trace, SawAt(st.clock(|trace|), x, sv.obliges(|trace|)));
  }

  /** A look that finds a stale entry justifies a removal with nothing but joins before it. */
  lemma RemovalIsJustified(h: History, trace: seq<Op>, looked: seq<Op>, remove: Op, days: int)
    requires Disciplined(h, looked, days) && remove.Removed? && remove.ok
    requires trace < looked && looked[|trace|] == Looked(remove.x, looked[|trace|].at, true)
    requires forall i | |trace| < i < |looked| :: JoinsDuring(looked[i])
    requires Stale(Histories(h, trace), remove.x, looked[|trace|].at, days)
    ensures Disciplined(h, looked + [remove], days)
  {
    var t := looked + [remove];
    forall j: nat | j < |t| && t[j].Removed? && t[j].ok ensures Justified(h, t, j, days) {
      if j < |looked| {
        assert Justified(h, looked, j, days);
        var l: nat :| JustifiedBy(h, looked, l, j, days);
        assert t[..l] == looked[..l];
        assert JustifiedBy(h, t, l, j, days);
      } else {
        assert t[..|trace|] == trace;
        assert JustifiedBy(h, t, |trace|, j, days);
      }
    }
  }

  /** After a look that found a stale entry, and the joins since, a removal is sound. */
  lemma RemovedIsSound(st: Settings, sv: Services, trace: seq<Op>, x: Xuid)
    requires Sound(st, trace) && sv.obliges(|trace|) && Stale(Histories(st.loaded, trace), x, st.clock(|trace|).time, st.days)
    ensures var looked := After(sv, st.clock, trace, LookAt(sv, st.clock, trace, x));
            Sound(st, After(sv, st.clock, looked, Removed(x, st.clock(|looked|).time, true)))
  {
    var look := LookAt(sv, st.clock, trace, x);
    var looked := After(sv, st.clock, trace, look);
    var remove := Removed(x, st.clock(|looked|).time, true);
    StepIsSound(st, sv, trace, look);
    JoinsExtend(st.clock, trace + [look], sv.joins(|trace + [look]|));
    RemovalIsJustified(st.loaded, trace, looked, remove, st.days);
    TimedOneMore(st.clock, looked, remove);
    JoinsAreSound(st, looked + [remove], sv.joins(|looked + [remove]|));
  }

  // ----- every pass removes only the stale -----

  lemma AddedIsSound(st: Settings, sv: Services, trace: seq<Op>, x: Xuid)
    requires Sound(st, trace)
    ensures Sound(st, AfterAdded(sv, st.clock, trace, x))
  {
    var gain := Gained(x, st.clock(|trace|).time);
    StepIsSound(st, sv, trace, gain);
    SightIsSound(st, sv, After(sv, st.clock, trace, gain), x);
  }

  lemma {:induction false} BulkIsSound(st: Settings, sv: Services, trace: seq<Op>, accepted: seq<Xuid>)
    requires Sound(st, trace)
    ensures Sound(st, AfterBulk(sv, st.clock, trace, accepted))
  {
    if accepted != [] {
      var front := accepted[..|accepted| - 1];
      BulkIsSound(st, sv, trace, front);
      AddedIsSound(st, sv, AfterBulk(sv, st.clock, trace, front), accepted[|accepted| - 1]);
    }
  }

  lemma {:induction false} SinglesAreSound(st: Settings, sv: Services, trace: seq<Op>, singles: seq<Xuid>)
    requires Sound(st, trace)
    ensures Sound(st, AfterSingles(sv, st.clock, trace, singles))
  {
    if singles != [] {
      var front, x := singles[..|singles| - 1], singles[|singles| - 1];
      SinglesAreSound(st, sv, trace, front);
      var before := AfterSingles(sv, st.clock, trace, front);
      AddedIsSound(st, sv, before, x);
      StepIsSound(st, sv, before, Declined(x, st.clock(|before|).time));
    }
  }

  lemma AcceptIsSound(st: Settings, sv: Services, trace: seq<Op>, opts: Options)
    requires Sound(st, trace)
    ensures Sound(st, AcceptHalf(sv, st.clock, trace, opts))
  {
    var accepted := AcceptPending(sv.env.server, sv.env.pending, opts.skip).accepted;
    BulkIsSound(st, sv, trace, accepted);
    SinglesAreSound(st, sv, AfterBulk(sv, st.clock, trace, accepted), AcceptWork(sv.env, opts.skip, opts.refusedBefore).singles);
  }

  lemma RemovalIsSound(st: Settings, sv: Services, trace: seq<Op>, x: Xuid)
    requires Sound(st, trace) && sv.obliges(|trace|) && Stale(Histories(st.loaded, trace), x, st.clock(|trace|).time, st.days)
    ensures Sound(st, RemovalScan(sv, st.clock, After(sv, st.clock, trace, LookAt(sv, st.clock, trace, x)), x).trace)
  {
    var looked := After(sv, st.clock, trace, LookAt(sv, st.clock, trace, x));
    StepIsSound(st, sv, trace, LookAt(sv, st.clock, trace, x));
    if sv.removals(|looked|).Some? {
      StepIsSound(st, sv, looked, Removed(x, st.clock(|looked|).time, false));
    } else {
      RemovedIsSound(st, sv, trace, x);
      var removed := After(sv, st.clock, looked, Removed(x, st.clock(|looked|).time, true));
      StepIsSound(st, sv, removed, Cleared(x, st.clock(|removed|).time, sv.obliges(|removed|)));
    }
  }

  lemma {:induction false} ExpireIsSound(st: Settings, sv: Services, trace: seq<Op>, x: Xuid)
    requires Sound(st, trace)
    ensures Sound(st, ExpireScan(sv, st.clock, trace, Histories(st.loaded, trace), x, st.days).trace)
  {
    var look := LookAt(sv, st.clock, trace, x);
    StepIsSound(st, sv, trace, look);
    SightIsSound(st, sv, After(sv, st.clock, trace, look), x);
    if look.ok && Stale(Histories(st.loaded, trace), x, look.at, st.days) {
      RemovalIsSound(st, sv, trace, x);
    }
  }

  lemma {:induction false} ScanIsSound(st: Settings, sv: Services, trace: seq<Op>, people: seq<Xuid>)
    requires Sound(st, trace)
    ensures Sound(st, FriendScan(sv, st.clock, st.loaded, trace, people, st.days).trace)
  {
    if people != [] {
      var x, front := people[|people| - 1], people[..|people| - 1];
      ScanIsSound(st, sv, trace, front);
      ExpireIsSound(st, sv, FriendScan(sv, st.clock, st.loaded, trace, front, st.days).trace, x);
    }
  }

  lemma {:induction false} PruningIsSound(st: Settings, before: seq<Op>, after: seq<Op>, people: seq<Xuid>)
    requires Sound(st, before) && Prunes(st.clock, before, after, people)
    ensures Sound(st, after)
    decreases |after|
  {
    if |after| > |before| {
      var front, last := after[..|after| - 1], after[|after| - 1];
      assert PruneStep(last, st.clock(|front|), people);
      PruningIsSound(st, before, front, people);
      SoundOneMore(st, front, last);
      assert front + [last] == after;
    } else {
      assert after == before;
    }
  }

  lemma TakingIsSound(st: Settings, sv: Services, trace: seq<Op>, expires: bool, remove: bool)
    requires Sound(st, trace)
    ensures Sound(st, TakeListing(sv, st.clock, st.loaded, trace, expires, remove, st.days).trace)
  {
    match sv.list
    case Unlisted(_) => StepIsSound(st, sv, trace, ListFailed(st.clock(|trace|).time));
    case People(people) =>
      var count := Counted(people, st.clock(|trace|).time);
      StepIsSound(st, sv, trace, count);
      ScanIsSound(st, sv, After(sv, st.clock, trace, count), people);
  }

  lemma ListingIsSound(st: Settings, sv: Services, trace: seq<Op>, expires: bool, remove: bool)
    requires Sound(st, trace)
    ensures Sound(st, ListingOf(sv, st.clock, st.loaded, trace, expires, st.expiryOn, remove, st.days).trace)
  {
    if expires {
      TakingIsSound(st, sv, trace, true, remove);
    } else {
      SoundOneMore(st, trace, Read(st.clock(|trace|).time));
      TakingIsSound(st, sv, ReadNow(st.clock, trace), false, remove);
    }
  }

  /** Whatever the services answer, a pass removes nobody but those that it looked up and found stale. */
  lemma PassIsSound(st: Settings, sv: Services, opts: Options, before: seq<Op>, after: seq<Op>)
    requires Sound(st, before) && IsPass(st, sv, opts, before, after)
    ensures Sound(st, after)
  {
    var accepted := AcceptHalf(sv, st.clock, before, opts);
    AcceptIsSound(st, sv, before, opts);
    ListingIsSound(st, sv, accepted, opts.expires, opts.removes);
    var o := ListingOf(sv, st.clock, st.loaded, accepted, opts.expires, st.expiryOn, opts.removes, st.days);
    if AcceptHalfWork(sv, opts).result.readRetryAfter <= 0 && o.prunes {
      PruningIsSound(st, o.trace, after, sv.list.people);
    }
  }

  // ----- with a truthful service, every pass removes only friends -----

  lemma HonestOneMore(list: set<Xuid>, trace: seq<Op>, op: Op)
    requires Honest(list, trace) && Truthful(Lists(list, trace), op)
    ensures Honest(list, trace + [op])
    ensures Lists(list, trace + [op]) == ListAfter(Lists(list, trace), op)
  {
    var more := trace + [op];
    assert more[..|trace|] == trace;
    forall k: nat | k < |more| ensures TruthfulAt(list, more, k) {
      if k < |trace| {
        assert more[..k] == trace[..k];
        assert TruthfulAt(list, trace, k);
      }
    }
  }

  lemma {:induction false} JoinsAreHonest(clock: Clock, list: set<Xuid>, trace: seq<Op>, joins: seq<Join>)
    requires Honest(list, trace)
    ensures Honest(list, AfterJoins(clock, trace, joins)) && Lists(list, AfterJoins(clock, trace, joins)) == Lists(list, trace)
  {
    if joins != [] {
      var before := AfterJoins(clock, trace, joins[..|joins| - 1]);
      JoinsAreHonest(clock, list, trace, joins[..|joins| - 1]);
      HonestOneMore(list, before, JoinedAt(clock(|before|), joins[|joins| - 1], true));
    }
  }

  lemma StepIsHonest(sv: Services, clock: Clock, list: set<Xuid>, trace: seq<Op>, op: Op)
    requires Honest(list, trace) && Truthful(Lists(list, trace), op)
    ensures var after := After(sv, clock, trace, op);
            Honest(list, after) && Lists(list, after) == ListAfter(Lists(list, trace), op)
  {
    HonestOneMore(list, trace, op);
    JoinsAreHonest(clock, list, trace + [op], sv.joins(|trace + [op]|));
  }

  ghost predicate LosesOnly(before: set<Xuid>, after: set<Xuid>, x: Xuid) { before - {x} <= after }

  lemma RemovalIsHonest(sv: Services, clock: Clock, list: set<Xuid>, trace: seq<Op>, x: Xuid)
    requires Honest(list, trace) && x in Lists(list, trace)
    ensures var after := RemovalScan(sv, clock, trace, x).trace;
            Honest(list, after) && LosesOnly(Lists(list, trace), Lists(list, after), x)
  {
    var n := |trace|;
    if sv.removals(n).Some? {
      StepIsHonest(sv, clock, list, trace, Removed(x, clock(n).time, false));
    } else {
      var removed := After(sv, clock, trace, Removed(x, clock(n).time, true));
      StepIsHonest(sv, clock, list, trace, Removed(x, clock(n).time, true));
      assert LosesOnly(Lists(list, trace), Lists(list, removed), x);
      StepIsHonest(sv, clock, list, removed, Cleared(x, clock(|removed|).time, sv.obliges(|removed|)));
    }
  }

  /** What a look at one friend may lead to: nothing, a sighting, or a removal. */
  ghost predicate FollowsLook(sv: Services, clock: Clock, looked: seq<Op>, x: Xuid, after: seq<Op>) {
    after == looked || after == AfterSight(sv, clock, looked, x) || after == RemovalScan(sv, clock, looked, x).trace
  }

  lemma {:induction false} LookIsHonest(sv: Services, clock: Clock, list: set<Xuid>, trace: seq<Op>, x: Xuid, after: seq<Op>)
    requires Honest(list, trace) && x in Lists(list, trace)
    requires FollowsLook(sv, clock, After(sv, clock, trace, LookAt(sv, clock, trace, x)), x, after)
    ensures Honest(list, after) && LosesOnly(Lists(list, trace), Lists(list, after), x)
  {
    var looked := After(sv, clock, trace, LookAt(sv, clock, trace, x));
    StepIsHonest(sv, clock, list, trace, LookAt(sv, clock, trace, x));
    if after == AfterSight(sv, clock, looked, x) {
      StepIsHonest(sv, clock, list, looked, SawAt(clock(|looked|), x, sv.obliges(|looked|)));
    } else if after != looked {
      RemovalIsHonest(sv, clock, list, looked, x);
    }
  }

  /** Expiring one friend changes the list by that friend at most. */
  lemma {:induction false} ExpireIsHonest(sv: Services, clock: Clock, list: set<Xuid>, h: History, trace: seq<Op>, x: Xuid, days: int)
    requires Honest(list, trace) && x in Lists(list, trace)
    ensures var after := ExpireScan(sv, clock, trace, h, x, days).trace;
            Honest(list, after) && LosesOnly(Lists(list, trace), Lists(list, after), x)
  {
    var after := ExpireScan(sv, clock, trace, h, x, days).trace;
    assert FollowsLook(sv, clock, After(sv, clock, trace, LookAt(sv, clock, trace, x)), x, after);
    LookIsHonest(sv, clock, list, trace, x, after);
  }

  /** A scan over a list without repetitions removes only players who are still friends then. */
  lemma {:induction false} ScanIsHonest(sv: Services, clock: Clock, list: set<Xuid>, h: History, trace: seq<Op>, people: seq<Xuid>, days: int)
    requires Honest(list, trace) && NoDuplicates(people) && forall x | x in people :: x in Lists(list, trace)
    ensures var after := FriendScan(sv, clock, h, trace, people, days).trace;
            && Honest(list, after)
            && (forall x | x in Lists(list, trace) && x !in people :: x in Lists(list, after))
  {
    if people != [] {
      var x, front := people[|people| - 1], people[..|people| - 1];
      assert x !in front && forall y | y in front :: y in people;
      ScanIsHonest(sv, clock, list, h, trace, front, days);
      var before := FriendScan(sv, clock, h, trace, front, days);
      ExpireIsHonest(sv, clock, list, Histories(h, before.trace), before.trace, x, days);
    }
  }

  lemma {:induction false} PruningIsHonest(clock: Clock, list: set<Xuid>, before: seq<Op>, after: seq<Op>, people: seq<Xuid>)
    requires Honest(list, before) && Prunes(clock, before, after, people)
    ensures Honest(list, after)
    decreases |after|
  {
    if |after| > |before| {
      var front, last := after[..|after| - 1], after[|after| - 1];
      assert PruneStep(last, clock(|front|), people);
      PruningIsHonest(clock, list, before, front, people);
      HonestOneMore(list, front, last);
      assert front + [last] == after;
    } else {
      assert after == before;
    }
  }

  ghost predicate TrueListing(sv: Services, list: set<Xuid>) {
    sv.list.People? ==> Truthful(list, Counted(sv.list.people, 0))
  }

  lemma {:induction false} TakingIsHonest(sv: Services, clock: Clock, list: set<Xuid>, h: History, trace: seq<Op>, expires: bool, remove: bool, days: int)
    requires Honest(list, trace) && TrueListing(sv, Lists(list, trace))
    ensures Honest(list, TakeListing(sv, clock, h, trace, expires, remove, days).trace)
  {
    match sv.list
    case Unlisted(_) => StepIsHonest(sv, clock, list, trace, ListFailed(clock(|trace|).time));
    case People(people) =>
      var count := Counted(people, clock(|trace|).time);
      StepIsHonest(sv, clock, list, trace, count);
      ScanIsHonest(sv, clock, list, h, After(sv, clock, trace, count), people, days);
  }

  lemma {:induction false} ReadingIsHonest(clock: Clock, list: set<Xuid>, trace: seq<Op>)
    requires Honest(list, trace)
    ensures Honest(list, ReadNow(clock, trace)) && Lists(list, ReadNow(clock, trace)) == Lists(list, trace)
  {
    HonestOneMore(list, trace, Read(clock(|trace|).time));
  }

  lemma {:induction false} ListingIsHonest(st: Settings, sv: Services, list: set<Xuid>, trace: seq<Op>, expires: bool, remove: bool)
    requires Honest(list, trace) && TrueListing(sv, Lists(list, trace))
    ensures Honest(list, ListingOf(sv, st.clock, st.loaded, trace, expires, st.expiryOn, remove, st.days).trace)
  {
    if expires {
      TakingIsHonest(sv, st.clock, list, st.loaded, trace, true, remove, st.days);
    } else {
      ReadingIsHonest(st.clock, list, trace);
      TakingIsHonest(sv, st.clock, list, st.loaded, ReadNow(st.clock, trace), false, remove, st.days);
    }
  }

  /** The service tells the truth to this pass: those it accepts were not friends, and its listing is the true list. */
  ghost predicate TruthfulPass(st: Settings, sv: Services, opts: Options, before: seq<Op>, list: set<Xuid>) {
    var accepted := AcceptHalf(sv, st.clock, before, opts);
    && (forall k: nat | |before| <= k < |accepted| :: TruthfulAt(list, accepted, k))
    && TrueListing(sv, Lists(list, accepted))
  }

  /** If the accepted players were not friends yet and the listing is the true list, nothing in a pass
      departs from the truth; so the count follows the list through every pass. */
  lemma PassIsHonest(st: Settings, sv: Services, opts: Options, before: seq<Op>, after: seq<Op>, list: set<Xuid>)
    requires IsPass(st, sv, opts, before, after)
    requires Honest(list, before) && TruthfulPass(st, sv, opts, before, list)
    ensures Honest(list, after)
    ensures EverCounted(after) ==> Counts(UNCOUNTED, after).friends == |Lists(list, after)|
  {
    var accepted := AcceptHalf(sv, st.clock, before, opts);
    AcceptIsHonest(sv, st.clock, list, before, opts);
    ListingIsHonest(st, sv, list, accepted, opts.expires, opts.removes);
    var o := ListingOf(sv, st.clock, st.loaded, accepted, opts.expires, st.expiryOn, opts.removes, st.days);
    if AcceptHalfWork(sv, opts).result.readRetryAfter <= 0 && o.prunes {
      PruningIsHonest(st.clock, list, o.trace, after, sv.list.people);
    }
    CountIsListSize(list, after);
  }

  lemma AcceptIsHonest(sv: Services, clock: Clock, list: set<Xuid>, before: seq<Op>, opts: Options)
    requires Honest(list, before)
    requires var accepted := AcceptHalf(sv, clock, before, opts);
             forall k: nat | |before| <= k < |accepted| :: TruthfulAt(list, accepted, k)
    ensures Honest(list, AcceptHalf(sv, clock, before, opts))
  {
    var accepted := AcceptHalf(sv, clock, before, opts);
    AcceptExtends(sv, clock, before, opts);
    forall k: nat | k < |before| ensures TruthfulAt(list, accepted, k) {
      assert accepted[..k] == before[..k];
      assert TruthfulAt(list, before, k);
    }
  }

  lemma StepExtends(sv: Services, clock: Clock, trace: seq<Op>, op: Op)
    ensures trace + [op] <= After(sv, clock, trace, op)
  {
    JoinsExtend(clock, trace + [op], sv.joins(|trace + [op]|));
  }

  lemma AddedExtends(sv: Services, clock: Clock, trace: seq<Op>, x: Xuid)
    ensures trace <= AfterAdded(sv, clock, trace, x)
  {
    var gain := Gained(x, clock(|trace|).time);
    StepExtends(sv, clock, trace, gain);
    var gained := After(sv, clock, trace, gain);
    StepExtends(sv, clock, gained, SawAt(clock(|gained|), x, sv.obliges(|gained|)));
  }

  lemma {:induction false} BulkExtends(sv: Services, clock: Clock, trace: seq<Op>, accepted: seq<Xuid>)
    ensures trace <= AfterBulk(sv, clock, trace, accepted)
  {
    if accepted != [] {
      var front := accepted[..|accepted| - 1];
      BulkExtends(sv, clock, trace, front);
      AddedExtends(sv, clock, AfterBulk(sv, clock, trace, front), accepted[|accepted| - 1]);
    }
  }

  lemma {:induction false} SinglesExtend(sv: Services, clock: Clock, trace: seq<Op>, singles: seq<Xuid>)
    ensures trace <= AfterSingles(sv, clock, trace, singles)
  {
    if singles != [] {
      var front, x := singles[..|singles| - 1], singles[|singles| - 1];
      var before := AfterSingles(sv, clock, trace, front);
      SinglesExtend(sv, clock, trace, front);
      AddedExtends(sv, clock, before, x);
      StepExtends(sv, clock, before, Declined(x, clock(|before|).time));
    }
  }

  lemma AcceptExtends(sv: Services, clock: Clock, trace: seq<Op>, opts: Options)
    ensures trace <= AcceptHalf(sv, clock, trace, opts)
  {
    var accepted := AcceptPending(sv.env.server, sv.env.pending, opts.skip).accepted;
    BulkExtends(sv, clock, trace, accepted);
    SinglesExtend(sv, clock, AfterBulk(sv, clock, trace, accepted), AcceptWork(sv.env, opts.skip, opts.refusedBefore).singles);
  }

  // ----- every trace of passes, joins and losses -----

  /** One thing that happens to the list and the file: a whole pass, a reading of the clock, a join between passes, or
      the file going missing. */
  datatype Piece = Pass(sv: Services, opts: Options) | ReadClock | JoinBetween(join: Join) | FileLost

  ghost predicate Follows(st: Settings, piece: Piece, before: seq<Op>, after: seq<Op>) {
    var r := st.clock(|before|);
    match piece
    case Pass(sv, opts) => IsPass(st, sv, opts, before, after)
    case ReadClock => after == ReadNow(st.clock, before)
    case JoinBetween(join) => after == before + [JoinedAt(r, join, false)]
    case FileLost => after == before + [Lost(r.time)]
  }

  /** The pieces make the trace; `stages[k]` is the trace after `k` of them. */
  ghost predicate Makes(st: Settings, pieces: seq<Piece>, stages: seq<seq<Op>>) {
    && |stages| == |pieces| + 1
    && stages[0] == []
    && forall k | 0 <= k < |pieces| :: Follows(st, pieces[k], stages[k], stages[k + 1])
  }

  lemma PieceIsSound(st: Settings, piece: Piece, before: seq<Op>, after: seq<Op>)
    requires Sound(st, before) && Follows(st, piece, before, after)
    ensures Sound(st, after)
  {
    var r := st.clock(|before|);
    match piece
    case Pass(sv, opts) => PassIsSound(st, sv, opts, before, after);
    case ReadClock => SoundOneMore(st, before, Read(r.time));
    case JoinBetween(join) => SoundOneMore(st, before, JoinedAt(r, join, false));
    case FileLost => SoundOneMore(st, before, Lost(r.time));
  }

  lemma {:induction false} TraceIsSound(st: Settings, pieces: seq<Piece>, stages: seq<seq<Op>>, k: nat)
    requires Makes(st, pieces, stages) && k <= |pieces|
    ensures Sound(st, stages[k])
  {
    if k > 0 {
      TraceIsSound(st, pieces, stages, k - 1);
      assert Follows(st, pieces[k - 1], stages[k - 1], stages[k - 1 + 1]);
      PieceIsSound(st, pieces[k - 1], stages[k - 1], stages[k]);
    }
  }

  ghost predicate NoJoinDuring(trace: seq<Op>) { forall i | 0 <= i < |trace| :: !JoinsDuring(trace[i]) }

  /** In every trace of passes, joins and losses, a friend is removed only when every sighting recorded before is more than the
      window ago, unless their join was recorded between the look and the removal. When joins are recorded
      between passes only, there is no such exception. */
  lemma SeenFriendsStay(st: Settings, pieces: seq<Piece>, stages: seq<seq<Op>>, k: nat, j: nat, x: Xuid)
    requires Runs(st.clock) && Makes(st, pieces, stages) && k <= |pieces| && IsRemoval(stages[k], j, x)
    ensures exists l: nat :: LookFor(stages[k], l, j, x) &&
              (UnseenForWindow(stages[k], j, x, st.days) || SeenBetween(stages[k], l, j, x))
    ensures NoJoinDuring(stages[k]) ==> UnseenForWindow(stages[k], j, x, st.days)
  {
    TraceIsSound(st, pieces, stages, k);
    SoundRuns(st, stages[k]);
    var l := RemovedUnlessSeenBetween(st.loaded, stages[k], j, x, st.days);
    assert NoJoinDuring(stages[k]) ==> !SeenBetween(stages[k], l, j, x);
  }

  // A service and a clock for which the exception is real.

  function Day16(n: nat): Reading {
    if n == 0 then Reading(0, 0) else Reading(1_382_400_000_000_000, 1_382_400)
  }

  function Always(n: nat): bool { true }

  function NoFault(n: nat): Option<Fault> { None }

  function JoinsOnce(x: Xuid): nat -> seq<Join> { (n: nat) => if n == 2 then [Join(x, true)] else [] }

  /** The friend joined on day 0 and is looked at on day 16; before the removal they join again, and
      they are removed although they were seen that very day. */
  lemma JoinCanBeMissed(env: Env, x: Xuid)
    requires !IsGuest(x)
    ensures var st := Settings(Day16, map[], 15, true);
            var sv := Services(env, People([x]), Always, NoFault, JoinsOnce(x), true);
            var joined := [JoinedAt(Day16(0), Join(x, true), false)];
            var after := FriendScan(sv, Day16, map[], joined, [x], 15).trace;
            && Runs(Day16) && Sound(st, after)
            && LookFor(after, 1, 3, x) && SeenBetween(after, 1, 3, x) && !UnseenForWindow(after, 3, x, 15)
  {
    var st := Settings(Day16, map[], 15, true);
    var sv := Services(env, People([x]), Always, NoFault, JoinsOnce(x), true);
    var join := JoinedAt(Day16(0), Join(x, true), false);
    FirstJoinIsSound(x);
    ScanIsSound(st, sv, [join], [x]);
    JoinMissedSteps(sv, join, x);
    SeenAndRemoved(x);
    Day16Runs();
  }

  lemma Day16Runs()
    ensures Runs(Day16)
  {
    RoundedDown(Day16(1).time);
  }

  lemma FirstJoinIsSound(x: Xuid)
    ensures var join := JoinedAt(Day16(0), Join(x, true), false);
            Histories(map[], [join]) == map[x := 0] && Sound(Settings(Day16, map[], 15, true), [join])
  {
    var st, join := Settings(Day16, map[], 15, true), JoinedAt(Day16(0), Join(x, true), false);
    assert [join][..0] == [] && [] + [join] == [join];
    SoundOneMore(st, [], join);
  }

  /** What the scan does: it looks, the relay notes the second join, and the friend is removed and forgotten. */
  function MissedTrace(x: Xuid): seq<Op> {
    var late := Day16(1).time;
    [JoinedAt(Day16(0), Join(x, true), false), Looked(x, late, true), JoinedAt(Day16(2), Join(x, true), true),
     Removed(x, late, true), Cleared(x, late, true)]
  }

  lemma SeenAndRemoved(x: Xuid)
    ensures LookFor(MissedTrace(x), 1, 3, x) && SeenBetween(MissedTrace(x), 1, 3, x) && !UnseenForWindow(MissedTrace(x), 3, x, 15)
  {
    assert Sees(MissedTrace(x)[2], x);
  }

  lemma JoinMissedSteps(sv: Services, join: Op, x: Xuid)
    requires !IsGuest(x) && join == JoinedAt(Day16(0), Join(x, true), false)
    requires sv.obliges == Always && sv.removals == NoFault && sv.joins == JoinsOnce(x)
    requires Histories(map[], [join]) == map[x := 0]
    ensures FriendScan(sv, Day16, map[], [join], [x], 15).trace == MissedTrace(x)
  {
    var late := Day16(1).time;
    var look, again := Looked(x, late, true), JoinedAt(Day16(2), Join(x, true), true);
    assert [x][..0] == [] && [Join(x, true)][..0] == [];
    assert [join] + [look] == [join, look] && [join, look] + [again] == [join, look, again];
    assert AfterJoins(Day16, [join, look], []) == [join, look];
    assert AfterJoins(Day16, [join, look], [Join(x, true)]) == [join, look, again];
    assert After(sv, Day16, [join], look) == [join, look, again];
    var removed := [join, look, again, Removed(x, late, true)];
    assert [join, look, again] + [Removed(x, late, true)] == removed;
    assert AfterJoins(Day16, removed, []) == removed;
    assert After(sv, Day16, [join, look, again], Removed(x, late, true)) == removed;
    var cleared := removed + [Cleared(x, late, true)];
    assert AfterJoins(Day16, cleared, []) == cleared;
    assert After(sv, Day16, removed, Cleared(x, late, true)) == cleared;
    assert LookAt(sv, Day16, [join], x) == look;
    assert Stale(map[x := 0], x, late, 15);
    assert RemovalScan(sv, Day16, [join, look, again], x).trace == cleared;
  }

  ghost predicate TruthfulPiece(st: Settings, piece: Piece, before: seq<Op>, list: set<Xuid>) {
    piece.Pass? ==> TruthfulPass(st, piece.sv, piece.opts, before, list)
  }

  lemma PieceIsHonest(st: Settings, piece: Piece, before: seq<Op>, after: seq<Op>, list: set<Xuid>)
    requires Follows(st, piece, before, after) && Honest(list, before) && TruthfulPiece(st, piece, before, list)
    ensures Honest(list, after)
  {
    var r := st.clock(|before|);
    match piece
    case Pass(sv, opts) => PassIsHonest(st, sv, opts, before, after, list);
    case ReadClock => HonestOneMore(list, before, Read(r.time));
    case JoinBetween(join) => HonestOneMore(list, before, JoinedAt(r, join, false));
    case FileLost => HonestOneMore(list, before, Lost(r.time));
  }

  lemma {:induction false} TraceIsHonest(st: Settings, pieces: seq<Piece>, stages: seq<seq<Op>>, k: nat, list: set<Xuid>)
    requires Makes(st, pieces, stages) && k <= |pieces|
    requires forall i | 0 <= i < k :: TruthfulPiece(st, pieces[i], stages[i], list)
    ensures Honest(list, stages[k])
  {
    if k > 0 {
      TraceIsHonest(st, pieces, stages, k - 1, list);
      assert Follows(st, pieces[k - 1], stages[k - 1], stages[k - 1 + 1]);
      PieceIsHonest(st, pieces[k - 1], stages[k - 1], stages[k], list);
    }
  }

  /** In every trace of passes, joins and losses: if the service tells the truth to every pass, then after each of them, from the
      first full list on, the friend count is the size of the true list. */
  lemma CountFollowsList(st: Settings, pieces: seq<Piece>, stages: seq<seq<Op>>, k: nat, list: set<Xuid>)
    requires Makes(st, pieces, stages) && k <= |pieces|
    requires forall i | 0 <= i < k :: TruthfulPiece(st, pieces[i], stages[i], list)
    ensures EverCounted(stages[k]) ==> Counts(UNCOUNTED, stages[k]).friends == |Lists(list, stages[k])|
  {
    TraceIsHonest(st, pieces, stages, k, list);
    CountIsListSize(list, stages[k]);
  }
}
