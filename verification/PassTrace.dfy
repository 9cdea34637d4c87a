/** One pass of the friend syncer as the steps it adds to the trace: it accepts pending players, lists friends, expires
    the inactive and prunes the file. The relay may record joins after any of them. */
module PassTrace {
  import opened Common
  import opened BulkAccept
  import opened RunState
  import opened FriendPass
  import opened FriendLedger

  datatype ListAnswer = People(people: seq<Xuid>) | Unlisted(fault: Fault)

  /** A join that the relay records, if the file obliges. */
  datatype Join = Join(x: Xuid, ok: bool)

  /** What a pass meets. `obliges` and `removals` answer the step of the trace with that number: whether the file can
      be read or written, and the fault, if any, of a removal; `joins` are recorded once the trace has that many
      steps; `lists` is whether the file can be listed for pruning. */
  datatype Services = Services(
    env: Env,
    list: ListAnswer,
    obliges: nat -> bool,
    removals: nat -> Option<Fault>,
    joins: nat -> seq<Join>,
    lists: bool)

  /** What the pass may do, and whose requests wait. `expires` is whether this pass is to expire friends. */
  datatype Options = Options(expires: bool, adds: bool, removes: bool, skip: set<Xuid>, refusedBefore: set<Xuid>)

  /** `options`. */
  function OptionsOf(s: State, now: Time, expires: bool): Options {
    Options(expires, MayAdd(s, now), MayRemove(s, now), Skipped(s, now), s.refusedBefore)
  }

  /** The `n`-th reading of the clock is that of step `n` of the trace. */
  type Clock = nat -> Reading

  // ----- the trace after each part of a pass -----

  function JoinedAt(r: Reading, j: Join, during: bool): Op { Joined(j.x, r.time, r.second, j.ok, during) }

  function AfterJoins(clock: Clock, trace: seq<Op>, joins: seq<Join>): (after: seq<Op>)
    ensures |after| == |trace| + |joins|
  {
    if joins == [] then trace else
      var before := AfterJoins(clock, trace, joins[..|joins| - 1]);
      before + [JoinedAt(clock(|before|), joins[|joins| - 1], true)]
  }

  /** The trace with the joins that the relay records at this point. */
  function Woven(sv: Services, clock: Clock, trace: seq<Op>): (after: seq<Op>)
    ensures |after| >= |trace|
  {
    AfterJoins(clock, trace, sv.joins(|trace|))
  }

  /** One step of the syncer, and the joins that follow it. */
  function After(sv: Services, clock: Clock, trace: seq<Op>, op: Op): (after: seq<Op>)
    ensures |after| > |trace|
  {
    Woven(sv, clock, trace + [op])
  }

  function SawAt(r: Reading, x: Xuid, ok: bool): Op { Saw(x, r.time, r.second, ok) }

  /** After the syncer records a sighting of `x`. */
  function AfterSight(sv: Services, clock: Clock, trace: seq<Op>, x: Xuid): (after: seq<Op>)
    ensures |after| > |trace|
  {
    After(sv, clock, trace, SawAt(clock(|trace|), x, sv.obliges(|trace|)))
  }

  /** Player `x` was accepted: one more friend, and their expiry clock starts. */
  function AfterAdded(sv: Services, clock: Clock, trace: seq<Op>, x: Xuid): (after: seq<Op>)
    ensures |after| >= |trace|
  {
    AfterSight(sv, clock, After(sv, clock, trace, Gained(x, clock(|trace|).time)), x)
  }

  function AfterBulk(sv: Services, clock: Clock, trace: seq<Op>, accepted: seq<Xuid>): (after: seq<Op>)
    ensures |after| >= |trace|
  {
    if accepted == [] then trace
    else AfterAdded(sv, clock, AfterBulk(sv, clock, trace, accepted[..|accepted| - 1]), accepted[|accepted| - 1])
  }

  function AfterSingle(sv: Services, clock: Clock, trace: seq<Op>, x: Xuid, answer: AddAnswer): (after: seq<Op>)
    ensures |after| >= |trace|
  {
    match answer
    case Added => AfterAdded(sv, clock, trace, x)
    case Restricted => After(sv, clock, trace, Declined(x, clock(|trace|).time))
    case _ => trace
  }

  /** After the single adds, the `k`-th of which the service answers with `adds(k, …)`. */
  function AfterSingles(sv: Services, clock: Clock, trace: seq<Op>, singles: seq<Xuid>): (after: seq<Op>)
    ensures |after| >= |trace|
  {
    if singles == [] then trace else
      var k := |singles| - 1;
      AfterSingle(sv, clock, AfterSingles(sv, clock, trace, singles[..k]), singles[k], sv.env.adds(k, singles[k]))
  }

  function AfterAccept(sv: Services, clock: Clock, trace: seq<Op>, skip: set<Xuid>, refusedBefore: set<Xuid>): (after: seq<Op>)
    ensures |after| >= |trace|
  {
    var bulk := AfterBulk(sv, clock, trace, AcceptPending(sv.env.server, sv.env.pending, skip).accepted);
    AfterSingles(sv, clock, bulk, AcceptWork(sv.env, skip, refusedBefore).singles)
  }

  /** The trace after looking at friends, and the delay that a refused removal asks for. */
  datatype Scan = Scan(trace: seq<Op>, removeRetryAfter: Time)

  function AfterClear(sv: Services, clock: Clock, trace: seq<Op>, x: Xuid): (after: seq<Op>)
    ensures |after| > |trace|
  {
    After(sv, clock, trace, Cleared(x, clock(|trace|).time, sv.obliges(|trace|)))
  }

  /** After asking to remove a friend; with success their entry is cleared. */
  function RemovalScan(sv: Services, clock: Clock, trace: seq<Op>, x: Xuid): (scan: Scan)
    ensures scan.removeRetryAfter >= 0 && |scan.trace| >= |trace|
  {
    var n := |trace|;
    match sv.removals(n)
    case Some(fault) => Scan(After(sv, clock, trace, Removed(x, clock(n).time, false)), RetryDelay(fault))
    case None => Scan(AfterClear(sv, clock, After(sv, clock, trace, Removed(x, clock(n).time, true)), x), 0)
  }

  function LookAt(sv: Services, clock: Clock, trace: seq<Op>, x: Xuid): Op {
    Looked(x, clock(|trace|).time, sv.obliges(|trace|))
  }

  /** After looking at one friend; `h` is the file as the look finds it. */
  function ExpireScan(sv: Services, clock: Clock, trace: seq<Op>, h: History, x: Xuid, days: int): (scan: Scan)
    ensures scan.removeRetryAfter >= 0 && |scan.trace| >= |trace|
  {
    var look := LookAt(sv, clock, trace, x);
    var looked := After(sv, clock, trace, look);
    if !look.ok || (x in h && !Stale(h, x, look.at, days)) then Scan(looked, 0)
    else if x !in h then Scan(AfterSight(sv, clock, looked, x), 0)
    else RemovalScan(sv, clock, looked, x)
  }

  function Noted(r: Result, scan: Scan): Result {
    if scan.removeRetryAfter > 0 then r.(removeRetryAfter := scan.removeRetryAfter) else r
  }

  /** The loop over the friends, up to the first removal that asks for a delay. */
  function FriendScan(sv: Services, clock: Clock, loaded: History, trace: seq<Op>, people: seq<Xuid>, days: int): (scan: Scan)
    ensures scan.removeRetryAfter >= 0 && |scan.trace| >= |trace|
  {
    if people == [] then Scan(trace, 0) else
      var x := people[|people| - 1];
      var before := FriendScan(sv, clock, loaded, trace, people[..|people| - 1], days);
      if IsGuest(x) || before.removeRetryAfter > 0 then before
      else ExpireScan(sv, clock, before.trace, Histories(loaded, before.trace), x, days)
  }

  /** A removal that asks for a delay ends the scan. */
  lemma {:induction false} ScanStops(sv: Services, clock: Clock, loaded: History, trace: seq<Op>, people: seq<Xuid>, i: nat, days: int)
    requires i <= |people| && FriendScan(sv, clock, loaded, trace, people[..i], days).removeRetryAfter > 0
    ensures FriendScan(sv, clock, loaded, trace, people, days) == FriendScan(sv, clock, loaded, trace, people[..i], days)
    decreases |people|
  {
    if i < |people| {
      var front := people[..|people| - 1];
      assert front[..i] == people[..i];
      ScanStops(sv, clock, loaded, trace, front, i, days);
    } else {
      assert people[..i] == people;
    }
  }

  /** What the listing half does before it prunes, and whether it prunes at all. */
  datatype Listing = Listing(trace: seq<Op>, readRetryAfter: Time, removeRetryAfter: Time, prunes: bool)

  /** After reading the list: count it, and if this pass expires friends, look at each. */
  function ReadListing(sv: Services, clock: Clock, loaded: History, trace: seq<Op>, people: seq<Xuid>, expires: bool, remove: bool, days: int):
    (o: Listing)
    ensures |o.trace| >= |trace|
  {
    var counted := After(sv, clock, trace, Counted(people, clock(|trace|).time));
    if !expires then Listing(counted, 0, 0, false)
    else if !remove then Listing(counted, 0, 0, true)
    else
      var scan := FriendScan(sv, clock, loaded, counted, people, days);
      Listing(scan.trace, 0, scan.removeRetryAfter, true)
  }

  function ReadNow(clock: Clock, trace: seq<Op>): seq<Op> { trace + [Read(clock(|trace|).time)] }

  /** Listing friends, for the expiry of this pass or, at `trace`, for the count. */
  function TakeListing(sv: Services, clock: Clock, loaded: History, trace: seq<Op>, expires: bool, remove: bool, days: int): (o: Listing)
    ensures |o.trace| >= |trace|
  {
    match sv.list
    case Unlisted(fault) =>
      Listing(if expires then trace else After(sv, clock, trace, ListFailed(clock(|trace|).time)), RetryDelay(fault), 0, false)
    case People(people) => ReadListing(sv, clock, loaded, trace, people, expires, remove, days)
  }

  /** `expires` is whether this pass is to expire friends, `expiryOn` whether any pass does. A pass that does not reads the
      clock to see whether the count needs a list. */
  function ListingOf(sv: Services, clock: Clock, loaded: History, trace: seq<Op>, expires: bool, expiryOn: bool, remove: bool, days: int):
    (o: Listing)
    ensures |o.trace| >= |trace|
  {
    if expires then TakeListing(sv, clock, loaded, trace, true, remove, days)
    else if NeedsList(Counts(UNCOUNTED, trace), expiryOn, clock(|trace|).time) then
      TakeListing(sv, clock, loaded, ReadNow(clock, trace), false, remove, days)
    else Listing(ReadNow(clock, trace), 0, 0, false)
  }

  /** Pruning clears recorded players who are no longer listed, and nothing else. */
  ghost predicate PruneStep(op: Op, r: Reading, people: seq<Xuid>) {
    Timed(op, r) && (JoinsDuring(op) || (op.Cleared? && op.x !in people))
  }

  ghost predicate Prunes(clock: Clock, before: seq<Op>, after: seq<Op>, people: seq<Xuid>) {
    before <= after && forall i | |before| <= i < |after| :: PruneStep(after[i], clock(i), people)
  }

  ghost predicate AllOblige(before: seq<Op>, after: seq<Op>) {
    forall i | |before| <= i < |after| :: after[i].Cleared? ==> after[i].ok
  }

  /** Pruning of a file that can be listed leaves no entry of a player who is not on the list, if every clearing goes through and nobody
      joins; one that cannot be listed is left as it is. */
  ghost predicate PrunesAll(sv: Services, clock: Clock, h: History, before: seq<Op>, after: seq<Op>, people: seq<Xuid>) {
    && Prunes(clock, before, after, people)
    && (if sv.lists then AllOblige(before, after) ==> forall x | x !in people :: Gone(h, before, after, x) else after == before)
  }

  function AcceptHalf(sv: Services, clock: Clock, trace: seq<Op>, opts: Options): (after: seq<Op>)
    ensures |after| >= |trace|
  {
    if opts.adds then AfterAccept(sv, clock, trace, opts.skip, opts.refusedBefore) else trace
  }

  function AcceptHalfWork(sv: Services, opts: Options): Work {
    if opts.adds then AcceptWork(sv.env, opts.skip, opts.refusedBefore) else Work(NO_RESULT, [], [])
  }

  /** What passes are configured with. */
  datatype Settings = Settings(clock: Clock, loaded: History, days: int, expiryOn: bool)

  /** `syncWithOptions`: a delay on reading the pending list ends the pass before the listing half. */
  ghost predicate IsPass(st: Settings, sv: Services, opts: Options, before: seq<Op>, after: seq<Op>) {
    var accepted := AcceptHalf(sv, st.clock, before, opts);
    if AcceptHalfWork(sv, opts).result.readRetryAfter > 0 then after == accepted else
      var o := ListingOf(sv, st.clock, st.loaded, accepted, opts.expires, st.expiryOn, opts.removes, st.days);
      if o.prunes then sv.list.People? && PrunesAll(sv, st.clock, st.loaded, o.trace, after, sv.list.people) else after == o.trace
  }

  /** The pass's result: the accepting half's, with the delays that the listing half met. */
  function PassResult(st: Settings, sv: Services, opts: Options, before: seq<Op>): Result {
    var r := AcceptHalfWork(sv, opts).result;
    if r.readRetryAfter > 0 then r else
      var o := ListingOf(sv, st.clock, st.loaded, AcceptHalf(sv, st.clock, before, opts), opts.expires, st.expiryOn, opts.removes, st.days);
      r.(readRetryAfter := o.readRetryAfter, removeRetryAfter := o.removeRetryAfter)
  }

  /** A pass that accepts nobody and is given the list of friends is asked for no delay before reading again. */
  lemma ListedIsUndelayed(st: Settings, sv: Services, opts: Options, before: seq<Op>)
    requires !opts.adds && sv.list.People?
    ensures PassResult(st, sv, opts, before).readRetryAfter == 0
  {}

  /** Only a pass that may remove friends is asked for a delay before removing. */
  lemma RemovalDelayNeedsRemovals(st: Settings, sv: Services, opts: Options, before: seq<Op>)
    ensures PassResult(st, sv, opts, before).removeRetryAfter != 0 ==> opts.removes
  {
    AcceptKeepsDelays(sv.env, opts.skip, opts.refusedBefore);
  }

  lemma OneMore(c: Count, h: History, trace: seq<Op>, op: Op)
    ensures Counts(c, trace + [op]) == CountAfter(Counts(c, trace), op)
    ensures Histories(h, trace + [op]) == HistoryAfter(Histories(h, trace), op)
  {
    assert (trace + [op])[..|trace|] == trace;
  }

  lemma PassGrows(st: Settings, sv: Services, opts: Options, before: seq<Op>, after: seq<Op>)
    requires IsPass(st, sv, opts, before, after)
    ensures |before| <= |after|
  {}

  /** Woven joins extend the trace by timed joins. */
  lemma {:induction false} JoinsExtend(clock: Clock, trace: seq<Op>, joins: seq<Join>)
    ensures trace <= AfterJoins(clock, trace, joins)
    ensures forall i | |trace| <= i < |AfterJoins(clock, trace, joins)| ::
              JoinsDuring(AfterJoins(clock, trace, joins)[i]) && Timed(AfterJoins(clock, trace, joins)[i], clock(i))
  {
    if joins != [] {
      JoinsExtend(clock, trace, joins[..|joins| - 1]);
    }
  }

  predicate Timed(op: Op, r: Reading) { op.at == r.time && (IsSighting(op) ==> op.second == r.second) }

  // ----- what pruning leaves in the file -----

  /** Whether a sighting of `x` was recorded since. */
  ghost predicate SeenSince(before: seq<Op>, after: seq<Op>, x: Xuid) {
    exists i | |before| <= i < |after| :: Sees(after[i], x)
  }

  /** The file still has the entry of `x`, unchanged unless they were seen meanwhile. */
  ghost predicate Kept(h: History, before: seq<Op>, after: seq<Op>, x: Xuid) {
    var h0, h1 := Histories(h, before), Histories(h, after);
    x in h0 ==> x in h1 && (h1[x] == h0[x] || SeenSince(before, after, x))
  }

  /** The file has no entry of `x` that it did not have, unless they were seen meanwhile. */
  ghost predicate NotNew(h: History, before: seq<Op>, after: seq<Op>, x: Xuid) {
    x in Histories(h, after) ==> x in Histories(h, before) || SeenSince(before, after, x)
  }

  lemma SeenSinceOneMore(before: seq<Op>, trace: seq<Op>, op: Op, x: Xuid)
    requires |before| <= |trace|
    ensures SeenSince(before, trace + [op], x) <==> SeenSince(before, trace, x) || Sees(op, x)
  {
    var more := trace + [op];
    assert forall i | 0 <= i < |trace| :: more[i] == trace[i];
    if Sees(op, x) {
      assert Sees(more[|trace|], x);
    }
    if i :| |before| <= i < |trace| && Sees(trace[i], x) {
      assert Sees(more[i], x);
    }
  }

  /** A step that does not touch the entry of `x`, or records a sighting of them, keeps it. */
  lemma KeptOneMore(h: History, before: seq<Op>, trace: seq<Op>, op: Op, x: Xuid)
    requires |before| <= |trace| && Kept(h, before, trace, x) && NotNew(h, before, trace, x)
    requires IsSighting(op)
    ensures Kept(h, before, trace + [op], x) && NotNew(h, before, trace + [op], x)
  {
    OneMore(UNCOUNTED, h, trace, op);
    SeenSinceOneMore(before, trace, op, x);
  }

  lemma {:induction false} KeptWhileJoining(clock: Clock, h: History, before: seq<Op>, trace: seq<Op>, joins: seq<Join>, x: Xuid)
    requires |before| <= |trace| && Kept(h, before, trace, x) && NotNew(h, before, trace, x)
    ensures Kept(h, before, AfterJoins(clock, trace, joins), x) && NotNew(h, before, AfterJoins(clock, trace, joins), x)
  {
    if joins != [] {
      var front := AfterJoins(clock, trace, joins[..|joins| - 1]);
      KeptWhileJoining(clock, h, before, trace, joins[..|joins| - 1], x);
      KeptOneMore(h, before, front, JoinedAt(clock(|front|), joins[|joins| - 1], true), x);
    }
  }

  /** Clearing one entry keeps every other. */
  lemma KeptWhileClearing(sv: Services, clock: Clock, h: History, before: seq<Op>, trace: seq<Op>, x: Xuid, y: Xuid)
    requires |before| <= |trace| && x != y && Kept(h, before, trace, y) && NotNew(h, before, trace, y)
    ensures Kept(h, before, AfterClear(sv, clock, trace, x), y) && NotNew(h, before, AfterClear(sv, clock, trace, x), y)
  {
    var clear := Cleared(x, clock(|trace|).time, sv.obliges(|trace|));
    OneMore(UNCOUNTED, h, trace, clear);
    SeenSinceOneMore(before, trace, clear, y);
    KeptWhileJoining(clock, h, before, trace + [clear], sv.joins(|trace + [clear]|), y);
  }

  /** If the file obliges, the entry of `x` is gone unless they were seen meanwhile. */
  ghost predicate Gone(h: History, before: seq<Op>, after: seq<Op>, x: Xuid) {
    x in Histories(h, after) ==> SeenSince(before, after, x)
  }

  lemma {:induction false} GoneWhileJoining(clock: Clock, h: History, before: seq<Op>, trace: seq<Op>, joins: seq<Join>, x: Xuid)
    requires |before| <= |trace| && Gone(h, before, trace, x)
    ensures Gone(h, before, AfterJoins(clock, trace, joins), x)
  {
    if joins != [] {
      var front := AfterJoins(clock, trace, joins[..|joins| - 1]);
      var last := JoinedAt(clock(|front|), joins[|joins| - 1], true);
      GoneWhileJoining(clock, h, before, trace, joins[..|joins| - 1], x);
      OneMore(UNCOUNTED, h, front, last);
      SeenSinceOneMore(before, front, last, x);
    }
  }

  /** Clearing an entry removes it, and none comes back but by a sighting. */
  lemma GoneAfterClearing(sv: Services, clock: Clock, h: History, before: seq<Op>, trace: seq<Op>, x: Xuid, y: Xuid)
    requires |before| <= |trace| && (x == y || Gone(h, before, trace, y)) && sv.obliges(|trace|)
    ensures Gone(h, before, AfterClear(sv, clock, trace, x), y)
  {
    var clear := Cleared(x, clock(|trace|).time, sv.obliges(|trace|));
    OneMore(UNCOUNTED, h, trace, clear);
    SeenSinceOneMore(before, trace, clear, y);
    GoneWhileJoining(clock, h, before, trace + [clear], sv.joins(|trace + [clear]|), y);
  }

  lemma ClearPrunes(sv: Services, clock: Clock, before: seq<Op>, trace: seq<Op>, people: seq<Xuid>, x: Xuid)
    requires Prunes(clock, before, trace, people) && x !in people
    ensures var after := AfterClear(sv, clock, trace, x);
            && Prunes(clock, before, after, people)
            && (AllOblige(before, after) ==> AllOblige(before, trace) && sv.obliges(|trace|))
  {
    var cleared := trace + [Cleared(x, clock(|trace|).time, sv.obliges(|trace|))];
    var after := AfterClear(sv, clock, trace, x);
    JoinsExtend(clock, cleared, sv.joins(|cleared|));
    assert forall i | 0 <= i < |cleared| :: after[i] == cleared[i];
    assert after[|trace|].Cleared?;
    forall i | |before| <= i < |after| ensures PruneStep(after[i], clock(i), people) {
      if i < |trace| {
        assert PruneStep(trace[i], clock(i), people);
      }
    }
  }

  /** What pruning has done when the recorded players in `left` are still to be looked at. */
  ghost predicate PrunedSoFar(clock: Clock, h: History, before: seq<Op>, trace: seq<Op>, people: seq<Xuid>, left: set<Xuid>) {
    && Prunes(clock, before, trace, people)
    && (forall y :: y in people || y in left ==> Kept(h, before, trace, y) && NotNew(h, before, trace, y))
    && (AllOblige(before, trace) ==> forall y :: y !in people && y !in left ==> Gone(h, before, trace, y))
  }

  lemma PruneOneMore(sv: Services, clock: Clock, h: History, before: seq<Op>, trace: seq<Op>, people: seq<Xuid>, left: set<Xuid>, x: Xuid)
    requires PrunedSoFar(clock, h, before, trace, people, left) && x in left && x !in people
    ensures PrunedSoFar(clock, h, before, AfterClear(sv, clock, trace, x), people, left - {x})
  {
    var after := AfterClear(sv, clock, trace, x);
    ClearPrunes(sv, clock, before, trace, people, x);
    forall y | y in people || y in left - {x} ensures Kept(h, before, after, y) && NotNew(h, before, after, y) {
      KeptWhileClearing(sv, clock, h, before, trace, x, y);
    }
    if AllOblige(before, after) {
      forall y | y !in people && y !in left - {x} ensures Gone(h, before, after, y) {
        GoneAfterClearing(sv, clock, h, before, trace, x, y);
      }
    }
  }

  /** Listed players need no clearing. */
  lemma PruneSkips(clock: Clock, h: History, before: seq<Op>, trace: seq<Op>, people: seq<Xuid>, left: set<Xuid>, x: Xuid)
    requires PrunedSoFar(clock, h, before, trace, people, left) && x in left && x in people
    ensures PrunedSoFar(clock, h, before, trace, people, left - {x})
  {}

  lemma PruneStarts(clock: Clock, h: History, before: seq<Op>, people: seq<Xuid>)
    ensures PrunedSoFar(clock, h, before, before, people, Histories(h, before).Keys)
  {}
}
