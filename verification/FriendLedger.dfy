/** What the friend syncer keeps about its friends: a count that stands in for the list's size, and a file of the
    whole seconds at which players were last seen. Both are followed over the trace of everything that touches them. */
module FriendLedger {
  import opened Common
  import opened BulkAccept

  const DEFAULT_EXPIRY_DAYS := 15
  const COUNT_REFRESH := 30 * MINUTE
  const COUNT_RETRY := 5 * MINUTE

  /** `countedAt` is the last full list, `retryAfter` the end of the wait after a failed one. */
  datatype Count = Count(friends: int, countedAt: Option<Time>, retryAfter: Option<Time>)

  const UNCOUNTED := Count(0, None, None)

  function Adjusted(c: Count, delta: int): Count {
    if c.countedAt.Some? then c.(friends := Max(c.friends + delta, 0)) else c
  }

  predicate NeedsList(c: Count, expiryOn: bool, now: Time) {
    && !(c.retryAfter.Some? && now < c.retryAfter.value)
    && (c.countedAt.None? || (!expiryOn && now - c.countedAt.value > COUNT_REFRESH))
  }

  /** A reading of the clock: the instant and the Unix second that it falls in, which is what the file keeps. */
  datatype Reading = Reading(time: Time, second: int)

  function FromUnix(second: int): Time { second * 1_000_000_000 }

  predicate FallsIn(t: Time, second: int) { FromUnix(second) <= t < FromUnix(second + 1) }

  /** The Unix second of an instant, rounded down. */
  function Seconds(t: Time): int { t / 1_000_000_000 }

  lemma SecondIs(t: Time, second: int)
    requires FallsIn(t, second)
    ensures second == Seconds(t)
  {}

  function Days(n: int): Time { n * 86_400_000_000_000 }

  function Window(days: int): Time { Days(if days <= 0 then DEFAULT_EXPIRY_DAYS else days) }

  type History = map<Xuid, int>

  /** Last seen in that second, before the window that ends at `now`. */
  predicate Inactive(seconds: int, now: Time, days: int) { FromUnix(seconds) < now - Window(days) }

  predicate Stale(h: History, x: Xuid, now: Time, days: int) { x in h && Inactive(h[x], now, days) }

  /** One step that reads the clock, or reads or changes the list, the count or the file; `ok` is whether the service
      or the file obliged. `Saw` is a sighting that the syncer records and `Joined` one that the relay does, which may be
      `during` a pass. `Lost` is the file going missing. */
  datatype Op =
    | Read(at: Time)
    | Saw(x: Xuid, at: Time, second: int, ok: bool)
    | Joined(x: Xuid, at: Time, second: int, ok: bool, during: bool)
    | Gained(x: Xuid, at: Time)
    | Declined(x: Xuid, at: Time)
    | Counted(people: seq<Xuid>, at: Time)
    | ListFailed(at: Time)
    | Looked(x: Xuid, at: Time, ok: bool)
    | Removed(x: Xuid, at: Time, ok: bool)
    | Cleared(x: Xuid, at: Time, ok: bool)
    | Lost(at: Time)

  function CountAfter(c: Count, op: Op): Count {
    match op
    case Gained(_, _) => Adjusted(c, 1)
    case Removed(_, _, true) => Adjusted(c, -1)
    case Counted(people, at) => c.(friends := |people|, countedAt := Some(at))
    case ListFailed(at) => c.(retryAfter := Some(at + COUNT_RETRY))
    case _ => c
  }

  function HistoryAfter(h: History, op: Op): History {
    match op
    case Saw(x, _, second, true) => h[x := second]
    case Joined(x, _, second, true, _) => h[x := second]
    case Cleared(x, _, true) => h - {x}
    case Lost(_) => map[]
    case _ => h
  }

  /** The bot's true friend list, which only its own accepted adds and removals change. */
  function ListAfter(list: set<Xuid>, op: Op): set<Xuid> {
    match op
    case Gained(x, _) => list + {x}
    case Removed(x, _, true) => list - {x}
    case _ => list
  }

  function Counts(c: Count, trace: seq<Op>): Count {
    if trace == [] then c else CountAfter(Counts(c, trace[..|trace| - 1]), trace[|trace| - 1])
  }

  function Histories(h: History, trace: seq<Op>): History {
    if trace == [] then h else HistoryAfter(Histories(h, trace[..|trace| - 1]), trace[|trace| - 1])
  }

  function Lists(list: set<Xuid>, trace: seq<Op>): set<Xuid> {
    if trace == [] then list else ListAfter(Lists(list, trace[..|trace| - 1]), trace[|trace| - 1])
  }

  predicate IsSighting(op: Op) { op.Saw? || op.Joined? }

  ghost predicate ClockRuns(trace: seq<Op>) {
    && (forall i, j | 0 <= i < j < |trace| :: trace[i].at <= trace[j].at)
    && (forall i | 0 <= i < |trace| && IsSighting(trace[i]) :: FallsIn(trace[i].at, trace[i].second))
  }

  // ----- the count is the list's size -----

  /** The service tells the truth: an accepted player was not a friend yet, a removed one was, and a listing
      names every friend once. */
  ghost predicate Truthful(list: set<Xuid>, op: Op) {
    match op
    case Gained(x, _) => x !in list
    case Removed(x, _, true) => x in list
    case Counted(people, _) => NoDuplicates(people) && (forall x :: x in people <==> x in list)
    case _ => true
  }

  ghost predicate TruthfulAt(list: set<Xuid>, trace: seq<Op>, k: nat)
    requires k < |trace|
  {
    Truthful(Lists(list, trace[..k]), trace[k])
  }

  ghost predicate Honest(list: set<Xuid>, trace: seq<Op>) { forall k: nat | k < |trace| :: TruthfulAt(list, trace, k) }

  lemma {:induction false} DistinctSize(s: seq<Xuid>, names: set<Xuid>)
    requires NoDuplicates(s) && forall x :: x in s <==> x in names
    ensures |s| == |names|
  {
    if s == [] {
      assert names == {};
    } else {
      var last := s[|s| - 1];
      assert forall x :: x in s[..|s| - 1] <==> x in names - {last};
      DistinctSize(s[..|s| - 1], names - {last});
    }
  }

  ghost predicate EverCounted(trace: seq<Op>) { exists i | 0 <= i < |trace| :: trace[i].Counted? }

  lemma EverCountedOneMore(trace: seq<Op>)
    requires trace != []
    ensures EverCounted(trace) <==> EverCounted(trace[..|trace| - 1]) || trace[|trace| - 1].Counted?
  {
    var n := |trace| - 1;
    assert forall i | 0 <= i < n :: trace[..n][i] == trace[i];
  }

  lemma CountFollows(c: Count, list: set<Xuid>, op: Op)
    requires Truthful(list, op) && (c.countedAt.Some? ==> c.friends == |list|)
    ensures CountAfter(c, op).countedAt.Some? ==> CountAfter(c, op).friends == |ListAfter(list, op)|
    ensures op.Removed? && op.ok && c.countedAt.Some? ==> c.friends >= 1
  {
    if op.Counted? {
      DistinctSize(op.people, list);
    }
  }

  /** From the first full list on, the count is the size of the true list after every step; before it there is none. */
  lemma {:induction false} CountIsListSize(list: set<Xuid>, trace: seq<Op>)
    requires Honest(list, trace)
    ensures var c := Counts(UNCOUNTED, trace);
            && (c.countedAt.Some? <==> EverCounted(trace))
            && (EverCounted(trace) ==> c.friends == |Lists(list, trace)|)
  {
    if trace != [] {
      var front := trace[..|trace| - 1];
      HonestPrefix(list, trace, |front|);
      CountIsListSize(list, front);
      assert TruthfulAt(list, trace, |front|);
      EverCountedOneMore(trace);
      CountFollows(Counts(UNCOUNTED, front), Lists(list, front), trace[|trace| - 1]);
    }
  }

  lemma HonestPrefix(list: set<Xuid>, trace: seq<Op>, n: nat)
    requires n <= |trace| && Honest(list, trace)
    ensures Honest(list, trace[..n])
  {
    forall k: nat | k < n ensures TruthfulAt(list, trace[..n], k) {
      assert trace[..n][..k] == trace[..k];
      assert TruthfulAt(list, trace, k);
    }
  }

  /** The clamp at zero never acts: no removal meets a count below one. */
  lemma ClampNeverActs(list: set<Xuid>, trace: seq<Op>, n: nat)
    requires Honest(list, trace) && n < |trace| && trace[n].Removed? && trace[n].ok
    ensures var c := Counts(UNCOUNTED, trace[..n]);
            c.countedAt.Some? ==> c.friends >= 1 && CountAfter(c, trace[n]).friends == c.friends - 1
  {
    HonestPrefix(list, trace, n);
    CountIsListSize(list, trace[..n]);
    assert TruthfulAt(list, trace, n);
    CountFollows(Counts(UNCOUNTED, trace[..n]), Lists(list, trace[..n]), trace[n]);
  }

  /** When the list was last counted, and when counting it last failed. */
  function LastCounted(trace: seq<Op>): Option<Time> {
    if trace == [] then None
    else if trace[|trace| - 1].Counted? then Some(trace[|trace| - 1].at)
    else LastCounted(trace[..|trace| - 1])
  }

  function LastFailed(trace: seq<Op>): Option<Time> {
    if trace == [] then None
    else if trace[|trace| - 1].ListFailed? then Some(trace[|trace| - 1].at)
    else LastFailed(trace[..|trace| - 1])
  }

  lemma {:induction false} CountTimes(trace: seq<Op>)
    ensures var c := Counts(UNCOUNTED, trace);
            && c.countedAt == LastCounted(trace)
            && c.retryAfter == if LastFailed(trace).Some? then Some(LastFailed(trace).value + 5 * MINUTE) else None
  {
    if trace != [] {
      CountTimes(trace[..|trace| - 1]);
    }
  }

  /** A list is wanted for the count exactly if the last failure to get one is five minutes ago or more, and there is no count yet or, without
      expiry, the last one is more than half an hour old. */
  lemma NeedsListIff(trace: seq<Op>, expiryOn: bool, now: Time)
    ensures NeedsList(Counts(UNCOUNTED, trace), expiryOn, now) <==>
            && (LastFailed(trace).Some? ==> now >= LastFailed(trace).value + 5 * MINUTE)
            && (LastCounted(trace).None? || (!expiryOn && now - LastCounted(trace).value > 30 * MINUTE))
  {
    CountTimes(trace);
  }

  // ----- nobody is removed for inactivity before the window is over -----

  predicate Sees(op: Op, x: Xuid) { IsSighting(op) && op.x == x && op.ok }

  /** Step `i` starts player `x`'s clock: it records a sighting, or leaves the file without an entry. */
  ghost predicate Restarts(h: History, trace: seq<Op>, i: nat, x: Xuid)
    requires i < |trace|
  {
    Sees(trace[i], x) || x !in Histories(h, trace[..i + 1])
  }

  lemma SecondsGrow(a: Time, b: Time)
    requires a <= b
    ensures Seconds(a) <= Seconds(b)
  {}

  lemma {:induction false} EntryIsNoOlder(h: History, trace: seq<Op>, i: nat, n: nat, x: Xuid)
    requires ClockRuns(trace) && i < n <= |trace| && Restarts(h, trace, i, x)
    ensures x in Histories(h, trace[..n]) ==> Histories(h, trace[..n])[x] >= Seconds(trace[i].at)
    decreases n
  {
    assert trace[..n][..n - 1] == trace[..n - 1];
    if n > i + 1 {
      EntryIsNoOlder(h, trace, i, n - 1, x);
      SecondsGrow(trace[i].at, trace[n - 1].at);
    }
    if IsSighting(trace[n - 1]) {
      SecondIs(trace[n - 1].at, trace[n - 1].second);
    }
  }

  /** Step `l` is the look that led to the removal at step `j`: nothing but joins comes between them. */
  ghost predicate LookFor(trace: seq<Op>, l: nat, j: nat, x: Xuid) {
    && l < j < |trace|
    && trace[l] == Looked(x, trace[l].at, true)
    && trace[j] == Removed(x, trace[j].at, true)
    && (forall m | l < m < j :: JoinsDuring(trace[m]))
  }

  predicate JoinsDuring(op: Op) { op.Joined? && op.during }

  /** Every removal follows a look that found a stale entry. */
  ghost predicate Disciplined(h: History, trace: seq<Op>, days: int) {
    forall j: nat | j < |trace| && trace[j].Removed? && trace[j].ok :: Justified(h, trace, j, days)
  }

  ghost predicate JustifiedBy(h: History, trace: seq<Op>, l: nat, j: nat, days: int)
    requires j < |trace| && trace[j].Removed?
  {
    LookFor(trace, l, j, trace[j].x) && Stale(Histories(h, trace[..l]), trace[j].x, trace[l].at, days)
  }

  ghost predicate Justified(h: History, trace: seq<Op>, j: nat, days: int)
    requires j < |trace| && trace[j].Removed?
  {
    exists l: nat :: JustifiedBy(h, trace, l, j, days)
  }

  lemma LookIsUnique(trace: seq<Op>, l: nat, m: nat, j: nat, x: Xuid)
    requires LookFor(trace, l, j, x) && LookFor(trace, m, j, x)
    ensures l == m
  {}

  /** In every run, whatever joins, losses and failures mix into it: a friend is removed only when the look that led
      to it came more than the window after every sighting recorded before that look, to the second;
      and a lost entry counts as a sighting at the time it was lost. */
  lemma RemovedOnlyWhenStale(h: History, trace: seq<Op>, i: nat, l: nat, j: nat, x: Xuid, days: int)
    requires ClockRuns(trace) && Disciplined(h, trace, days)
    requires LookFor(trace, l, j, x) && i < l && Restarts(h, trace, i, x)
    ensures trace[j].at >= trace[l].at > FromUnix(Seconds(trace[i].at)) + Window(days)
  {
    assert Justified(h, trace, j, days);
    var m: nat :| JustifiedBy(h, trace, m, j, days);
    LookIsUnique(trace, l, m, j, x);
    EntryIsNoOlder(h, trace, i, l, x);
  }

  ghost predicate SeenBetween(trace: seq<Op>, l: nat, j: nat, x: Xuid)
    requires j <= |trace|
  {
    exists i: nat | l < i < j :: Sees(trace[i], x)
  }

  ghost predicate UnseenForWindow(trace: seq<Op>, j: nat, x: Xuid, days: int)
    requires j < |trace|
  {
    forall i: nat | i < j && Sees(trace[i], x) ::
      trace[j].at > FromUnix(Seconds(trace[i].at)) + Window(days)
  }

  /** A removal that follows its look within the window, less a second, respects every sighting recorded before it
      exactly when none was recorded between the look and the removal. */
  lemma RemovalRespectsSightingsIff(h: History, trace: seq<Op>, l: nat, j: nat, x: Xuid, days: int)
    requires ClockRuns(trace) && Disciplined(h, trace, days) && LookFor(trace, l, j, x)
    requires trace[j].at <= trace[l].at + Window(days) - SECOND
    ensures UnseenForWindow(trace, j, x, days) <==> !SeenBetween(trace, l, j, x)
  {
    if SeenBetween(trace, l, j, x) {
      var i: nat :| l < i < j && Sees(trace[i], x);
      assert trace[l].at <= trace[i].at;
      RoundedDown(trace[i].at);
    } else {
      forall i: nat | i < j && Sees(trace[i], x)
        ensures trace[j].at > FromUnix(Seconds(trace[i].at)) + Window(days)
      {
        assert i < l;
        RemovedOnlyWhenStale(h, trace, i, l, j, x, days);
      }
    }
  }

  lemma RoundedDown(t: Time)
    ensures t - SECOND < FromUnix(Seconds(t)) <= t
  {}

  ghost predicate IsRemoval(trace: seq<Op>, j: nat, x: Xuid) { j < |trace| && trace[j] == Removed(x, trace[j].at, true) }

  /** Every removal has a look of its own, and comes more than the window after every sighting recorded before it, unless a
      sighting was recorded between the look and the removal. */
  lemma RemovedUnlessSeenBetween(h: History, trace: seq<Op>, j: nat, x: Xuid, days: int) returns (l: nat)
    requires ClockRuns(trace) && Disciplined(h, trace, days) && IsRemoval(trace, j, x)
    ensures LookFor(trace, l, j, x)
    ensures UnseenForWindow(trace, j, x, days) || SeenBetween(trace, l, j, x)
  {
    assert Justified(h, trace, j, days);
    l :| JustifiedBy(h, trace, l, j, days);
    if !SeenBetween(trace, l, j, x) {
      forall i: nat | i < j && Sees(trace[i], x)
        ensures trace[j].at > FromUnix(Seconds(trace[i].at)) + Window(days)
      {
        assert i < l;
        RemovedOnlyWhenStale(h, trace, i, l, j, x, days);
      }
    }
  }
}
