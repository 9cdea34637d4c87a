/** What the friend syncer remembers between passes: backoffs, players whose requests wait,
    and whether the bot's own list looks full. */
module RunState {
  import opened Common
  import opened BulkAccept

  const FULL_LIST_HOLD := HOUR
  const REFUSED_BACKOFF := HOUR
  const FULL_LIST_PLAYERS := 2

  /** The rate-limit outcomes of one pass. */
  datatype Result = Result(
    readRetryAfter: Time,
    addRetryAfter: Time,
    removeRetryAfter: Time,
    accepted: nat,
    fullPlayers: seq<Xuid>,
    waits: map<Xuid, Time>,
    pendingRead: bool)

  const NO_RESULT := Result(0, 0, 0, 0, [], map[], false)

  datatype State = State(
    addRetryUntil: Option<Time>,
    removeRetryUntil: Option<Time>,
    fullPlayers: map<Xuid, Time>,
    waiting: map<Xuid, Time>,
    refusedBefore: set<Xuid>,
    recent: map<Xuid, Time>,
    started: bool,
    full: bool)

  const INITIAL := State(None, None, map[], map[], {}, map[], false, false)

  predicate Before(now: Time, t: Option<Time>) { t.Some? && now < t.value }

  /** The players whose requests wait at `now`. */
  function Skipped(s: State, now: Time): set<Xuid> {
    (set x | x in s.waiting && now < s.waiting[x]) + (set x | x in s.fullPlayers && now < s.fullPlayers[x] + FULL_LIST_HOLD)
  }

  predicate MayAdd(s: State, now: Time) { !Before(now, s.addRetryUntil) }

  predicate MayRemove(s: State, now: Time) { !Before(now, s.removeRetryUntil) }

  function Unexpired(m: map<Xuid, Time>, now: Time): map<Xuid, Time> {
    map x | x in m && now - m[x] < FULL_LIST_HOLD :: m[x]
  }

  function Stamped(xuids: seq<Xuid>, now: Time): map<Xuid, Time> { map x | x in xuids :: now }

  function Names(xuids: seq<Xuid>): set<Xuid> { set x | x in xuids }

  /** The players of `refused` that no pass refused before. */
  function Newcomers(refusedBefore: set<Xuid>, refused: seq<Xuid>, now: Time): map<Xuid, Time> {
    map x | x in refused && x !in refusedBefore :: now
  }

  function Pending(waiting: map<Xuid, Time>, now: Time): map<Xuid, Time> {
    map x | x in waiting && now < waiting[x] :: waiting[x]
  }

  function Delayed(waits: map<Xuid, Time>, now: Time): map<Xuid, Time> { map x | x in waits :: now + waits[x] }

  /** The players newly refused since the last accept; the first pass to read the list says nothing. */
  function RecentAfter(s: State, now: Time, r: Result): map<Xuid, Time> {
    if r.accepted > 0 then map[]
    else if s.started then Unexpired(s.recent, now) + Newcomers(s.refusedBefore, r.fullPlayers, now)
    else Unexpired(s.recent, now)
  }

  /** `FULL_LIST_PLAYERS` or more entries, that is, two different ones. */
  predicate LooksFull(recent: map<Xuid, Time>) { exists x, y | x in recent && y in recent :: x != y }

  lemma LooksFullIs(recent: map<Xuid, Time>)
    ensures LooksFull(recent) <==> |recent| >= FULL_LIST_PLAYERS
  {
    assert |recent| == |recent.Keys|;
    TwoOrMore(recent.Keys);
  }

  function Record(s: State, now: Time, r: Result): State {
    var recent := RecentAfter(s, now, r);
    State(
      if r.addRetryAfter > 0 then Some(now + r.addRetryAfter) else s.addRetryUntil,
      if r.removeRetryAfter > 0 then Some(now + r.removeRetryAfter) else s.removeRetryUntil,
      Unexpired(s.fullPlayers, now) + Stamped(r.fullPlayers, now),
      Pending(s.waiting, now) + Delayed(r.waits, now),
      s.refusedBefore + Names(r.fullPlayers),
      recent,
      s.started || r.pendingRead,
      LooksFull(recent))
  }

  // ----- the full flag, from the history of passes alone -----

  datatype Pass = Pass(now: Time, result: Result)

  function Run(passes: seq<Pass>): State {
    if passes == [] then INITIAL
    else Record(Run(passes[..|passes| - 1]), passes[|passes| - 1].now, passes[|passes| - 1].result)
  }

  ghost predicate ClockRuns(passes: seq<Pass>) {
    forall i, j | 0 <= i < j < |passes| :: passes[i].now <= passes[j].now
  }

  ghost predicate RefusedIn(passes: seq<Pass>, x: Xuid, k: nat) { k < |passes| && x in passes[k].result.fullPlayers }

  ghost predicate FirstRefusedIn(passes: seq<Pass>, x: Xuid, k: nat) {
    RefusedIn(passes, x, k) && forall j: nat | j < k :: !RefusedIn(passes, x, j)
  }

  ghost predicate ReadBefore(passes: seq<Pass>, k: nat) { exists j: nat :: j < k && j < |passes| && passes[j].result.pendingRead }

  ghost predicate NoAcceptSince(passes: seq<Pass>, k: nat) {
    forall m: nat | k <= m < |passes| :: passes[m].result.accepted == 0
  }

  /** Player `x` was refused for a full list for the first time ever in pass `k`, after a pass that had read the
      pending list, with no accept in that pass or since, less than an hour before the last pass. */
  ghost predicate FreshlyRefusedIn(passes: seq<Pass>, x: Xuid, k: nat) {
    && FirstRefusedIn(passes, x, k)
    && ReadBefore(passes, k)
    && NoAcceptSince(passes, k)
    && passes[|passes| - 1].now - passes[k].now < FULL_LIST_HOLD
  }

  ghost predicate FreshlyRefused(passes: seq<Pass>, x: Xuid) { exists k: nat :: FreshlyRefusedIn(passes, x, k) }

  /** How the folded state reads the history of one player. */
  ghost predicate ReadsPlayer(s: State, passes: seq<Pass>, x: Xuid) {
    && (x in s.refusedBefore <==> exists k: nat :: RefusedIn(passes, x, k))
    && (x in s.recent ==> exists k: nat :: FreshlyRefusedAt(passes, x, k, s.recent[x]))
    && (FreshlyRefused(passes, x) ==> x in s.recent)
  }

  ghost predicate FreshlyRefusedAt(passes: seq<Pass>, x: Xuid, k: nat, at: Time) {
    FreshlyRefusedIn(passes, x, k) && passes[k].now == at
  }

  ghost predicate Reads(s: State, passes: seq<Pass>) {
    && (s.started <==> ReadBefore(passes, |passes|))
    && (s.full <==> LooksFull(s.recent))
    && (forall x :: ReadsPlayer(s, passes, x))
  }

  lemma PrefixRefusals(passes: seq<Pass>, n: nat, x: Xuid)
    requires n <= |passes|
    ensures forall k: nat | k < n :: RefusedIn(passes[..n], x, k) == RefusedIn(passes, x, k)
    ensures forall k: nat | k < n :: FirstRefusedIn(passes[..n], x, k) == FirstRefusedIn(passes, x, k)
    ensures forall k: nat | k <= n :: ReadBefore(passes[..n], k) == ReadBefore(passes, k)
  {
    assert forall k: nat | k < n :: RefusedIn(passes[..n], x, k) == RefusedIn(passes, x, k);
    assert forall j: nat | j < n :: passes[..n][j] == passes[j];
  }

  /** A recent refusal before the last pass is one that was fresh then, unless that pass accepts or it is too old. */
  lemma FreshOneMore(passes: seq<Pass>, x: Xuid, k: nat)
    requires passes != [] && ClockRuns(passes)
    ensures var n := |passes| - 1;
            var last := passes[n];
            FreshlyRefusedIn(passes, x, k) <==>
              if k < n then
                FreshlyRefusedIn(passes[..n], x, k) && last.result.accepted == 0 && last.now - passes[k].now < FULL_LIST_HOLD
              else
                k == n && FirstRefusedIn(passes, x, n) && ReadBefore(passes, n) && last.result.accepted == 0
  {
    var n := |passes| - 1;
    PrefixRefusals(passes, n, x);
    if k < n {
      assert passes[..n][n - 1] == passes[n - 1];
      assert NoAcceptSince(passes, k) <==> NoAcceptSince(passes[..n], k) && passes[n].result.accepted == 0 by {
        assert forall m: nat | k <= m < n :: passes[..n][m] == passes[m];
      }
    }
  }

  lemma RefusedOneMore(passes: seq<Pass>, x: Xuid)
    requires passes != []
    ensures var n := |passes| - 1;
            (exists k: nat :: RefusedIn(passes, x, k)) <==>
              (exists k: nat :: RefusedIn(passes[..n], x, k)) || x in passes[n].result.fullPlayers
    ensures var n := |passes| - 1;
            FirstRefusedIn(passes, x, n) <==> x in passes[n].result.fullPlayers && !exists k: nat :: RefusedIn(passes[..n], x, k)
  {
    var n := |passes| - 1;
    PrefixRefusals(passes, n, x);
    assert RefusedIn(passes, x, n) <==> x in passes[n].result.fullPlayers;
    if k: nat :| RefusedIn(passes[..n], x, k) {
      assert RefusedIn(passes, x, k);
    }
  }

  /** The pass in which a player is freshly refused is unique. */
  lemma FreshOnce(passes: seq<Pass>, x: Xuid, j: nat, k: nat)
    requires FreshlyRefusedIn(passes, x, j) && FreshlyRefusedIn(passes, x, k)
    ensures j == k
  {}

  lemma RecentIs(s: State, now: Time, r: Result, x: Xuid)
    ensures var after := Record(s, now, r).recent;
            var newcomer := s.started && r.accepted == 0 && x in r.fullPlayers && x !in s.refusedBefore;
            var kept := r.accepted == 0 && x in s.recent && now - s.recent[x] < FULL_LIST_HOLD;
            && (x in after <==> newcomer || kept)
            && (newcomer ==> after[x] == now)
            && (kept && !newcomer ==> after[x] == s.recent[x])
  {}

  lemma {:induction false} RecentlyRefusedStays(passes: seq<Pass>, x: Xuid)
    requires passes != [] && ClockRuns(passes)
    requires var n := |passes| - 1; ReadsPlayer(Run(passes[..n]), passes[..n], x)
    requires var n := |passes| - 1; Run(passes[..n]).started <==> ReadBefore(passes[..n], n)
    ensures x in Run(passes).recent ==> exists k: nat :: FreshlyRefusedAt(passes, x, k, Run(passes).recent[x])
  {
    var n := |passes| - 1;
    var front, before, last := passes[..n], Run(passes[..n]), passes[n];
    RecentIs(before, last.now, last.result, x);
    if x in Run(passes).recent {
      if x in last.result.fullPlayers && x !in before.refusedBefore && before.started {
        RefusedOneMore(passes, x);
        PrefixRefusals(passes, n, x);
        FreshOneMore(passes, x, n);
        assert FreshlyRefusedAt(passes, x, n, last.now);
      } else {
        var k: nat :| FreshlyRefusedAt(front, x, k, before.recent[x]);
        FreshOneMore(passes, x, k);
        assert k < n && front[k] == passes[k];
        assert FreshlyRefusedAt(passes, x, k, before.recent[x]);
      }
    }
  }

  lemma {:induction false} FreshlyRefusedIsRecent(passes: seq<Pass>, x: Xuid, k: nat)
    requires passes != [] && ClockRuns(passes)
    requires var n := |passes| - 1; ReadsPlayer(Run(passes[..n]), passes[..n], x)
    requires var n := |passes| - 1; Run(passes[..n]).started <==> ReadBefore(passes[..n], n)
    requires FreshlyRefusedIn(passes, x, k)
    ensures x in Run(passes).recent
  {
    var n := |passes| - 1;
    var front, before, last := passes[..n], Run(passes[..n]), passes[n];
    RecentIs(before, last.now, last.result, x);
    FreshOneMore(passes, x, k);
    if k < n {
      assert FreshlyRefused(front, x);
      var j: nat :| FreshlyRefusedAt(front, x, j, before.recent[x]);
      FreshOnce(front, x, j, k);
      assert front[k] == passes[k];
    } else {
      RefusedOneMore(passes, x);
      PrefixRefusals(passes, n, x);
    }
  }

  lemma {:induction false} ReadsPlayerOneMore(passes: seq<Pass>, x: Xuid)
    requires passes != [] && ClockRuns(passes)
    requires var n := |passes| - 1; ReadsPlayer(Run(passes[..n]), passes[..n], x)
    requires var n := |passes| - 1; Run(passes[..n]).started <==> ReadBefore(passes[..n], n)
    ensures ReadsPlayer(Run(passes), passes, x)
  {
    RefusedOneMore(passes, x);
    RecentlyRefusedStays(passes, x);
    if k: nat :| FreshlyRefusedIn(passes, x, k) {
      FreshlyRefusedIsRecent(passes, x, k);
    }
  }

  lemma {:induction false} RunReadsHistory(passes: seq<Pass>)
    requires ClockRuns(passes)
    ensures Reads(Run(passes), passes)
  {
    if passes == [] {
      assert forall x: Xuid, k: nat :: !RefusedIn(passes, x, k);
    } else {
      var n := |passes| - 1;
      RunReadsHistory(passes[..n]);
      StartedIs(passes);
      forall x: Xuid ensures ReadsPlayer(Run(passes), passes, x) {
        assert ReadsPlayer(Run(passes[..n]), passes[..n], x);
        ReadsPlayerOneMore(passes, x);
      }
    }
  }

  lemma StartedIs(passes: seq<Pass>)
    requires passes != []
    ensures var n := |passes| - 1;
            ReadBefore(passes, |passes|) <==> ReadBefore(passes[..n], n) || passes[n].result.pendingRead
  {
    var n := |passes| - 1;
    assert forall j: nat | j < n :: passes[..n][j] == passes[j];
  }

  lemma TwoOrMore<T>(s: set<T>)
    ensures |s| >= 2 <==> exists x, y :: x in s && y in s && x != y
  {
    if |s| >= 2 {
      var x :| x in s;
      var rest := s - {x};
      assert |rest| >= 1;
      var y :| y in rest;
      assert x in s && y in s && x != y;
    }
    if x, y :| x in s && y in s && x != y {
      assert {x, y} <= s;
      SubsetSize({x, y}, s);
    }
  }

  lemma {:induction false} SubsetSize<T>(a: set<T>, b: set<T>)
    requires a <= b
    ensures |a| <= |b|
  {
    assert b == a + (b - a);
  }

  /** After any history of passes, the bot's own list is reported full exactly when
      two different players count as freshly refused. */
  lemma FullIff(passes: seq<Pass>)
    requires ClockRuns(passes)
    ensures Run(passes).full <==> exists x, y :: x != y && FreshlyRefused(passes, x) && FreshlyRefused(passes, y)
  {
    RunReadsHistory(passes);
    var s := Run(passes);
    forall x ensures x in s.recent.Keys <==> FreshlyRefused(passes, x) {
      assert ReadsPlayer(s, passes, x);
    }
  }

  // ----- holds -----

  /** `x` is held until `t` or later. */
  ghost predicate HeldUntil(s: State, x: Xuid, t: Time) {
    (x in s.waiting && s.waiting[x] >= t) || (x in s.fullPlayers && s.fullPlayers[x] + FULL_LIST_HOLD >= t)
  }

  lemma HeldIsSkipped(s: State, x: Xuid, t: Time, now: Time)
    requires HeldUntil(s, x, t) && now < t
    ensures x in Skipped(s, now)
  {}

  /** A pass that did not ask about a held player shortens no hold that outlasts it. */
  lemma RecordKeepsHold(s: State, now: Time, r: Result, x: Xuid, t: Time)
    requires HeldUntil(s, x, t) && now < t
    requires x !in r.waits && x !in r.fullPlayers
    ensures HeldUntil(Record(s, now, r), x, t)
  {}

  lemma RecordHolds(s: State, now: Time, r: Result, x: Xuid)
    ensures x in r.fullPlayers ==> HeldUntil(Record(s, now, r), x, now + FULL_LIST_HOLD)
    ensures x in r.waits ==> HeldUntil(Record(s, now, r), x, now + r.waits[x])
  {}
}
