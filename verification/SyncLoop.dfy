/** The loop that spaces sync passes: social events through a one-slot channel, polling, expiry and a single timer. */
module SyncLoop {
  import opened Common

  /** The intervals, already raised to the minimum, and whether friends are expired at all. */
  datatype Config = Config(interval: Time, expiryInterval: Time, expiryEnabled: bool)

  predicate Spaced(cfg: Config) { cfg.interval >= MIN_UPDATE_INTERVAL && cfg.expiryInterval >= MIN_UPDATE_INTERVAL }

  function ConfigOf(updateInterval: Time, expiryCheck: Time, expiryEnabled: bool): (cfg: Config)
    ensures Spaced(cfg) && cfg.expiryEnabled == expiryEnabled
    ensures cfg.interval == if updateInterval < 20 * SECOND then 20 * SECOND else updateInterval
    ensures cfg.expiryInterval == if expiryCheck < 20 * SECOND then 20 * SECOND else expiryCheck
  {
    Config(Max(updateInterval, MIN_UPDATE_INTERVAL), Max(expiryCheck, MIN_UPDATE_INTERVAL), expiryEnabled)
  }

  /** `nextScan` is the earliest next pass, `armed` when the timer fires, `slot` whether the channel holds a token,
      and `listening` whether the channel is still read. */
  datatype State = State(
    pending: bool,
    expire: bool,
    nextScan: Option<Time>,
    nextPoll: Time,
    nextExpiry: Time,
    armed: Time,
    slot: bool,
    listening: bool)

  function Started(now: Time, listening: bool): State { State(true, true, None, now, now, now, false, listening) }

  datatype Cause = Timer | Token | Closed

  /** `Woken` reads the clock at `now`; if it starts a pass, that pass begins at `start` or later, ends at `end` and is asked for
      `delay` before reading again. */
  datatype Event = Signal | Woken(cause: Cause, now: Time, start: Time, end: Time, delay: Time)

  predicate Permitted(s: State, t: Time) { s.nextScan.None? || t >= s.nextScan.value }

  /** Something is due at `t`. */
  predicate Owed(cfg: Config, s: State, t: Time) {
    s.pending || t >= s.nextPoll || (cfg.expiryEnabled && t >= s.nextExpiry)
  }

  /** A wake at `t`, whatever its cause, would start a pass. */
  predicate WouldPass(cfg: Config, s: State, t: Time) { Owed(cfg, s, t) && Permitted(s, t) }

  // ----- one iteration, as the loop runs it -----

  function Received(s: State, cause: Cause): State {
    match cause
    case Timer => s
    case Token => s.(slot := false, pending := true)
    case Closed => s.(listening := false)
  }

  function Noticed(cfg: Config, s: State, now: Time): State {
    var polled := s.(pending := s.pending || now >= s.nextPoll);
    if cfg.expiryEnabled && now >= s.nextExpiry then polled.(pending := true, expire := true) else polled
  }

  function Passed(cfg: Config, s: State, end: Time, delay: Time): State {
    var spaced := s.(nextScan := Some(end + Max(MIN_UPDATE_INTERVAL, delay)), nextPoll := end + cfg.interval, pending := delay > 0);
    if delay > 0 then spaced
    else spaced.(expire := false, nextExpiry := if s.expire then end + cfg.expiryInterval else s.nextExpiry)
  }

  function NextWake(cfg: Config, s: State): Time {
    var due := if cfg.expiryEnabled && s.nextExpiry < s.nextPoll then s.nextExpiry else s.nextPoll;
    if s.nextScan.Some? && (s.pending || due < s.nextScan.value) then s.nextScan.value else due
  }

  /** The state just before the decision to pass. */
  function Deciding(cfg: Config, s: State, e: Event): State
    requires e.Woken?
  {
    Noticed(cfg, Received(s, e.cause), e.now)
  }

  predicate StartsPass(cfg: Config, s: State, e: Event) {
    e.Woken? && Deciding(cfg, s, e).pending && Permitted(Deciding(cfg, s, e), e.now)
  }

  /** What is left of the iteration when the timer is set again. */
  function Settled(cfg: Config, s: State, e: Event): State
    requires e.Woken?
  {
    var d := Deciding(cfg, s, e);
    if StartsPass(cfg, s, e) then Passed(cfg, d, e.end, e.delay) else d
  }

  function Step(cfg: Config, s: State, e: Event): State {
    match e
    case Signal => s.(slot := true)
    case Woken(_, _, _, _, _) => var after := Settled(cfg, s, e); after.(armed := NextWake(cfg, after))
  }

  /** The timer fires no sooner than armed, and a token is received before the channel is found closed. Only a
      pass takes time. */
  predicate Enabled(cfg: Config, s: State, e: Event) {
    match e
    case Signal => s.listening
    case Woken(cause, now, start, end, _) =>
      && now <= start <= end && (StartsPass(cfg, s, e) || now == end)
      && CanWake(s, cause, now)
  }

  /** What can wake the loop so that it reads the clock at `now`. */
  predicate CanWake(s: State, cause: Cause, now: Time) {
    match cause
    case Timer => now >= s.armed
    case Token => s.listening && s.slot
    case Closed => s.listening && !s.slot
  }

  /** What the loop knows and where its clock stands. */
  datatype Moment = Moment(state: State, reading: Time)

  function Run(cfg: Config, m: Moment, trace: seq<Event>): Moment {
    if trace == [] then m else
      var before, e := Run(cfg, m, trace[..|trace| - 1]), trace[|trace| - 1];
      Moment(Step(cfg, before.state, e), if e.Woken? then e.end else before.reading)
  }

  function Begun(now: Time, listening: bool): Moment { Moment(Started(now, listening), now) }

  /** What step `k` of the trace finds. */
  function At(cfg: Config, began: Moment, trace: seq<Event>, k: nat): Moment
    requires k <= |trace|
  {
    Run(cfg, began, trace[..k])
  }

  /** Step `k` can happen, and the clock does not go back. */
  ghost predicate Allowed(cfg: Config, began: Moment, trace: seq<Event>, k: nat)
    requires k < |trace|
  {
    var m := At(cfg, began, trace, k);
    Enabled(cfg, m.state, trace[k]) && (trace[k].Woken? ==> m.reading <= trace[k].now)
  }

  ghost predicate IsRun(cfg: Config, began: Moment, trace: seq<Event>) {
    && Spaced(cfg)
    && (exists now, listening :: began == Begun(now, listening))
    && forall k: nat | k < |trace| :: Allowed(cfg, began, trace, k)
  }

  predicate IsPass(cfg: Config, began: Moment, trace: seq<Event>, k: nat)
    requires k < |trace|
  {
    StartsPass(cfg, At(cfg, began, trace, k).state, trace[k])
  }

  /** The passes that a trace starts, in order. */
  function Passes(cfg: Config, began: Moment, trace: seq<Event>): seq<Event> {
    if trace == [] then [] else
      var front, last := trace[..|trace| - 1], trace[|trace| - 1];
      Passes(cfg, began, front) + if StartsPass(cfg, Run(cfg, began, front).state, last) then [last] else []
  }

  lemma AtOneMore(cfg: Config, began: Moment, trace: seq<Event>, k: nat)
    requires k < |trace|
    ensures At(cfg, began, trace, k + 1) ==
            Moment(Step(cfg, At(cfg, began, trace, k).state, trace[k]),
                   if trace[k].Woken? then trace[k].end else At(cfg, began, trace, k).reading)
  {
    assert trace[..k + 1][..k] == trace[..k];
  }

  // ----- the timer -----

  /** The timer is armed for the very first instant at which a wake would start a pass, and that instant is still to come. */
  ghost predicate WellArmed(cfg: Config, m: Moment) {
    m.state.armed > m.reading && forall t :: WouldPass(cfg, m.state, t) <==> t >= m.state.armed
  }

  /** Before the first wake the timer is due at once, and any wake starts a pass. */
  predicate Fresh(m: Moment) { m.state.pending && m.state.nextScan.None? }

  lemma StepArms(cfg: Config, s: State, e: Event)
    requires Spaced(cfg) && e.Woken? && Enabled(cfg, s, e)
    requires s.nextScan.None? ==> s.pending
    ensures WellArmed(cfg, Moment(Step(cfg, s, e), e.end)) && Step(cfg, s, e).nextScan.Some?
  {}

  /** In every run of the loop, from the first wake on, the timer is armed for exactly the earliest
      instant at which a pass is due and permitted, strictly later than the clock reading used. */
  lemma {:induction false} TimerIsExact(cfg: Config, began: Moment, trace: seq<Event>, k: nat)
    requires IsRun(cfg, began, trace) && k <= |trace|
    ensures var m := At(cfg, began, trace, k);
            if exists i | 0 <= i < k :: trace[i].Woken? then WellArmed(cfg, m) && m.state.nextScan.Some? else Fresh(m)
  {
    if k > 0 {
      TimerIsExact(cfg, began, trace, k - 1);
      AtOneMore(cfg, began, trace, k - 1);
      assert Allowed(cfg, began, trace, k - 1);
      var s := At(cfg, began, trace, k - 1).state;
      if trace[k - 1].Woken? {
        StepArms(cfg, s, trace[k - 1]);
      } else {
        assert forall t :: WouldPass(cfg, s, t) == WouldPass(cfg, s.(slot := true), t);
      }
    }
  }

  /** Every time the timer fires, a pass starts. */
  lemma TimerWakePasses(cfg: Config, began: Moment, trace: seq<Event>, k: nat)
    requires IsRun(cfg, began, trace) && k < |trace| && trace[k].Woken? && trace[k].cause == Timer
    ensures IsPass(cfg, began, trace, k)
  {
    TimerIsExact(cfg, began, trace, k);
    assert Allowed(cfg, began, trace, k);
    var m := At(cfg, began, trace, k);
    assert WouldPass(cfg, m.state, trace[k].now);
  }

  /** No run of the loop is stuck: its timer may fire at any moment from the armed one on, and starts a pass that takes any time. */
  lemma LoopGoesOn(cfg: Config, began: Moment, trace: seq<Event>, e: Event)
    requires IsRun(cfg, began, trace) && e.Woken? && e.cause == Timer && e.now <= e.start <= e.end
    requires e.now >= At(cfg, began, trace, |trace|).state.armed && e.now >= At(cfg, began, trace, |trace|).reading
    ensures IsRun(cfg, began, trace + [e]) && IsPass(cfg, began, trace + [e], |trace|)
  {
    var more, m := trace + [e], At(cfg, began, trace, |trace|);
    TimerIsExact(cfg, began, trace, |trace|);
    assert more[..|trace|] == trace[..|trace|];
    assert WouldPass(cfg, m.state, e.now);
    forall k: nat | k < |more| ensures Allowed(cfg, began, more, k) {
      assert more[..k] == trace[..k];
      assert k < |trace| ==> Allowed(cfg, began, trace, k);
    }
  }

  // ----- spacing -----

  lemma {:induction false} NextScanGrows(cfg: Config, began: Moment, trace: seq<Event>, k: nat, n: nat)
    requires IsRun(cfg, began, trace) && k < n <= |trace| && IsPass(cfg, began, trace, k)
    ensures var s := At(cfg, began, trace, n).state;
            s.nextScan.Some? && s.nextScan.value >= trace[k].end + Max(MIN_UPDATE_INTERVAL, trace[k].delay)
    decreases n
  {
    AtOneMore(cfg, began, trace, n - 1);
    if n > k + 1 {
      NextScanGrows(cfg, began, trace, k, n - 1);
      assert Allowed(cfg, began, trace, n - 1);
    }
  }

  /** In every run, a pass starts no sooner than twenty seconds, and no sooner than the delay asked for, after
      the end of every pass before it. */
  lemma PassesAreSpaced(cfg: Config, began: Moment, trace: seq<Event>, k: nat, n: nat)
    requires IsRun(cfg, began, trace) && k < n < |trace|
    requires IsPass(cfg, began, trace, k) && IsPass(cfg, began, trace, n)
    ensures trace[n].start >= trace[k].end + MIN_UPDATE_INTERVAL && trace[n].start >= trace[k].end + trace[k].delay
  {
    NextScanGrows(cfg, began, trace, k, n);
    assert Allowed(cfg, began, trace, n);
  }

  // ----- no event is lost -----

  ghost predicate NoPass(cfg: Config, began: Moment, trace: seq<Event>, i: nat, n: nat)
    requires n <= |trace|
  {
    forall k: nat | i <= k < n :: !IsPass(cfg, began, trace, k)
  }

  /** Until a pass starts, an event stays owed: its token is in the channel, or a pass is pending. */
  lemma {:induction false} EventStaysOwed(cfg: Config, began: Moment, trace: seq<Event>, i: nat, n: nat)
    requires IsRun(cfg, began, trace) && i < n <= |trace| && trace[i] == Signal && NoPass(cfg, began, trace, i, n)
    ensures var s := At(cfg, began, trace, n).state;
            (s.slot && s.listening) || s.pending
    decreases n
  {
    AtOneMore(cfg, began, trace, n - 1);
    assert Allowed(cfg, began, trace, n - 1);
    assert !IsPass(cfg, began, trace, n - 1);
    if n > i + 1 {
      EventStaysOwed(cfg, began, trace, i, n - 1);
    }
  }

  /** A social event, coalesced or not, is answered by a pass of its own time: as long as none has started since the
      event, the next wake by the timer starts one; and a wake by a token starts one if passes are permitted, and otherwise
      leaves the timer armed for the very moment they are. */
  lemma EventIsServed(cfg: Config, began: Moment, trace: seq<Event>, i: nat, n: nat)
    requires IsRun(cfg, began, trace) && i < n < |trace| && trace[i] == Signal && NoPass(cfg, began, trace, i, n)
    requires trace[n].Woken?
    ensures trace[n].cause == Timer ==> IsPass(cfg, began, trace, n)
    ensures trace[n].cause == Token ==>
              (IsPass(cfg, began, trace, n) <==> Permitted(At(cfg, began, trace, n).state, trace[n].now))
    ensures !IsPass(cfg, began, trace, n) ==>
              var after := At(cfg, began, trace, n + 1).state;
              after.pending && after.nextScan == Some(after.armed)
  {
    if trace[n].cause == Timer {
      TimerWakePasses(cfg, began, trace, n);
    }
    EventStaysOwed(cfg, began, trace, i, n);
    TimerIsExact(cfg, began, trace, n);
    AtOneMore(cfg, began, trace, n);
    assert Allowed(cfg, began, trace, n);
  }

  /** A pending pass keeps the timer armed for the same moment until it starts. */
  lemma {:induction false} PendingStaysArmed(cfg: Config, began: Moment, trace: seq<Event>, n: nat, m: nat)
    requires IsRun(cfg, began, trace) && n <= m <= |trace| && NoPass(cfg, began, trace, n, m)
    requires var s := At(cfg, began, trace, n).state; s.pending && s.nextScan == Some(s.armed)
    ensures var s := At(cfg, began, trace, m).state;
            s.pending && s.nextScan == Some(s.armed) && s.armed == At(cfg, began, trace, n).state.armed
    decreases m
  {
    if m > n {
      PendingStaysArmed(cfg, began, trace, n, m - 1);
      AtOneMore(cfg, began, trace, m - 1);
      assert Allowed(cfg, began, trace, m - 1);
      assert !IsPass(cfg, began, trace, m - 1);
    }
  }

  /** How long the timer may stay quiet after a pass. */
  function Patience(cfg: Config, e: Event): Time
    requires e.Woken?
  {
    if e.delay > 0 then Max(MIN_UPDATE_INTERVAL, e.delay) else cfg.interval
  }

  /** After a pass, the timer is never armed for later than the polling interval, or than the delay asked for. */
  lemma {:induction false} NeverQuietForLong(cfg: Config, began: Moment, trace: seq<Event>, k: nat, n: nat)
    requires IsRun(cfg, began, trace) && k < n <= |trace| && IsPass(cfg, began, trace, k) && NoPass(cfg, began, trace, k + 1, n)
    ensures At(cfg, began, trace, n).state.armed <= trace[k].end + Patience(cfg, trace[k])
    decreases n
  {
    QuietState(cfg, began, trace, k, n);
  }

  /** What a pass leaves until the next one. */
  predicate Quiet(cfg: Config, s: State, pass: Event)
    requires pass.Woken?
  {
    && s.armed <= pass.end + Patience(cfg, pass)
    && s.nextPoll == pass.end + cfg.interval
    && s.nextScan == Some(pass.end + Max(MIN_UPDATE_INTERVAL, pass.delay))
    && (pass.delay > 0 ==> s.pending)
  }

  lemma QuietStarts(cfg: Config, s: State, pass: Event)
    requires Spaced(cfg) && pass.Woken? && StartsPass(cfg, s, pass)
    ensures Quiet(cfg, Step(cfg, s, pass), pass)
  {}

  lemma QuietStays(cfg: Config, s: State, pass: Event, e: Event)
    requires Spaced(cfg) && pass.Woken? && Quiet(cfg, s, pass) && !StartsPass(cfg, s, e)
    ensures Quiet(cfg, Step(cfg, s, e), pass)
  {}

  lemma {:induction false} QuietState(cfg: Config, began: Moment, trace: seq<Event>, k: nat, n: nat)
    requires IsRun(cfg, began, trace) && k < n <= |trace| && IsPass(cfg, began, trace, k) && NoPass(cfg, began, trace, k + 1, n)
    ensures Quiet(cfg, At(cfg, began, trace, n).state, trace[k])
    decreases n
  {
    AtOneMore(cfg, began, trace, n - 1);
    if n == k + 1 {
      QuietStarts(cfg, At(cfg, began, trace, k).state, trace[k]);
    } else {
      assert !IsPass(cfg, began, trace, n - 1);
      QuietState(cfg, began, trace, k, n - 1);
      QuietStays(cfg, At(cfg, began, trace, n - 1).state, trace[k], trace[n - 1]);
    }
  }

  // ----- which wakes start a pass, from the trace alone -----

  /** The last pass before step `i`. */
  function LastPass(cfg: Config, began: Moment, trace: seq<Event>, i: nat): (k: Option<nat>)
    requires i <= |trace|
    ensures k.Some? ==> k.value < i && IsPass(cfg, began, trace, k.value) && trace[k.value].Woken?
    ensures forall j: nat | (if k.Some? then k.value + 1 else 0) <= j < i :: !IsPass(cfg, began, trace, j)
  {
    if i == 0 then None
    else if IsPass(cfg, began, trace, i - 1) then Some(i - 1)
    else LastPass(cfg, began, trace, i - 1)
  }

  /** Some wake from step `from` up to step `n` was by a token. */
  ghost predicate TokenWake(trace: seq<Event>, from: nat, n: nat)
    requires n <= |trace|
  {
    exists t: nat | from <= t < n :: trace[t].Woken? && trace[t].cause == Token
  }

  /** When friends are to be expired next, after the first `n` steps: an expiry interval after the last pass that expired them and was not
      asked to come back, and from the start before there is one. */
  function ExpiryDue(cfg: Config, began: Moment, trace: seq<Event>, n: nat): Time
    requires n <= |trace|
  {
    if n == 0 then began.reading
    else if Completes(cfg, began, trace, n - 1) && Expires(cfg, began, trace, n - 1) then trace[n - 1].end + cfg.expiryInterval
    else ExpiryDue(cfg, began, trace, n - 1)
  }

  ghost predicate EverExpired(cfg: Config, began: Moment, trace: seq<Event>, n: nat)
    requires n <= |trace|
  {
    exists j: nat | j < n :: Completes(cfg, began, trace, j) && Expires(cfg, began, trace, j)
  }

  /** After pass `k`, the last of the first `n` steps, something is owed at `now`: the pass was asked to come back, a token has woken the loop
      since, before step `upto`, or polling or expiry is due. */
  ghost predicate OwedSince(cfg: Config, began: Moment, trace: seq<Event>, k: nat, n: nat, upto: nat, now: Time)
    requires k < n <= |trace| && upto <= |trace| && trace[k].Woken?
  {
    || trace[k].delay > 0
    || TokenWake(trace, k + 1, upto)
    || now >= trace[k].end + cfg.interval
    || (cfg.expiryEnabled && now >= ExpiryDue(cfg, began, trace, n))
  }

  /** What the loop remembers, from its trace: a pending pass is owed, and so is an expiry. */
  ghost predicate Remembers(cfg: Config, began: Moment, trace: seq<Event>, n: nat, m: Moment)
    requires n <= |trace|
  {
    var s, k := m.state, LastPass(cfg, began, trace, n);
    && s.nextExpiry == ExpiryDue(cfg, began, trace, n)
    && (s.expire ==> !EverExpired(cfg, began, trace, n) || (cfg.expiryEnabled && m.reading >= s.nextExpiry))
    && (!EverExpired(cfg, began, trace, n) ==> s.expire)
    && (if k.None? then s.pending && s.nextScan == None
        else var e := trace[k.value];
             && s.nextScan == Some(e.end + Max(20 * SECOND, e.delay))
             && s.nextPoll == e.end + cfg.interval
             && (s.pending ==> OwedSince(cfg, began, trace, k.value, n, n, m.reading))
             && (e.delay > 0 || TokenWake(trace, k.value + 1, n) ==> s.pending))
  }

  lemma {:induction false} LoopRemembers(cfg: Config, began: Moment, trace: seq<Event>, n: nat)
    requires IsRun(cfg, began, trace) && n <= |trace|
    ensures Remembers(cfg, began, trace, n, At(cfg, began, trace, n))
  {
    if n > 0 {
      LoopRemembers(cfg, began, trace, n - 1);
      if IsPass(cfg, began, trace, n - 1) {
        PassRemembers(cfg, began, trace, n - 1, n);
      } else {
        RestRemembers(cfg, began, trace, n - 1, n);
      }
    }
  }

  lemma TokenWakeOneMore(trace: seq<Event>, from: nat, m: nat, n: nat)
    requires n == m + 1 <= |trace| && from <= m
    ensures TokenWake(trace, from, n) <==> TokenWake(trace, from, m) || (trace[m].Woken? && trace[m].cause == Token)
  {}

  lemma EverExpiredOneMore(cfg: Config, began: Moment, trace: seq<Event>, m: nat, n: nat)
    requires n == m + 1 <= |trace|
    ensures EverExpired(cfg, began, trace, n) <==>
            EverExpired(cfg, began, trace, m) || (Completes(cfg, began, trace, m) && Expires(cfg, began, trace, m))
  {}

  lemma {:induction false} PassRemembers(cfg: Config, began: Moment, trace: seq<Event>, m: nat, n: nat)
    requires IsRun(cfg, began, trace) && n == m + 1 <= |trace| && IsPass(cfg, began, trace, m)
    requires Remembers(cfg, began, trace, m, At(cfg, began, trace, m))
    ensures Remembers(cfg, began, trace, n, At(cfg, began, trace, n))
  {
    AtOneMore(cfg, began, trace, m);
    assert Allowed(cfg, began, trace, m);
    EverExpiredOneMore(cfg, began, trace, m, n);
    assert LastPass(cfg, began, trace, n) == Some(m) && !TokenWake(trace, m + 1, n);
  }

  lemma {:induction false} RestRemembers(cfg: Config, began: Moment, trace: seq<Event>, m: nat, n: nat)
    requires IsRun(cfg, began, trace) && n == m + 1 <= |trace| && !IsPass(cfg, began, trace, m)
    requires Remembers(cfg, began, trace, m, At(cfg, began, trace, m))
    ensures Remembers(cfg, began, trace, n, At(cfg, began, trace, n))
  {
    AtOneMore(cfg, began, trace, m);
    assert Allowed(cfg, began, trace, m);
    EverExpiredOneMore(cfg, began, trace, m, n);
    var k := LastPass(cfg, began, trace, m);
    if k.Some? {
      TokenWakeOneMore(trace, k.value + 1, m, n);
    }
  }

  /** Which wakes start a pass: the first one, and after that exactly those that read the clock twenty seconds, and the delay asked
      for, after the last pass ended, if something is owed. */
  lemma PassIff(cfg: Config, began: Moment, trace: seq<Event>, n: nat, upto: nat)
    requires IsRun(cfg, began, trace) && n < |trace| && upto == n + 1 && trace[n].Woken?
    ensures var k := LastPass(cfg, began, trace, n);
            IsPass(cfg, began, trace, n) <==>
            k.None? || (var e := trace[k.value];
                        trace[n].now >= e.end + Max(20 * SECOND, e.delay) && OwedSince(cfg, began, trace, k.value, n, upto, trace[n].now))
  {
    LoopRemembers(cfg, began, trace, n);
    assert Allowed(cfg, began, trace, n);
    var k := LastPass(cfg, began, trace, n);
    if k.Some? {
      TokenWakeOneMore(trace, k.value + 1, n, upto);
    }
  }

  /** Which passes are to expire friends: all of them until one has done so without being asked to come back, and after that exactly
      those that begin when expiry is on and due. */
  lemma ExpiresIff(cfg: Config, began: Moment, trace: seq<Event>, n: nat)
    requires IsRun(cfg, began, trace) && n < |trace| && IsPass(cfg, began, trace, n)
    ensures Expires(cfg, began, trace, n) <==>
            !EverExpired(cfg, began, trace, n) || (cfg.expiryEnabled && trace[n].now >= ExpiryDue(cfg, began, trace, n))
  {
    LoopRemembers(cfg, began, trace, n);
    assert Allowed(cfg, began, trace, n);
  }

  /** A token is an event's, and is used once: every wake by a token has an event since the last one before it. */
  lemma {:induction false} TokenHasEvent(cfg: Config, began: Moment, trace: seq<Event>, n: nat)
    requires IsRun(cfg, began, trace) && n <= |trace| && At(cfg, began, trace, n).state.slot
    ensures exists i: nat | i < n :: trace[i] == Signal && !TokenWake(trace, i, n)
    decreases n
  {
    var m := n - 1;
    AtOneMore(cfg, began, trace, m);
    assert Allowed(cfg, began, trace, m);
    if trace[m] != Signal {
      TokenHasEvent(cfg, began, trace, m);
      var i: nat :| i < m && trace[i] == Signal && !TokenWake(trace, i, m);
      TokenWakeOneMore(trace, i, m, n);
    } else {
      assert !TokenWake(trace, m, n);
    }
  }

  lemma TokenWakeHasEvent(cfg: Config, began: Moment, trace: seq<Event>, n: nat)
    requires IsRun(cfg, began, trace) && n < |trace| && trace[n].Woken? && trace[n].cause == Token
    ensures exists i: nat | i < n :: trace[i] == Signal && !TokenWake(trace, i, n)
  {
    assert Allowed(cfg, began, trace, n);
    TokenHasEvent(cfg, began, trace, n);
  }

  /** Once a wake has found the channel closed, only the timer wakes the loop, and no event is heard. */
  lemma {:induction false} ClosedForGood(cfg: Config, began: Moment, trace: seq<Event>, i: nat, n: nat)
    requires IsRun(cfg, began, trace) && i < n <= |trace| && trace[i].Woken? && trace[i].cause == Closed
    ensures !At(cfg, began, trace, n).state.listening
    ensures n < |trace| ==> trace[n].Woken? && trace[n].cause == Timer
    decreases n
  {
    AtOneMore(cfg, began, trace, n - 1);
    if i < n - 1 {
      ClosedForGood(cfg, began, trace, i, n - 1);
    }
    if n < |trace| {
      assert Allowed(cfg, began, trace, n);
    }
  }

  // ----- with the timer on time -----

  /** No wake reads the clock later than the moment the timer was armed for. */
  ghost predicate Punctual(cfg: Config, began: Moment, trace: seq<Event>) {
    forall k: nat | k < |trace| && trace[k].Woken? :: trace[k].now <= At(cfg, began, trace, k).state.armed
  }

  /** When a pass is due at the latest, from the last pass before step `i`. */
  function Deadline(cfg: Config, began: Moment, trace: seq<Event>, i: nat): Time
    requires i <= |trace|
  {
    var k := LastPass(cfg, began, trace, i);
    if k.None? then began.reading else trace[k.value].end + Patience(cfg, trace[k.value])
  }

  /** Before the first pass nothing has woken the loop, and the timer is due at once. */
  lemma {:induction false} NothingBeforeFirstPass(cfg: Config, began: Moment, trace: seq<Event>, n: nat)
    requires IsRun(cfg, began, trace) && n <= |trace| && NoPass(cfg, began, trace, 0, n)
    ensures var m := At(cfg, began, trace, n); Fresh(m) && m.state.armed == m.reading == began.reading
  {
    if n > 0 {
      NothingBeforeFirstPass(cfg, began, trace, n - 1);
      AtOneMore(cfg, began, trace, n - 1);
      assert Allowed(cfg, began, trace, n - 1) && !IsPass(cfg, began, trace, n - 1);
    }
  }

  /** Until the next pass the timer is armed for the deadline or sooner. */
  lemma ArmedByDeadline(cfg: Config, began: Moment, trace: seq<Event>, i: nat, n: nat)
    requires IsRun(cfg, began, trace) && i <= n <= |trace| && NoPass(cfg, began, trace, i, n)
    ensures At(cfg, began, trace, n).state.armed <= Deadline(cfg, began, trace, i)
  {
    var k := LastPass(cfg, began, trace, i);
    if k.None? {
      NothingBeforeFirstPass(cfg, began, trace, n);
    } else {
      NeverQuietForLong(cfg, began, trace, k.value, n);
    }
  }

  /** The first pass from step `i` on, if step `m` is one at the latest. */
  lemma {:induction false} FirstPass(cfg: Config, began: Moment, trace: seq<Event>, i: nat, m: nat) returns (p: nat)
    requires i <= m < |trace| && (NoPass(cfg, began, trace, i, m) ==> IsPass(cfg, began, trace, m))
    ensures i <= p <= m && IsPass(cfg, began, trace, p) && NoPass(cfg, began, trace, i, p)
    decreases m - i
  {
    if IsPass(cfg, began, trace, i) {
      p := i;
    } else {
      p := FirstPass(cfg, began, trace, i + 1, m);
    }
  }

  /** A wake that reads the clock at the armed moment or later starts a pass. */
  lemma ArmedWakePasses(cfg: Config, began: Moment, trace: seq<Event>, m: nat)
    requires IsRun(cfg, began, trace) && m < |trace| && trace[m].Woken? && trace[m].now >= At(cfg, began, trace, m).state.armed
    ensures IsPass(cfg, began, trace, m)
  {
    TimerIsExact(cfg, began, trace, m);
    assert WouldPass(cfg, At(cfg, began, trace, m).state, trace[m].now);
  }

  /** With the timer on time, every social event is followed by a pass that begins to be decided no later than the last
      pass's end plus the polling interval, or plus the delay that pass was asked for. */
  lemma EventIsAnswered(cfg: Config, began: Moment, trace: seq<Event>, i: nat, m: nat) returns (p: nat)
    requires IsRun(cfg, began, trace) && Punctual(cfg, began, trace)
    requires i < m < |trace| && trace[i] == Signal && trace[m].Woken? && trace[m].now >= Deadline(cfg, began, trace, i)
    ensures i < p <= m && IsPass(cfg, began, trace, p) && NoPass(cfg, began, trace, i, p)
    ensures trace[p].now <= Deadline(cfg, began, trace, i)
  {
    if NoPass(cfg, began, trace, i, m) {
      ArmedByDeadline(cfg, began, trace, i, m);
      ArmedWakePasses(cfg, began, trace, m);
    }
    p := FirstPass(cfg, began, trace, i, m);
    ArmedByDeadline(cfg, began, trace, i, p);
  }

  /** It is answered sooner: if step `n` is the first wake after the event, a pass is decided there, or else at the very
      moment from which passes are permitted again. */
  lemma EventIsAnsweredSoon(cfg: Config, began: Moment, trace: seq<Event>, i: nat, n: nat, m: nat) returns (p: nat)
    requires IsRun(cfg, began, trace) && Punctual(cfg, began, trace)
    requires i < n <= m < |trace| && trace[i] == Signal && trace[n].Woken? && trace[m].Woken?
    requires forall j: nat | i < j < n :: trace[j] == Signal
    requires !Permitted(At(cfg, began, trace, i).state, trace[n].now) ==> Permitted(At(cfg, began, trace, i).state, trace[m].now)
    ensures n <= p <= m && IsPass(cfg, began, trace, p) && NoPass(cfg, began, trace, i, p)
    ensures var free := At(cfg, began, trace, i).state.nextScan;
            if free.None? || free.value <= trace[n].now then p == n else trace[p].now == free.value
  {
    FirstWakeAfter(cfg, began, trace, i, n);
    if IsPass(cfg, began, trace, n) {
      p := n;
    } else {
      p := PassWhenPermitted(cfg, began, trace, i, n, m);
    }
  }

  /** The first wake after an event passes if passes are permitted, and otherwise leaves the timer armed for when they are. */
  lemma FirstWakeAfter(cfg: Config, began: Moment, trace: seq<Event>, i: nat, n: nat)
    requires IsRun(cfg, began, trace) && i < n < |trace| && trace[i] == Signal && trace[n].Woken?
    requires forall j: nat | i < j < n :: trace[j] == Signal
    ensures NoPass(cfg, began, trace, i, n)
    ensures IsPass(cfg, began, trace, n) <==> Permitted(At(cfg, began, trace, i).state, trace[n].now)
    ensures !IsPass(cfg, began, trace, n) ==>
              var s := At(cfg, began, trace, n + 1).state;
              s.pending && s.nextScan == Some(s.armed) && s.nextScan == At(cfg, began, trace, i).state.nextScan
  {
    SignalsOnly(cfg, began, trace, i, n);
    EventIsServed(cfg, began, trace, i, n);
    AtOneMore(cfg, began, trace, n);
    assert Allowed(cfg, began, trace, n);
  }

  lemma {:induction false} SignalsOnly(cfg: Config, began: Moment, trace: seq<Event>, i: nat, n: nat)
    requires IsRun(cfg, began, trace) && i < n <= |trace| && forall j: nat | i <= j < n :: trace[j] == Signal
    ensures NoPass(cfg, began, trace, i, n)
    ensures At(cfg, began, trace, n) == At(cfg, began, trace, i).(state := At(cfg, began, trace, i).state.(slot := true))
    ensures At(cfg, began, trace, n).state.listening
    decreases n
  {
    AtOneMore(cfg, began, trace, n - 1);
    assert Allowed(cfg, began, trace, n - 1);
    if n > i + 1 {
      SignalsOnly(cfg, began, trace, i, n - 1);
    }
  }

  lemma PassWhenPermitted(cfg: Config, began: Moment, trace: seq<Event>, i: nat, n: nat, m: nat) returns (p: nat)
    requires IsRun(cfg, began, trace) && Punctual(cfg, began, trace)
    requires i < n < m < |trace| && trace[n].Woken? && trace[m].Woken? && NoPass(cfg, began, trace, i, n + 1)
    requires var s := At(cfg, began, trace, n + 1).state;
             s.pending && s.nextScan == Some(s.armed) && s.nextScan == At(cfg, began, trace, i).state.nextScan
    requires Permitted(At(cfg, began, trace, i).state, trace[m].now)
    ensures n < p <= m && IsPass(cfg, began, trace, p) && NoPass(cfg, began, trace, i, p)
    ensures At(cfg, began, trace, i).state.nextScan == Some(trace[p].now)
  {
    if NoPass(cfg, began, trace, n + 1, m) {
      PendingStaysArmed(cfg, began, trace, n + 1, m);
      ArmedWakePasses(cfg, began, trace, m);
    }
    p := FirstPass(cfg, began, trace, n + 1, m);
    PendingStaysArmed(cfg, began, trace, n + 1, p);
    PassAtArmed(cfg, began, trace, p);
  }

  lemma PassAtArmed(cfg: Config, began: Moment, trace: seq<Event>, p: nat)
    requires IsRun(cfg, began, trace) && Punctual(cfg, began, trace) && p < |trace| && IsPass(cfg, began, trace, p)
    requires var s := At(cfg, began, trace, p).state; s.nextScan == Some(s.armed)
    ensures trace[p].now == At(cfg, began, trace, p).state.armed
  {}

  // ----- expiry -----

  /** Whether the pass that step `k` starts is to expire friends. */
  predicate Expires(cfg: Config, began: Moment, trace: seq<Event>, k: nat)
    requires k < |trace| && trace[k].Woken?
  {
    Deciding(cfg, At(cfg, began, trace, k).state, trace[k]).expire
  }

  /** Step `k` is a pass that was not asked to come back later. */
  predicate Completes(cfg: Config, began: Moment, trace: seq<Event>, k: nat)
    requires k < |trace|
  {
    IsPass(cfg, began, trace, k) && trace[k].delay <= 0
  }

  /** An owed expiry is dropped only by a pass without a read delay: until one, it stays owed, and every pass is to expire
      friends. */
  lemma {:induction false} ExpiryStaysOwed(cfg: Config, began: Moment, trace: seq<Event>, i: nat, n: nat)
    requires i <= n <= |trace| && At(cfg, began, trace, i).state.expire
    requires forall k: nat | i <= k < n :: !Completes(cfg, began, trace, k)
    ensures At(cfg, began, trace, n).state.expire
    ensures n < |trace| && trace[n].Woken? ==> Expires(cfg, began, trace, n)
    decreases n
  {
    if n > i {
      ExpiryStaysOwed(cfg, began, trace, i, n - 1);
      AtOneMore(cfg, began, trace, n - 1);
      assert !Completes(cfg, began, trace, n - 1);
    }
  }

  lemma {:induction false} ExpiryRests(cfg: Config, began: Moment, trace: seq<Event>, k: nat, n: nat)
    requires IsRun(cfg, began, trace) && k < n <= |trace| && Completes(cfg, began, trace, k) && Expires(cfg, began, trace, k)
    ensures var m, rested := At(cfg, began, trace, n), trace[k].end + cfg.expiryInterval;
            m.state.nextExpiry >= rested && (m.state.expire ==> m.reading >= rested)
    decreases n
  {
    AtOneMore(cfg, began, trace, n - 1);
    if n > k + 1 {
      ExpiryRests(cfg, began, trace, k, n - 1);
      assert Allowed(cfg, began, trace, n - 1);
    }
  }

  /** Once a pass has expired friends without a read delay, no pass does so again before the expiry interval is over. */
  lemma ExpiriesAreSpaced(cfg: Config, began: Moment, trace: seq<Event>, k: nat, n: nat)
    requires IsRun(cfg, began, trace) && k < n < |trace|
    requires Completes(cfg, began, trace, k) && Expires(cfg, began, trace, k)
    requires IsPass(cfg, began, trace, n) && Expires(cfg, began, trace, n)
    ensures trace[n].start >= trace[k].end + cfg.expiryInterval
  {
    ExpiryRests(cfg, began, trace, k, n);
    assert Allowed(cfg, began, trace, n);
  }
}
