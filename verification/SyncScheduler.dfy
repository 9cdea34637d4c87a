/** The sync loop at work: the one-slot trigger that events fill, and the loop that drives the friend syncer. */
module SyncScheduler {
  import opened Common
  import opened SyncLoop
  import FriendPass
  import RunState
  import FriendLedger
  import BulkAccept
  import opened SyncState
  import opened PassTrace
  import opened PassSafety
  import opened FriendSyncer

  /** The channel with room for one token. */
  class Trigger {
    var full: bool

    constructor ()
      ensures !full
    {
      full := false;
    }

    /** Events that find the slot full are coalesced into the token that is there. */
    method Signal()
      modifies `full
      ensures full
    {
      if !full {
        full := true;
      }
    }
  }

  // ----- the abstract runs that the loop keeps -----

  /** The passes that a run of the loop made, in order, and how they follow each other. */
  ghost predicate TurnsFollow(turns: seq<FriendPass.Turn>, memory: RunState.State, now: Time) {
    if turns == [] then memory == RunState.INITIAL
    else turns[|turns| - 1].after == memory && turns[|turns| - 1].end <= now
  }

  ghost predicate StepsRun(cfg: Config, began: Moment, trace: seq<Event>, now: Moment) {
    SyncLoop.IsRun(cfg, began, trace) && now == SyncLoop.Run(cfg, began, trace)
  }

  ghost predicate PassesRun(autoFriend: bool, turns: seq<FriendPass.Turn>, memory: RunState.State, now: Time) {
    FriendPass.IsRun(autoFriend, turns) && TurnsFollow(turns, memory, now)
  }

  /** The event tells of that pass; the loop reads the clock again when it is over. */
  ghost predicate IsFor(e: Event, turn: FriendPass.Turn) {
    e.Woken? && e.start == turn.start && turn.end <= e.end && e.delay == turn.work.result.readRetryAfter
  }

  /** The passes made are those that the steps start, one for one. */
  ghost predicate TurnsMatch(passes: seq<Event>, turns: seq<FriendPass.Turn>) {
    |turns| == |passes| && forall i | 0 <= i < |turns| :: IsFor(passes[i], turns[i])
  }

  lemma {:induction false} OneMoreTurn(autoFriend: bool, turns: seq<FriendPass.Turn>, turn: FriendPass.Turn)
    requires FriendPass.IsRun(autoFriend, turns) && FriendPass.IsTurn(autoFriend, turn)
    requires TurnsFollow(turns, turn.before, turn.start)
    ensures FriendPass.IsRun(autoFriend, turns + [turn])
  {
    if turns != [] {
      assert FriendPass.IsTurn(autoFriend, turns[|turns| - 1]);
      InOrderOneMore(turns, turn);
    }
  }

  lemma InOrderOneMore(turns: seq<FriendPass.Turn>, turn: FriendPass.Turn)
    requires FriendPass.InOrder(turns) && turns != []
    requires turns[|turns| - 1].start <= turns[|turns| - 1].end <= turn.start
    ensures FriendPass.InOrder(turns + [turn])
  {
    forall i | 0 <= i < |turns| - 1 ensures turns[i].end <= turn.start {
      assert turns[i].end <= turns[|turns| - 1].start;
    }
  }

  /** What one iteration adds to the passes. */
  ghost predicate Adds(autoFriend: bool, made: seq<FriendPass.Turn>, before: RunState.State, after: RunState.State,
                       since: Time, now: Time) {
    since <= now &&
    if made == [] then after == before
    else |made| == 1 && FriendPass.IsTurn(autoFriend, made[0]) && made[0].before == before && made[0].after == after &&
         since <= made[0].start && made[0].end <= now
  }

  lemma {:induction false} TurnsAfter(autoFriend: bool, turns: seq<FriendPass.Turn>, made: seq<FriendPass.Turn>,
                                      before: RunState.State, after: RunState.State, since: Time, now: Time)
    requires PassesRun(autoFriend, turns, before, since)
    requires Adds(autoFriend, made, before, after, since, now)
    ensures PassesRun(autoFriend, turns + made, after, now)
  {
    if made == [] {
      assert turns + made == turns;
    } else {
      assert turns + made == turns + [made[0]];
      OneMoreTurn(autoFriend, turns, made[0]);
    }
  }

  lemma OneMoreEvent(cfg: Config, began: Moment, trace: seq<Event>, m: Moment, e: Event)
    requires StepsRun(cfg, began, trace, m) && Enabled(cfg, m.state, e) && (e.Woken? ==> m.reading <= e.now)
    ensures StepsRun(cfg, began, trace + [e], Moment(Step(cfg, m.state, e), if e.Woken? then e.end else m.reading))
  {
    var more := trace + [e];
    assert more[..|trace|] == trace;
    forall k: nat | k < |more| ensures Allowed(cfg, began, more, k) {
      if k < |trace| {
        assert more[..k] == trace[..k];
        assert Allowed(cfg, began, trace, k);
      }
    }
  }

  lemma OneMorePass(cfg: Config, began: Moment, trace: seq<Event>, s: State, e: Event)
    requires s == SyncLoop.Run(cfg, began, trace).state
    ensures Passes(cfg, began, trace + [e]) == Passes(cfg, began, trace) + if StartsPass(cfg, s, e) then [e] else []
  {
    assert (trace + [e])[..|trace|] == trace;
  }

  /** Everything that the loop has done: its steps and where they left it, its passes and where they left the memory. */
  datatype Log = Log(
    cfg: Config,
    began: Moment,
    trace: seq<Event>,
    now: Moment,
    autoFriend: bool,
    turns: seq<FriendPass.Turn>,
    memory: RunState.State)

  /** The steps are a run of the abstract loop, the passes are those the steps start, and they form a run of passes. */
  ghost predicate Good(l: Log) {
    && StepsRun(l.cfg, l.began, l.trace, l.now)
    && PassesRun(l.autoFriend, l.turns, l.memory, l.now.reading)
    && TurnsMatch(Passes(l.cfg, l.began, l.trace), l.turns)
  }

  /** One iteration of the loop: event `e`, and the pass `made` if it starts one, leave the memory as `memory`. */
  ghost predicate Iterates(l: Log, e: Event, made: seq<FriendPass.Turn>, memory: RunState.State) {
    && e.Woken? && Enabled(l.cfg, l.now.state, e) && l.now.reading <= e.now
    && Adds(l.autoFriend, made, l.memory, memory, e.now, e.end)
    && (if StartsPass(l.cfg, l.now.state, e) then made != [] && IsFor(e, made[0]) else made == [])
  }

  lemma WakeIterates(l: Log, e: Event, made: seq<FriendPass.Turn>, memory: RunState.State)
    requires e.Woken? && l.now.reading <= e.now <= e.start <= e.end && CanWake(l.now.state, e.cause, e.now)
    requires Adds(l.autoFriend, made, l.memory, memory, e.now, e.end)
    requires if StartsPass(l.cfg, l.now.state, e) then made != [] && IsFor(e, made[0]) else made == [] && e.end == e.now
    ensures Iterates(l, e, made, memory)
  {}

  function AfterWake(l: Log, e: Event, made: seq<FriendPass.Turn>, memory: RunState.State): Log
    requires e.Woken?
  {
    l.(trace := l.trace + [e], now := Moment(Step(l.cfg, l.now.state, e), e.end), turns := l.turns + made, memory := memory)
  }

  lemma OneMoreMatch(passes: seq<Event>, turns: seq<FriendPass.Turn>, e: Event, made: seq<FriendPass.Turn>, passed: bool)
    requires TurnsMatch(passes, turns) && (if passed then |made| == 1 && IsFor(e, made[0]) else made == [])
    ensures TurnsMatch(passes + (if passed then [e] else []), turns + made)
  {
    if !passed {
      assert turns + made == turns && passes + [] == passes;
    }
  }

  lemma OneMoreWake(l: Log, e: Event, made: seq<FriendPass.Turn>, memory: RunState.State)
    requires Good(l) && Iterates(l, e, made, memory)
    ensures Good(AfterWake(l, e, made, memory))
  {
    OneMoreEvent(l.cfg, l.began, l.trace, l.now, e);
    OneMorePass(l.cfg, l.began, l.trace, l.now.state, e);
    OneMoreMatch(Passes(l.cfg, l.began, l.trace), l.turns, e, made, StartsPass(l.cfg, l.now.state, e));
    TurnsAfterWake(l, e, made, memory);
  }

  lemma TurnsAfterWake(l: Log, e: Event, made: seq<FriendPass.Turn>, memory: RunState.State)
    requires PassesRun(l.autoFriend, l.turns, l.memory, l.now.reading)
    requires e.Woken? && l.now.reading <= e.now && Adds(l.autoFriend, made, l.memory, memory, e.now, e.end)
    ensures PassesRun(l.autoFriend, l.turns + made, memory, e.end)
  {
    TurnsAfter(l.autoFriend, l.turns, made, l.memory, memory, l.now.reading, e.end);
  }

  function Heard(l: Log): Log { l.(trace := l.trace + [Signal], now := l.now.(state := l.now.state.(slot := true))) }

  lemma OneMoreSignal(l: Log)
    requires Good(l) && l.now.state.listening
    ensures Good(Heard(l))
  {
    OneMoreEvent(l.cfg, l.began, l.trace, l.now, Signal);
    OneMorePass(l.cfg, l.began, l.trace, l.now.state, Signal);
  }

  // ----- what the loop is given, and what each input does -----

  /** What happens next: a social event, something that can wake the loop, a join that the relay records, or the end. */
  datatype Input = SocialEvent | Wake(cause: Cause, sv: Services) | JoinBetweenPasses(join: Join) | Cancel

  /** How many inputs come before the loop is cancelled. */
  function UntilCancel(inputs: seq<Input>): nat {
    if inputs == [] || inputs[0].Cancel? then 0 else 1 + UntilCancel(inputs[1..])
  }

  /** The loop's events so far, and the steps of the syncer's trace. */
  datatype Stage = Stage(events: seq<Event>, steps: nat)

  /** What an input does: an event fills the slot while the channel is read; a wake that can happen with the clock as it
      stands is an iteration; a join is one step of the syncer's trace. */
  ghost predicate Takes(cfg: Config, began: Moment, clock: Clock, before: Stage, input: Input, after: Stage) {
    var s := SyncLoop.Run(cfg, began, before.events).state;
    match input
    case SocialEvent => after == before.(events := before.events + if s.listening then [Signal] else [])
    case Wake(cause, _) =>
      var now := clock(before.steps).time;
      if CanWake(s, cause, now) then
        && |after.events| == |before.events| + 1 && before.events < after.events && before.steps < after.steps
        && var e := after.events[|before.events|]; e.Woken? && e.cause == cause && e.now == now
      else after == before
    case JoinBetweenPasses(_) => after == before.(steps := before.steps + 1)
    case Cancel => false
  }

  /** Every input before the first `Cancel` did what it does. */
  ghost predicate TakesAll(cfg: Config, began: Moment, clock: Clock, inputs: seq<Input>, stages: seq<Stage>) {
    && |stages| == UntilCancel(inputs) + 1
    && UntilCancel(inputs) <= |inputs|
    && forall i | 0 <= i < UntilCancel(inputs) :: Takes(cfg, began, clock, stages[i], inputs[i], stages[i + 1])
  }

  /** The first `n` inputs led from the first stage to the last. */
  ghost predicate TookSoFar(cfg: Config, began: Moment, clock: Clock, inputs: seq<Input>, stages: seq<Stage>, n: nat,
                            from: Stage, to: Stage) {
    && n <= |inputs| && |stages| == n + 1 && stages[0] == from && stages[n] == to
    && (forall i | 0 <= i < n :: !inputs[i].Cancel?)
    && (forall i | 0 <= i < n :: Takes(cfg, began, clock, stages[i], inputs[i], stages[i + 1]))
  }

  lemma TookOneMore(cfg: Config, began: Moment, clock: Clock, inputs: seq<Input>, stages: seq<Stage>, n: nat, from: Stage,
                    to: Stage, last: Stage)
    requires n < |inputs| && !inputs[n].Cancel? && TookSoFar(cfg, began, clock, inputs, stages, n, from, to)
    requires Takes(cfg, began, clock, to, inputs[n], last)
    ensures TookSoFar(cfg, began, clock, inputs, stages + [last], n + 1, from, last)
  {
    var more := stages + [last];
    forall i | 0 <= i < n + 1 ensures Takes(cfg, began, clock, more[i], inputs[i], more[i + 1]) {
      if i < n {
        assert more[i] == stages[i] && more[i + 1] == stages[i + 1];
      }
    }
  }

  lemma {:induction false} CancelComes(inputs: seq<Input>, i: nat)
    requires i <= |inputs| && forall k | 0 <= k < i :: !inputs[k].Cancel?
    requires i == |inputs| || inputs[i].Cancel?
    ensures UntilCancel(inputs) == i
    decreases |inputs|
  {
    if i > 0 {
      CancelComes(inputs[1..], i - 1);
    }
  }

  class Scheduler {
    const cfg: Config
    const trigger: Trigger
    const syncer: Syncer
    const memory: RunMemory
    var pending: bool
    var expire: bool
    var nextScan: Option<Time>
    var nextPoll: Time
    var nextExpiry: Time
    var armed: Time
    var listening: bool
    var reading: Time   // the last reading of the clock
    ghost const began: Moment
    ghost var trace: seq<Event>
    ghost var turns: seq<FriendPass.Turn>

    function View(): State
      reads this, trigger
    {
      State(pending, expire, nextScan, nextPoll, nextExpiry, armed, trigger.full, listening)
    }

    ghost function Now(): Moment
      reads this, trigger
    {
      Moment(View(), reading)
    }

    ghost function Done(): Log
      reads this, trigger, memory
    {
      Log(cfg, began, trace, Now(), syncer.autoFriend, turns, memory.View())
    }

    /** What the loop keeps; in it `Steady` says that nobody but the stale is removed. */
    ghost predicate Loops()
      reads this, trigger, memory, syncer, syncer.history, syncer.count
    {
      syncer.Steady() && reading <= syncer.clock(|syncer.trace|).time && Good(Done())
    }

    constructor (updateInterval: Time, expiryCheck: Time, expiryEnabled: bool, trigger: Trigger, syncer: Syncer, memory: RunMemory,
                 now: Time)
      requires !trigger.full && memory.View() == RunState.INITIAL
      requires syncer.Steady()
      requires now <= syncer.clock(|syncer.trace|).time
      ensures Loops() && trace == [] && turns == []
      ensures cfg == ConfigOf(updateInterval, expiryCheck, expiryEnabled) && began == Begun(now, true)
      ensures this.trigger == trigger && this.syncer == syncer && this.memory == memory
    {
      cfg := ConfigOf(updateInterval, expiryCheck, expiryEnabled);
      this.trigger, this.syncer, this.memory := trigger, syncer, memory;
      pending, expire, nextScan := true, true, None;
      nextPoll, nextExpiry, armed, reading := now, now, now, now;
      listening := true;
      began, trace, turns := Begun(now, true), [], [];
    }

    method Receive(cause: Cause)
      requires cause == Token ==> trigger.full
      modifies `pending, `listening, trigger`full
      ensures View() == Received(old(View()), cause)
    {
      match cause {
        case Timer =>
        case Token =>
          trigger.full := false;
          pending := true;
        case Closed =>
          listening := false;
      }
    }

    method Notice(now: Time)
      modifies `pending, `expire
      ensures View() == Noticed(cfg, old(View()), now)
    {
      pending := pending || now >= nextPoll;
      if cfg.expiryEnabled && now >= nextExpiry {
        pending, expire := true, true;
      }
    }

    /** What follows a pass that ended at `end`. */
    method Space(end: Time, retryAfter: Time)
      modifies `nextScan, `nextPoll, `nextExpiry, `pending, `expire
      ensures View() == Passed(cfg, old(View()), end, retryAfter)
    {
      nextScan := Some(end + Max(MIN_UPDATE_INTERVAL, retryAfter));
      nextPoll := end + cfg.interval;
      pending := retryAfter > 0;
      if !pending {
        if expire {
          nextExpiry := end + cfg.expiryInterval;
        }
        expire := false;
      }
    }

    method Arm()
      modifies `armed
      ensures View() == old(View()).(armed := NextWake(cfg, old(View())))
    {
      var nextWake := nextPoll;
      if cfg.expiryEnabled && nextExpiry < nextWake {
        nextWake := nextExpiry;
      }
      if nextScan.Some? && (pending || nextWake < nextScan.value) {
        nextWake := nextScan.value;
      }
      armed := nextWake;
    }

    /** The head of an iteration, up to the decision to pass. */
    method Decide(cause: Cause) returns (now: Time)
      requires syncer.Steady() && (cause == Token ==> trigger.full)
      modifies `pending, `expire, `listening, `reading, trigger`full, syncer`trace
      ensures syncer.Steady()
      ensures syncer.trace == ReadNow(syncer.clock, old(syncer.trace))
      ensures reading == now == old(syncer.clock(|syncer.trace|).time)
      ensures View() == Noticed(cfg, Received(old(View()), cause), now)
    {
      Receive(cause);
      now := syncer.ReadClockBetween();
      Notice(now);
      reading := now;
    }

    /** The pass, and the reading of the clock after it. */
    method Pass(sv: Services) returns (retryAfter: Time, ghost turn: FriendPass.Turn)
      requires syncer.Steady()
      modifies `reading, `nextScan, `nextPoll, `nextExpiry, `pending, `expire, memory
      modifies syncer`result, syncer`singles, syncer`trace, syncer.history, syncer.count
      ensures syncer.Steady()
      ensures |old(syncer.trace)| < |syncer.trace|
      ensures turn.start == old(syncer.clock(|syncer.trace|).time) && turn.end <= reading == syncer.clock(|syncer.trace| - 1).time
      ensures View() == Passed(cfg, old(View()), reading, retryAfter)
      ensures FriendPass.IsTurn(syncer.autoFriend, turn)
      ensures turn.before == old(memory.View()) && turn.after == memory.View() && retryAfter == turn.work.result.readRetryAfter
      ensures syncer.Undelayed(sv) ==> retryAfter == 0
    {
      retryAfter, turn := syncer.SyncOnce(sv, memory, expire);
      reading := syncer.ReadClockBetween();
      Space(reading, retryAfter);
    }

    /** The pass, if one is pending and permitted at `now`. */
    method PassIfDue(cause: Cause, now: Time, sv: Services) returns (ghost e: Event, ghost made: seq<FriendPass.Turn>)
      requires syncer.Steady() && reading == now <= syncer.clock(|syncer.trace|).time
      requires syncer.trace != [] && now == syncer.clock(|syncer.trace| - 1).time
      modifies `reading, `nextScan, `nextPoll, `nextExpiry, `pending, `expire, memory
      modifies syncer`result, syncer`singles, syncer`trace, syncer.history, syncer.count
      ensures syncer.Steady()
      ensures e.Woken? && e.cause == cause && e.now == now <= e.start <= e.end
      ensures |old(syncer.trace)| <= |syncer.trace| && reading == e.end == syncer.clock(|syncer.trace| - 1).time
      ensures Adds(syncer.autoFriend, made, old(memory.View()), memory.View(), now, e.end)
      ensures if old(View()).pending && Permitted(old(View()), now)
              then View() == Passed(cfg, old(View()), e.end, e.delay)
                   && made != [] && IsFor(e, made[0])
              else View() == old(View()) && made == [] && e.end == now
      ensures syncer.Undelayed(sv) ==> e.delay == 0
    {
      e, made := Woken(cause, now, now, now, 0), [];
      if pending && (nextScan.None? || now >= nextScan.value) {
        var retryAfter, turn := Pass(sv);
        e, made := Woken(cause, now, turn.start, reading, retryAfter), [turn];
      }
    }

    /** One iteration of the loop, up to setting the timer; `made` holds the pass it made, if any. */
    method Settle(cause: Cause, sv: Services) returns (ghost e: Event, ghost made: seq<FriendPass.Turn>)
      requires syncer.Steady() && reading <= syncer.clock(|syncer.trace|).time
      requires CanWake(View(), cause, syncer.clock(|syncer.trace|).time)
      modifies `pending, `expire, `nextScan, `nextPoll, `nextExpiry, `listening, `reading, trigger`full, memory
      modifies syncer`result, syncer`singles, syncer`trace, syncer.history, syncer.count
      ensures syncer.Steady()
      ensures e.Woken? && e.cause == cause && e.now == old(syncer.clock(|syncer.trace|).time)
      ensures |old(syncer.trace)| < |syncer.trace| && reading == e.end == syncer.clock(|syncer.trace| - 1).time
      ensures View() == Settled(cfg, old(View()), e) && Iterates(old(Done()), e, made, memory.View())
      ensures syncer.Undelayed(sv) ==> e.delay == 0
    {
      ghost var before := Done();
      var now := Decide(cause);
      ghost var decided := View();
      e, made := PassIfDue(cause, now, sv);
      assert decided == Deciding(cfg, before.now.state, e);
      WakeIterates(before, e, made, memory.View());
    }

    /** One iteration of the loop. */
    method Iterate(cause: Cause, sv: Services) returns (ghost e: Event, ghost made: seq<FriendPass.Turn>)
      requires syncer.Steady() && reading <= syncer.clock(|syncer.trace|).time
      requires CanWake(View(), cause, syncer.clock(|syncer.trace|).time)
      modifies `pending, `expire, `nextScan, `nextPoll, `nextExpiry, `armed, `listening, `reading, trigger`full, memory
      modifies syncer`result, syncer`singles, syncer`trace, syncer.history, syncer.count
      ensures syncer.Steady()
      ensures e.Woken? && e.cause == cause && e.now == old(syncer.clock(|syncer.trace|).time)
      ensures |old(syncer.trace)| < |syncer.trace| && reading == e.end == syncer.clock(|syncer.trace| - 1).time
      ensures View() == Step(cfg, old(View()), e) && Iterates(old(Done()), e, made, memory.View())
      ensures syncer.Undelayed(sv) ==> e.delay == 0
    {
      e, made := Settle(cause, sv);
      Arm();
    }

    method HearEvent()
      requires Loops() && listening
      modifies `trace, trigger`full
      ensures Loops() && trace == old(trace) + [Signal]
    {
      ghost var heard := Heard(Done());
      OneMoreSignal(Done());
      trace := trace + [Signal];
      trigger.Signal();
      assert Done() == heard;
    }

    method HearJoin(join: Join)
      requires Loops()
      modifies syncer`trace, syncer.history
      ensures Loops() && |syncer.trace| == |old(syncer.trace)| + 1
    {
      syncer.RecordJoin(join);
    }

    method WakeUp(cause: Cause, sv: Services)
      requires Loops() && CanWake(View(), cause, syncer.clock(|syncer.trace|).time)
      modifies this, trigger`full, memory, syncer`result, syncer`singles, syncer`trace, syncer.history, syncer.count
      ensures Loops() && |trace| == |old(trace)| + 1 && old(trace) < trace && |old(syncer.trace)| < |syncer.trace|
      ensures var e := trace[|old(trace)|];
              e.Woken? && e.cause == cause && e.now == old(syncer.clock(|syncer.trace|).time) && (syncer.Undelayed(sv) ==> e.delay == 0)
      ensures reading == syncer.clock(|syncer.trace| - 1).time
    {
      ghost var before := Done();
      var e, made := Iterate(cause, sv);
      ghost var after := AfterWake(before, e, made, memory.View());
      OneMoreWake(before, e, made, memory.View());
      trace, turns := trace + [e], turns + made;
      assert Done() == after;
    }

    ghost function AtStage(): Stage
      reads this, syncer
    {
      Stage(trace, |syncer.trace|)
    }

    /** One turn of the loop's select. */
    method TakeInput(input: Input)
      requires Loops() && !input.Cancel?
      modifies this, trigger`full, memory, syncer`result, syncer`singles, syncer`trace, syncer.history, syncer.count
      ensures Loops() && Takes(cfg, began, syncer.clock, old(AtStage()), input, AtStage())
    {
      match input {
        case SocialEvent =>
          if listening {
            HearEvent();
          } else {
            assert trace + [] == trace;
          }
        case JoinBetweenPasses(join) =>
          HearJoin(join);
        case Wake(cause, sv) =>
          var now := syncer.clock(|syncer.trace|).time;
          if CanWake(View(), cause, now) {
            WakeUp(cause, sv);
          }
      }
    }

    /** The loop, until it is cancelled. */
    method Run(inputs: seq<Input>) returns (ghost stages: seq<Stage>)
      requires Loops()
      modifies this, trigger`full, memory, syncer`result, syncer`singles, syncer`trace, syncer.history, syncer.count
      ensures Loops() && TakesAll(cfg, began, syncer.clock, inputs, stages)
      ensures stages[0] == old(AtStage()) && stages[|stages| - 1] == AtStage()
    {
      ghost var from := AtStage();
      stages := [from];
      var i := 0;
      while i < |inputs| && !inputs[i].Cancel?
        invariant Loops()
        invariant TookSoFar(cfg, began, syncer.clock, inputs, stages, i, from, AtStage())
      {
        ghost var before := AtStage();
        TakeInput(inputs[i]);
        TookOneMore(cfg, began, syncer.clock, inputs, stages, i, from, before, AtStage());
        stages := stages + [AtStage()];
        i := i + 1;
      }
      CancelComes(inputs, i);
    }
  }

  // ----- a run with more than one pass -----

  /** A clock whose readings are an hour apart. */
  function Hourly(n: nat): FriendLedger.Reading { FriendLedger.Reading(n * 3_600_000_000_000, n * 3_600) }

  /** A loop over this clock, before its first wake. */
  method HourlyLoop() returns (s: Scheduler)
    ensures fresh(s) && fresh(s.trigger) && fresh(s.memory) && fresh(s.syncer) && fresh(s.syncer.history) && fresh(s.syncer.count)
    ensures s.Loops() && s.trace == [] && s.began == Begun(0, true) && s.cfg == ConfigOf(MINUTE, HOUR, false)
    ensures s.syncer.clock == Hourly && !s.syncer.autoFriend
  {
    var history := new FileHistoryStore(map[]);
    var syncer := new Syncer(false, false, 0, history, Hourly);
    var memory := new RunMemory();
    var trigger := new Trigger();
    s := new Scheduler(MINUTE, HOUR, false, trigger, syncer, memory, 0);
  }

  /** That loop after its first wake: the timer may wake it again at once. */
  method OnePass(sv: Services) returns (s: Scheduler)
    requires sv.list.People?
    ensures fresh(s) && fresh(s.trigger) && fresh(s.memory) && fresh(s.syncer) && fresh(s.syncer.history) && fresh(s.syncer.count)
    ensures s.Loops() && |s.trace| == 1 && s.trace[0].Woken?
    ensures s.armed <= s.syncer.clock(|s.syncer.trace|).time
  {
    s := HourlyLoop();
    s.WakeUp(Timer, sv);
    FirstWakePasses(s.Done());
  }

  /** When the timer wakes the loop twice it makes two passes, the second not before passes are permitted again. */
  method TwoPasses(sv: Services) returns (s: Scheduler)
    requires sv.list.People?
    ensures s.Loops() && |s.trace| == 2 && |s.turns| == 2
    ensures s.turns[1].start >= s.turns[0].end + MIN_UPDATE_INTERVAL
  {
    s := OnePass(sv);
    s.WakeUp(Timer, sv);
    TwoWakesPass(s.Done());
  }

  /** The first wake starts a pass, and without a delay the timer is then armed within the polling interval. */
  lemma FirstWakePasses(l: Log)
    requires Good(l) && |l.trace| == 1 && l.trace[0].Woken? && l.trace[0].delay <= 0
    ensures SyncLoop.IsPass(l.cfg, l.began, l.trace, 0)
    ensures l.now.state.armed <= l.trace[0].end + l.cfg.interval && l.trace[0].end == l.now.reading
  {
    assert Allowed(l.cfg, l.began, l.trace, 0);
    assert l.trace[..0] == [] && l.trace[..1] == l.trace;
    NeverQuietForLong(l.cfg, l.began, l.trace, 0, 1);
  }

  /** Two wakes, the second by the timer, are two passes. */
  lemma TwoWakesPass(l: Log)
    requires Good(l) && |l.trace| == 2 && l.trace[0].Woken? && l.trace[1].Woken? && l.trace[1].cause == Timer
    ensures |l.turns| == 2 && l.turns[1].start >= l.turns[0].end + MIN_UPDATE_INTERVAL
  {
    WakesArePasses(l.cfg, l.began, l.trace);
    assert IsFor(l.trace[0], l.turns[0]) && IsFor(l.trace[1], l.turns[1]);
  }

  lemma WakesArePasses(cfg: Config, began: Moment, trace: seq<Event>)
    requires SyncLoop.IsRun(cfg, began, trace) && |trace| == 2
    requires trace[0].Woken? && trace[1].Woken? && trace[1].cause == Timer
    ensures Passes(cfg, began, trace) == trace && trace[1].start >= trace[0].end + MIN_UPDATE_INTERVAL
  {
    assert Allowed(cfg, began, trace, 0);
    assert trace[..0] == [] && trace[..1] == [trace[0]] && trace == [trace[0]] + [trace[1]];
    TimerWakePasses(cfg, began, trace, 1);
    PassesAreSpaced(cfg, began, trace, 0, 1);
    OneMorePass(cfg, began, [], began.state, trace[0]);
    OneMorePass(cfg, began, [trace[0]], SyncLoop.Run(cfg, began, [trace[0]]).state, trace[1]);
    assert [] + [trace[0]] == [trace[0]];
  }
}
