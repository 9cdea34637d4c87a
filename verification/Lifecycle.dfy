/** The broadcaster's lifecycle as a machine: every event is one region under the lifecycle
    lock. Sessions and signaling connections are named by number; `open` and `dialed` are what
    the outside world holds, the rest is what the broadcaster remembers. */
module Lifecycle {
  import opened Common
  import opened Publication

  /** A session's announcer with the connection it was wrapped with. */
  datatype Published = Published(id: nat, connection: Option<Connection>)

  datatype Retired = Retired(session: Published, at: Time)

  datatype Context = NoContext | Running | Cancelled

  datatype State = State(
    context: Context,
    started: bool,
    recovering: bool,
    failure: Option<string>,
    current: Option<Published>,
    retired: seq<Retired>,
    stale: seq<Published>,
    signaling: Option<nat>,
    relay: Option<nat>,              // the signaling connection that the relay listens to
    connection: Option<Connection>,
    rotateDue: bool,                 // the session loop has seen a nearly full session and rotates next
    nextId: nat,                     // announcers made so far
    open: set<nat>,                  // sessions announced successfully and not yet closed successfully
    dialed: set<nat>)                // signaling connections obtained and not yet closed

  const INITIAL := State(NoContext, false, false, None, None, [], [], None, None, None, false, 0, {}, {})

  const ROTATE_GRACE := 30 * SECOND

  /** How publishing on a signaling connection turns out. */
  datatype PublishEnv = PublishEnv(valid: bool, announces: bool)

  datatype Event =
    | Start(dial: Option<nat>, publish: PublishEnv, closes: nat -> bool)
    | Update(announces: bool, closes: nat -> bool)
    | SeeRotation
    | Rotate(now: Time, announces: bool)
    | CloseDrained(now: Time, members: nat -> Option<nat>, closes: nat -> bool)
    | BeginRecovery(applies: bool)
    | Recreate(dial: Option<nat>, alive: bool, publish: PublishEnv, closes: nat -> bool)
    | EndRecovery(error: Option<string>)
    | Close(closes: nat -> bool)
    | CallerCancels

  function CurrentId(s: State): seq<nat> {
    if s.current.Some? then [s.current.value.id] else []
  }

  function Ids(sessions: seq<Published>): seq<nat> {
    seq(|sessions|, i requires 0 <= i < |sessions| => sessions[i].id)
  }

  function RetiredIds(retired: seq<Retired>): seq<nat> {
    seq(|retired|, i requires 0 <= i < |retired| => retired[i].session.id)
  }

  function RetiredSessions(retired: seq<Retired>): seq<Published> {
    seq(|retired|, i requires 0 <= i < |retired| => retired[i].session)
  }

  /** Every session that the broadcaster remembers. */
  function Held(s: State): seq<nat> {
    Ids(s.stale) + RetiredIds(s.retired) + CurrentId(s)
  }

  /** `publishSession`: makes an announcer on the current connection and announces it. An
      announcer whose first announcement fails is closed and forgotten. */
  function PublishSession(s: State, announces: bool): (State, Option<Published>) {
    var made := s.(nextId := s.nextId + 1);
    if announces then (made.(open := s.open + {s.nextId}), Some(Published(s.nextId, s.connection)))
    else (made, None)
  }

  /** `publishOn`; the second result tells whether it succeeded. */
  function PublishOn(s: State, sig: nat, env: PublishEnv): (State, bool) {
    if !env.valid then (s, false) else
      var (after, session) := PublishSession(s.(connection := Some(Connection(sig))), env.announces);
      if session.None? then (after, false) else (after.(current := session, relay := Some(sig)), true)
  }

  /** The sessions whose close fails, in order. */
  function StillOpen(sessions: seq<Published>, closes: nat -> bool): seq<Published> {
    Filter((p: Published) => !closes(p.id), sessions)
  }

  function CloseStale(s: State, closes: nat -> bool): State {
    s.(stale := StillOpen(s.stale, closes),
       open := s.open - set id | id in Ids(s.stale) && closes(id))
  }

  predicate Drains(r: Retired, now: Time, members: nat -> Option<nat>) {
    var count := members(r.session.id);
    count.Some? && count.value <= 1 && now - r.at >= ROTATE_GRACE
  }

  predicate ClosesDrained(r: Retired, now: Time, members: nat -> Option<nat>, closes: nat -> bool) {
    Drains(r, now, members) && closes(r.session.id)
  }

  function KeptRetired(retired: seq<Retired>, now: Time, members: nat -> Option<nat>, closes: nat -> bool): seq<Retired> {
    Filter((r: Retired) => !ClosesDrained(r, now, members, closes), retired)
  }

  /** The drained sessions, which are tried in order. */
  function Drained(retired: seq<Retired>, now: Time, members: nat -> Option<nat>): seq<nat> {
    RetiredIds(Filter((r: Retired) => Drains(r, now, members), retired))
  }

  function CloseDrainedSessions(s: State, now: Time, members: nat -> Option<nat>, closes: nat -> bool): State {
    s.(retired := KeptRetired(s.retired, now, members, closes),
       open := s.open - set r | r in s.retired && ClosesDrained(r, now, members, closes) :: r.session.id)
  }

  /** `cleanupPublishedSessions`: closes everything; what fails to close stays, as stale. */
  function Cleanup(s: State, closes: nat -> bool): State {
    var sessions := s.stale + RetiredSessions(s.retired) + if s.current.Some? then [s.current.value] else [];
    s.(stale := StillOpen(sessions, closes),
       retired := [], current := None, connection := None,
       open := s.open - set id | id in Held(s) && closes(id))
  }

  function Release(s: State, closes: nat -> bool): State {
    var cleaned := Cleanup(s, closes);
    cleaned.(relay := None, signaling := None,
             dialed := if s.signaling.Some? then s.dialed - {s.signaling.value} else s.dialed)
  }

  function StartStep(s: State, dial: Option<nat>, publish: PublishEnv, closes: nat -> bool): State {
    if s.started then s else Launched(s.(context := Running, failure := None), dial, publish, closes)
  }

  /** Dials and publishes, or releases what was made and cancels. */
  function Launched(s: State, dial: Option<nat>, publish: PublishEnv, closes: nat -> bool): State {
    if dial.None? then Release(s, closes).(context := Cancelled) else
      var (after, ok) := PublishOn(s.(signaling := dial, dialed := s.dialed + {dial.value}), dial.value, publish);
      if ok then after.(started := true) else Release(after, closes).(context := Cancelled)
  }

  function UpdateStep(s: State, announces: bool, closes: nat -> bool): State {
    if !s.started || s.recovering || s.current.None? || !announces then s else CloseStale(s, closes)
  }

  function RotateStep(s: State, now: Time, announces: bool): State {
    if !s.rotateDue then s else
      var s0 := s.(rotateDue := false);
      if !s.started || s.recovering then s0 else
        var (s1, session) := PublishSession(s0, announces);
        if session.None? then s1
        else if s.current.None? then s1.(current := session)   // never reached: see RotationFindsSession
        else s1.(retired := s.retired + [Retired(s.current.value, now)], current := session)
  }

  function RecreateStep(s: State, dial: Option<nat>, alive: bool, publish: PublishEnv, closes: nat -> bool): State {
    if s.context != Running || !s.started then s else
      var s0 := Release(s.(rotateDue := false), closes);
      if dial.None? || !alive then s0 else
        Republished(s0, dial.value, publish)
  }

  function Republished(s: State, sig: nat, publish: PublishEnv): State {
    var (after, ok) := PublishOn(s.(signaling := Some(sig), dialed := s.dialed + {sig}), sig, publish);
    if ok then after else after.(signaling := None, dialed := after.dialed - {sig})
  }

  function EndRecoveryStep(s: State, error: Option<string>): State {
    if !s.recovering then s
    else if error.Some? && s.context != Cancelled then s.(recovering := false, failure := error, context := Cancelled)
    else s.(recovering := false)
  }

  function Step(s: State, e: Event): State {
    match e
    case Start(dial, publish, closes) => StartStep(s, dial, publish, closes)
    case Update(announces, closes) => UpdateStep(s, announces, closes)
    case SeeRotation => s.(rotateDue := s.current.Some?)
    case Rotate(now, announces) => RotateStep(s, now, announces)
    case CloseDrained(now, members, closes) => CloseDrainedSessions(s.(rotateDue := false), now, members, closes)
    case BeginRecovery(applies) =>
      if s.context == Running && applies then s.(recovering := true, rotateDue := false) else s
    case Recreate(dial, alive, publish, closes) => RecreateStep(s, dial, alive, publish, closes)
    case EndRecovery(error) => EndRecoveryStep(s, error)
    case Close(closes) =>
      if !s.started then s else Release(s.(context := Cancelled), closes).(started := false)
    case CallerCancels => if s.context == Running then s.(context := Cancelled) else s
  }

  function Run(from: State, trace: seq<Event>): State {
    if trace == [] then from else Step(Run(from, trace[..|trace| - 1]), trace[|trace| - 1])
  }

  // ----- conservation of sessions -----

  /** The sessions open in the directory are exactly those the broadcaster remembers, each once. */
  ghost predicate Conserved(s: State) {
    Matches(Held(s), s.open) && forall id | id in s.open :: id < s.nextId
  }

  ghost predicate Matches(held: seq<nat>, open: set<nat>) {
    NoDuplicates(held) && forall id :: id in held <==> id in open
  }

  lemma {:induction false} FilterIds(sessions: seq<Published>, closes: nat -> bool)
    ensures Ids(StillOpen(sessions, closes)) == Filter((id: nat) => !closes(id), Ids(sessions))
  {
    if sessions != [] {
      var n := |sessions| - 1;
      FilterIds(sessions[..n], closes);
      assert Ids(sessions)[..n] == Ids(sessions[..n]);
    }
  }

  lemma {:induction false} FilterRetiredIds(retired: seq<Retired>, keep: Retired -> bool)
    requires NoDuplicates(RetiredIds(retired))
    ensures NoDuplicates(RetiredIds(Filter(keep, retired)))
    ensures forall id :: id in RetiredIds(Filter(keep, retired)) <==>
              exists i | 0 <= i < |retired| :: retired[i].session.id == id && keep(retired[i])
  {
    if retired != [] {
      var n := |retired| - 1;
      var ids, kept := RetiredIds(retired), RetiredIds(Filter(keep, retired[..n]));
      assert RetiredIds(retired[..n]) == ids[..n];
      FilterRetiredIds(retired[..n], keep);
      assert forall i | 0 <= i < n :: retired[..n][i] == retired[i];
      assert RetiredIds(Filter(keep, retired)) == if keep(retired[n]) then kept + [ids[n]] else kept;
      assert forall i | 0 <= i < n :: ids[i] == retired[i].session.id && ids[i] != ids[n];
      assert ids[n] !in kept;
    }
  }

  lemma SplitDuplicates(a: seq<nat>, b: seq<nat>)
    ensures NoDuplicates(a + b) <==> NoDuplicates(a) && NoDuplicates(b) && (forall x | x in a :: x !in b)
  {
    var ab := a + b;
    assert forall i | 0 <= i < |a| :: ab[i] == a[i];
    assert forall i | 0 <= i < |b| :: ab[|a| + i] == b[i];
    if NoDuplicates(ab) {
      forall x | x in a ensures x !in b {
        var i :| 0 <= i < |a| && a[i] == x;
        assert forall j | 0 <= j < |b| :: ab[|a| + j] == b[j] && ab[i] != b[j];
      }
    } else {
      var i, j :| 0 <= i < j < |ab| && ab[i] == ab[j];
      if i < |a| && |a| <= j {
        assert a[i] in a && b[j - |a|] in b;
      } else if |a| <= i {
        assert b[i - |a|] == b[j - |a|];
      }
    }
  }

  /** Dropping the same sessions from one part of what is held and from what is open keeps them matched. */
  lemma DropStaysMatched(a: seq<nat>, b: seq<nat>, c: seq<nat>, kept: seq<nat>, open: set<nat>, dropped: set<nat>)
    requires Matches(a + b + c, open)
    requires NoDuplicates(kept) && forall id :: id in kept <==> id in b && id !in dropped
    requires forall id | id in dropped :: id in b
    ensures Matches(a + kept + c, open - dropped)
  {
    SplitDuplicates(a + b, c);
    SplitDuplicates(a, b);
    SplitDuplicates(a, kept);
    SplitDuplicates(a + kept, c);
    assert forall id :: id in a + b + c <==> id in a || id in b || id in c;
    assert forall id :: id in a + kept + c <==> id in a || id in kept || id in c;
  }

  lemma AddStaysMatched(held: seq<nat>, open: set<nat>, id: nat)
    requires Matches(held, open) && id !in open
    ensures Matches(held + [id], open + {id})
  {
    SplitDuplicates(held, [id]);
    assert forall x :: x in held + [id] <==> x in held || x == id;
  }

  lemma CloseStaleConserves(s: State, closes: nat -> bool)
    requires Conserved(s)
    ensures Conserved(CloseStale(s, closes))
  {
    var a, b := Ids(s.stale), RetiredIds(s.retired) + CurrentId(s);
    var kept := Filter((id: nat) => !closes(id), a);
    FilterIds(s.stale, closes);
    FilterMembers((id: nat) => !closes(id), a);
    assert Held(s) == [] + a + b == a + b;
    SplitDuplicates(a, b);
    FilterKeepsDistinct((id: nat) => !closes(id), a);
    var dropped := set id | id in a && closes(id);
    DropStaysMatched([], a, b, kept, s.open, dropped);
    assert Held(CloseStale(s, closes)) == [] + kept + b;
  }

  lemma CloseDrainedConserves(s: State, now: Time, members: nat -> Option<nat>, closes: nat -> bool)
    requires Conserved(s)
    ensures Conserved(CloseDrainedSessions(s, now, members, closes))
  {
    var keep := (r: Retired) => !ClosesDrained(r, now, members, closes);
    var a, b, c := Ids(s.stale), RetiredIds(s.retired), CurrentId(s);
    var kept := RetiredIds(Filter(keep, s.retired));
    SplitDuplicates(a + b, c);
    SplitDuplicates(a, b);
    FilterRetiredIds(s.retired, keep);
    var dropped := set r | r in s.retired && ClosesDrained(r, now, members, closes) :: r.session.id;
    assert forall id | id in b :: exists i | 0 <= i < |s.retired| :: s.retired[i].session.id == id;
    assert forall id | id in dropped :: id in b by {
      forall id | id in dropped ensures id in b {
        var r :| r in s.retired && r.session.id == id;
        var i :| 0 <= i < |s.retired| && s.retired[i] == r;
        assert b[i] == id;
      }
    }
    forall id ensures id in kept <==> id in b && id !in dropped {
      IsKeptRetired(s.retired, now, members, closes, id);
    }
    DropStaysMatched(a, b, c, kept, s.open, dropped);
  }

  /** A retired session is kept exactly when it is not closed, since no other entry has its id. */
  lemma IsKeptRetired(retired: seq<Retired>, now: Time, members: nat -> Option<nat>, closes: nat -> bool, id: nat)
    requires NoDuplicates(RetiredIds(retired))
    ensures (exists i | 0 <= i < |retired| :: retired[i].session.id == id && !ClosesDrained(retired[i], now, members, closes))
            <==> id in RetiredIds(retired)
                 && id !in set r | r in retired && ClosesDrained(r, now, members, closes) :: r.session.id
  {
    var ids := RetiredIds(retired);
    assert forall i | 0 <= i < |retired| :: ids[i] == retired[i].session.id;
    assert forall i, j | 0 <= i < |ids| && 0 <= j < |ids| && ids[i] == ids[j] :: i == j;
  }

  lemma CleanupConserves(s: State, closes: nat -> bool)
    requires Conserved(s)
    ensures Conserved(Cleanup(s, closes))
    ensures Held(Cleanup(s, closes)) == Filter((id: nat) => !closes(id), Held(s))
  {
    var sessions := s.stale + RetiredSessions(s.retired) + if s.current.Some? then [s.current.value] else [];
    assert Ids(sessions) == Held(s);
    FilterIds(sessions, closes);
    var kept := Filter((id: nat) => !closes(id), Held(s));
    FilterMembers((id: nat) => !closes(id), Held(s));
    FilterKeepsDistinct((id: nat) => !closes(id), Held(s));
    assert Held(Cleanup(s, closes)) == kept;
  }

  lemma PublishConserves(s: State, announces: bool)
    requires Conserved(s)
    ensures var (after, session) := PublishSession(s, announces);
            if session.None? then Conserved(after) else Matches(Held(s) + [session.value.id], after.open)
    ensures forall id | id in PublishSession(s, announces).0.open :: id < PublishSession(s, announces).0.nextId
  {
    if announces {
      AddStaysMatched(Held(s), s.open, s.nextId);
    } else {
      assert Held(PublishSession(s, announces).0) == Held(s);
    }
  }

  lemma PublishOnConserves(s: State, sig: nat, env: PublishEnv)
    requires Conserved(s) && s.current.None? && s.retired == []
    ensures Conserved(PublishOn(s, sig, env).0)
  {
    if env.valid {
      var s0 := s.(connection := Some(Connection(sig)));
      assert Held(s0) == Held(s);
      PublishConserves(s0, env.announces);
      var (after, session) := PublishSession(s0, env.announces);
      if session.Some? {
        assert Held(after.(current := session, relay := Some(sig))) == Held(s) + [session.value.id];
      }
    }
  }

  lemma RotateConserves(s: State, now: Time, announces: bool)
    requires Conserved(s) && Connected(s)
    ensures Conserved(RotateStep(s, now, announces))
  {
    var s0 := s.(rotateDue := false);
    assert Held(s0) == Held(s);
    if s.rotateDue && s.started && !s.recovering {
      PublishConserves(s0, announces);
      var (s1, session) := PublishSession(s0, announces);
      if session.Some? {
        var after := s1.(retired := s.retired + [Retired(s.current.value, now)], current := session);
        assert RetiredIds(after.retired) == RetiredIds(s.retired) + CurrentId(s);
        assert Held(after) == Held(s) + [session.value.id];
      }
    }
  }

  // ----- one connection for the sessions, the relay and the signaling -----

  /** The current session, the relay and the signaling are all present or all absent, and the current and
      retired sessions advertise the signaling that the relay listens to. */
  ghost predicate Aligned(s: State) {
    && s.relay == s.signaling
    && (s.current.Some? <==> s.signaling.Some?)
    && (s.current.None? ==> s.retired == [])
    && (s.signaling.Some? ==>
          && s.connection == Some(Connection(s.signaling.value))
          && s.current.value.connection == s.connection
          && forall r | r in s.retired :: r.session.connection == s.connection)
    && s.dialed == (if s.signaling.Some? then {s.signaling.value} else {})
  }

  ghost predicate Connected(s: State) {
    && Aligned(s)
    && (!s.started ==> s.current.None?)
    && (s.started && s.rotateDue ==> s.current.Some?)
  }

  lemma ReleaseAligns(s: State, closes: nat -> bool)
    requires s.dialed == if s.signaling.Some? then {s.signaling.value} else {}
    ensures Aligned(Release(s, closes)) && Release(s, closes).signaling == None
  {}

  lemma StepStaysConnected(s: State, e: Event)
    requires Connected(s)
    ensures Connected(Step(s, e))
  {
    match e
    case Start(dial, publish, closes) => StartConnects(s, dial, publish, closes);
    case Recreate(dial, alive, publish, closes) => RecreateConnects(s, dial, alive, publish, closes);
    case CloseDrained(now, members, closes) =>
      FilterMembers((r: Retired) => !ClosesDrained(r, now, members, closes), s.retired);
    case Close(closes) => ReleaseAligns(s, closes);
    case _ =>
  }

  lemma StartConnects(s: State, dial: Option<nat>, publish: PublishEnv, closes: nat -> bool)
    requires Connected(s)
    ensures Connected(StartStep(s, dial, publish, closes))
  {}

  lemma RecreateConnects(s: State, dial: Option<nat>, alive: bool, publish: PublishEnv, closes: nat -> bool)
    requires Connected(s)
    ensures Connected(RecreateStep(s, dial, alive, publish, closes))
  {
    ReleaseAligns(s.(rotateDue := false), closes);
  }

  lemma StepConserves(s: State, e: Event)
    requires Conserved(s) && Connected(s)
    ensures Conserved(Step(s, e))
  {
    match e
    case Start(dial, publish, closes) => StartConserves(s, dial, publish, closes);
    case Update(_, closes) => CloseStaleConserves(s, closes);
    case Rotate(now, announces) => RotateConserves(s, now, announces);
    case CloseDrained(now, members, closes) =>
      SameHeld(s, s.(rotateDue := false));
      CloseDrainedConserves(s.(rotateDue := false), now, members, closes);
    case Recreate(dial, alive, publish, closes) => RecreateConserves(s, dial, alive, publish, closes);
    case Close(closes) =>
      SameHeld(s, s.(context := Cancelled));
      ReleaseConserves(s.(context := Cancelled), closes);
      SameHeld(if s.started then Release(s.(context := Cancelled), closes) else s, Step(s, e));
    case SeeRotation => SameHeld(s, Step(s, e));
    case BeginRecovery(_) => SameHeld(s, Step(s, e));
    case EndRecovery(_) => SameHeld(s, Step(s, e));
    case CallerCancels => SameHeld(s, Step(s, e));
  }

  lemma SameHeld(s: State, t: State)
    requires Conserved(s)
    requires t.stale == s.stale && t.retired == s.retired && t.current == s.current
    requires t.open == s.open && t.nextId == s.nextId
    ensures Conserved(t)
  {
    assert Held(t) == Held(s);
  }

  lemma ReleaseConserves(s: State, closes: nat -> bool)
    requires Conserved(s)
    ensures Conserved(Release(s, closes))
  {
    CleanupConserves(s, closes);
    SameHeld(Cleanup(s, closes), Release(s, closes));
  }

  lemma StartConserves(s: State, dial: Option<nat>, publish: PublishEnv, closes: nat -> bool)
    requires Conserved(s) && Connected(s)
    ensures Conserved(StartStep(s, dial, publish, closes))
  {
    if !s.started {
      var s0 := s.(context := Running, failure := None);
      SameHeld(s, s0);
      if dial.None? {
        ReleaseConserves(s0, closes);
        SameHeld(Release(s0, closes), StartStep(s, dial, publish, closes));
      } else {
        var s1 := s0.(signaling := dial, dialed := s.dialed + {dial.value});
        SameHeld(s0, s1);
        PublishOnConserves(s1, dial.value, publish);
        var (s2, ok) := PublishOn(s1, dial.value, publish);
        if ok {
          SameHeld(s2, StartStep(s, dial, publish, closes));
        } else {
          ReleaseConserves(s2, closes);
          SameHeld(Release(s2, closes), StartStep(s, dial, publish, closes));
        }
      }
    }
  }

  lemma RecreateConserves(s: State, dial: Option<nat>, alive: bool, publish: PublishEnv, closes: nat -> bool)
    requires Conserved(s)
    ensures Conserved(RecreateStep(s, dial, alive, publish, closes))
  {
    SameHeld(s, s.(rotateDue := false));
    ReleaseConserves(s.(rotateDue := false), closes);
    var s0 := Release(s.(rotateDue := false), closes);
    if s.context == Running && s.started && dial.Some? && alive {
      var s1 := s0.(signaling := dial, dialed := s0.dialed + {dial.value});
      SameHeld(s0, s1);
      PublishOnConserves(s1, dial.value, publish);
      SameHeld(PublishOn(s1, dial.value, publish).0, Republished(s0, dial.value, publish));
    }
  }

  /** In every run, whatever fails: the sessions announced and not yet closed are exactly those remembered, each
      once; and sessions, relay and signaling stay on one connection. */
  lemma {:induction false} EveryRunConserves(trace: seq<Event>)
    ensures Conserved(Run(INITIAL, trace)) && Connected(Run(INITIAL, trace))
  {
    if trace != [] {
      EveryRunConserves(trace[..|trace| - 1]);
      var s := Run(INITIAL, trace[..|trace| - 1]);
      StepStaysConnected(s, trace[|trace| - 1]);
      StepConserves(s, trace[|trace| - 1]);
    }
  }

  // ----- which retired sessions are closed, and when -----

  lemma {:induction false} RetiredFilterMembers(keep: Retired -> bool, retired: seq<Retired>, r: Retired)
    ensures r in Filter(keep, retired) <==> r in retired && keep(r)
  {
    FilterMembers(keep, retired);
  }

  lemma IdsOfRetired(retired: seq<Retired>, id: nat)
    ensures id in RetiredIds(retired) <==> exists r :: r in retired && r.session.id == id
  {
    var ids := RetiredIds(retired);
    if id in ids {
      var i :| 0 <= i < |ids| && ids[i] == id;
      assert retired[i] in retired;
    }
    if r :| r in retired && r.session.id == id {
      var i :| 0 <= i < |retired| && retired[i] == r;
      assert ids[i] == id;
    }
  }

  lemma OneRetiredPerId(retired: seq<Retired>, r: Retired, t: Retired)
    requires NoDuplicates(RetiredIds(retired)) && r in retired && t in retired && r.session.id == t.session.id
    ensures r == t
  {
    var ids := RetiredIds(retired);
    var i :| 0 <= i < |retired| && retired[i] == r;
    var j :| 0 <= j < |retired| && retired[j] == t;
    assert ids[i] == ids[j];
  }

  /** A retired session whose members are not known, that has more than one, or that was retired less than thirty seconds
      ago, stays and is left alone. Any other is tried once, and is gone if its close succeeds. */
  ghost predicate DrainsAsDue(r: Retired, now: Time, members: nat -> Option<nat>, closes: nat -> bool,
                              retired: seq<Retired>, open: set<nat>, tried: seq<nat>) {
    var id := r.session.id;
    if members(id).None? || members(id).value > 1 || now - r.at < 30_000_000_000 then
      r in retired && id in open && id !in tried
    else
      && multiset(tried)[id] == 1
      && (if closes(id) then id !in RetiredIds(retired) && id !in open else r in retired && id in open)
  }

  lemma DrainsExactly(s: State, now: Time, members: nat -> Option<nat>, closes: nat -> bool, r: Retired)
    requires Conserved(s) && r in s.retired
    ensures var after := CloseDrainedSessions(s, now, members, closes);
            DrainsAsDue(r, now, members, closes, after.retired, after.open, Drained(s.retired, now, members))
  {
    var id, after := r.session.id, CloseDrainedSessions(s, now, members, closes);
    var drains := (t: Retired) => Drains(t, now, members);
    var keep := (t: Retired) => !ClosesDrained(t, now, members, closes);
    HeldRetiredIsOpen(s, r);
    forall t | t in s.retired && t.session.id == id ensures t == r {
      OneRetiredPerId(s.retired, r, t);
    }
    RetiredFilterMembers(keep, s.retired, r);
    FilterRetiredIds(s.retired, drains);
    FilterMembers(drains, s.retired);
    FilterMembers(keep, s.retired);
    IdsOfRetired(Filter(drains, s.retired), id);
    IdsOfRetired(after.retired, id);
    OnceInMultiset(Drained(s.retired, now, members), id);
  }

  lemma DrainAllAsDue(s: State, now: Time, members: nat -> Option<nat>, closes: nat -> bool, before: seq<nat>)
    ensures var after, attempts := CloseDrainedSessions(s, now, members, closes), before + Drained(s.retired, now, members);
            Conserved(s) ==> forall r | r in s.retired ::
              DrainsAsDue(r, now, members, closes, after.retired, after.open, attempts[|before|..])
  {
    var after, attempts := CloseDrainedSessions(s, now, members, closes), before + Drained(s.retired, now, members);
    assert attempts[|before|..] == Drained(s.retired, now, members);
    if Conserved(s) {
      forall r | r in s.retired ensures DrainsAsDue(r, now, members, closes, after.retired, after.open, attempts[|before|..]) {
        DrainsExactly(s, now, members, closes, r);
      }
    }
  }

  /** Sessions that are not retired are not closed by it. */
  lemma DrainsRetiredOnly(s: State, now: Time, members: nat -> Option<nat>, closes: nat -> bool, id: nat)
    requires id in s.open && id !in RetiredIds(s.retired)
    ensures id in CloseDrainedSessions(s, now, members, closes).open
  {
    IdsOfRetired(s.retired, id);
  }

  lemma HeldRetiredIsOpen(s: State, r: Retired)
    requires Conserved(s) && r in s.retired
    ensures r.session.id in s.open && NoDuplicates(RetiredIds(s.retired))
  {
    IdsOfRetired(s.retired, r.session.id);
    assert Held(s) == Ids(s.stale) + RetiredIds(s.retired) + CurrentId(s);
    SplitDuplicates(Ids(s.stale) + RetiredIds(s.retired), CurrentId(s));
    SplitDuplicates(Ids(s.stale), RetiredIds(s.retired));
    assert r.session.id in Held(s);
  }

  lemma {:induction false} OnceInMultiset(tried: seq<nat>, id: nat)
    requires NoDuplicates(tried)
    ensures multiset(tried)[id] == if id in tried then 1 else 0
  {
    if tried != [] {
      var n := |tried| - 1;
      assert tried == tried[..n] + [tried[n]];
      OnceInMultiset(tried[..n], id);
    }
  }

  /** Entry `r` was retired by the rotation at step `m`. */
  ghost predicate RetiredAt(trace: seq<Event>, m: nat, r: Retired) {
    && m < |trace| && trace[m].Rotate? && trace[m].now == r.at
    && Run(INITIAL, trace[..m]).current == Some(r.session)
  }

  lemma RetiredAtLasts(trace: seq<Event>, e: Event, m: nat, r: Retired)
    requires RetiredAt(trace, m, r)
    ensures RetiredAt(trace + [e], m, r)
  {
    assert (trace + [e])[..m] == trace[..m];
  }

  /** Only a rotation retires, and it retires the current session at the time it has. */
  lemma StepRetires(s: State, e: Event, r: Retired)
    requires r in Step(s, e).retired && r !in s.retired
    ensures e.Rotate? && e.now == r.at && s.current == Some(r.session)
  {
    match e
    case CloseDrained(now, members, closes) =>
      FilterMembers((t: Retired) => !ClosesDrained(t, now, members, closes), s.retired);
    case Start(dial, publish, closes) => StartRetiresNothing(s, dial, publish, closes);
    case Recreate(dial, alive, publish, closes) => RecreateRetiresNothing(s, dial, alive, publish, closes);
    case _ =>
  }

  lemma StartRetiresNothing(s: State, dial: Option<nat>, publish: PublishEnv, closes: nat -> bool)
    ensures StartStep(s, dial, publish, closes).retired in {s.retired, []}
  {}

  lemma RecreateRetiresNothing(s: State, dial: Option<nat>, alive: bool, publish: PublishEnv, closes: nat -> bool)
    ensures RecreateStep(s, dial, alive, publish, closes).retired in {s.retired, []}
  {}

  lemma {:induction false} RetiredByRotation(trace: seq<Event>, r: Retired) returns (m: nat)
    requires r in Run(INITIAL, trace).retired
    ensures RetiredAt(trace, m, r)
  {
    var front, e := trace[..|trace| - 1], trace[|trace| - 1];
    var s := Run(INITIAL, front);
    assert trace == front + [e] && Run(INITIAL, trace) == Step(s, e);
    if r in s.retired {
      m := RetiredByRotation(front, r);
      RetiredAtLasts(front, e, m, r);
    } else {
      StepRetires(s, e, r);
      m := |front|;
    }
  }

  /** In every run, a session that the clearing of drained sessions closes was the current one when a rotation retired it
      thirty seconds ago or more, and nobody but the bot was known to be in it. */
  lemma DrainedAfterGrace(trace: seq<Event>, n: nat, id: nat) returns (m: nat)
    requires n < |trace| && trace[n].CloseDrained?
    requires id in Run(INITIAL, trace[..n]).open && id !in Step(Run(INITIAL, trace[..n]), trace[n]).open
    ensures m < n && trace[m].Rotate? && trace[n].now - trace[m].now >= 30_000_000_000
    ensures CurrentId(Run(INITIAL, trace[..m])) == [id]
    ensures trace[n].members(id).Some? && trace[n].members(id).value <= 1
  {
    var front, e := trace[..n], trace[n];
    var s := Run(INITIAL, front).(rotateDue := false);
    EveryRunConserves(front);
    SameHeld(Run(INITIAL, front), s);
    var r :| r in s.retired && r.session.id == id && ClosesDrained(r, e.now, e.members, e.closes);
    DrainsExactly(s, e.now, e.members, e.closes, r);
    m := RetiredByRotation(front, r);
    assert front[..m] == trace[..m];
  }

  /** The same conservation as an equation between multisets. */
  lemma {:induction false} OpenIsHeld(trace: seq<Event>)
    ensures var s := Run(INITIAL, trace); multiset(Held(s)) == multiset(s.open)
  {
    EveryRunConserves(trace);
    MatchesAsMultiset(Held(Run(INITIAL, trace)), Run(INITIAL, trace).open);
  }

  lemma {:induction false} MatchesAsMultiset(held: seq<nat>, open: set<nat>)
    requires Matches(held, open)
    ensures multiset(held) == multiset(open)
  {
    if held != [] {
      var front, last := held[..|held| - 1], held[|held| - 1];
      assert held == front + [last];
      SplitDuplicates(front, [last]);
      assert forall id :: id in held <==> id in front || id == last;
      MatchesAsMultiset(front, open - {last});
    }
  }

  /** A rotation never finds the current session gone. */
  lemma {:induction false} RotationFindsSession(trace: seq<Event>)
    ensures var s := Run(INITIAL, trace); s.started && s.rotateDue ==> s.current.Some?
  {
    EveryRunConserves(trace);
  }

  /** After `Close` the only sessions left open are those whose close failed just then. */
  lemma {:induction false} CloseLeavesOnlyFailures(trace: seq<Event>, closes: nat -> bool)
    ensures var s, t := Run(INITIAL, trace), Step(Run(INITIAL, trace), Close(closes));
            s.started ==>
              && t.open == (set id | id in s.open && !closes(id))
              && t.current == None && t.retired == [] && t.dialed == {} && t.relay == None
  {
    EveryRunConserves(trace);
    ReleaseAligns(Run(INITIAL, trace), closes);
  }

  // ----- a session that is no longer current -----

  /** The session that an event announces, if it announces one. */
  function Announces(s: State, e: Event): Option<nat> {
    match e
    case Update(_, _) => if s.started && !s.recovering && s.current.Some? then Some(s.current.value.id) else None
    case Start(dial, publish, _) => if !s.started && dial.Some? && publish.valid then Some(s.nextId) else None
    case Recreate(dial, alive, publish, _) =>
      if s.context == Running && s.started && dial.Some? && alive && publish.valid then Some(s.nextId) else None
    case Rotate(_, _) => if s.rotateDue && s.started && !s.recovering then Some(s.nextId) else None
    case _ => None
  }

  ghost predicate Demoted(s: State, id: nat) { id < s.nextId && CurrentId(s) != [id] }

  lemma {:induction false} StaysDemoted(s: State, e: Event, id: nat)
    requires Demoted(s, id)
    ensures Demoted(Step(s, e), id) && Announces(s, e) != Some(id)
  {
    match e
    case Start(dial, publish, closes) => StartDemotes(s, dial, publish, closes, id);
    case Recreate(dial, alive, publish, closes) => RecreateDemotes(s, dial, alive, publish, closes, id);
    case _ =>
  }

  lemma StartDemotes(s: State, dial: Option<nat>, publish: PublishEnv, closes: nat -> bool, id: nat)
    requires Demoted(s, id)
    ensures Demoted(StartStep(s, dial, publish, closes), id)
  {}

  lemma RecreateDemotes(s: State, dial: Option<nat>, alive: bool, publish: PublishEnv, closes: nat -> bool, id: nat)
    requires Demoted(s, id)
    ensures Demoted(RecreateStep(s, dial, alive, publish, closes), id)
  {}

  ghost predicate AnnouncedIn(s: State, trace: seq<Event>, id: nat) {
    exists i: nat :: i < |trace| && Announces(Run(s, trace[..i]), trace[i]) == Some(id)
  }

  lemma AnnouncedInSnoc(s: State, front: seq<Event>, e: Event, id: nat)
    ensures AnnouncedIn(s, front + [e], id) <==> AnnouncedIn(s, front, id) || Announces(Run(s, front), e) == Some(id)
  {
    var n, all := |front|, front + [e];
    assert all[..n] == front && all[n] == e;
    assert forall i: nat | i < n :: all[..i] == front[..i] && all[i] == front[i];
  }

  /** A session that is no longer current never becomes current again and is never announced again. */
  lemma {:induction false} DemotedIsFinal(s: State, trace: seq<Event>, id: nat)
    requires Demoted(s, id)
    ensures Demoted(Run(s, trace), id) && !AnnouncedIn(s, trace, id)
  {
    if trace != [] {
      var front, last := trace[..|trace| - 1], trace[|trace| - 1];
      assert trace == front + [last];
      DemotedIsFinal(s, front, id);
      AnnouncedInSnoc(s, front, last, id);
      StaysDemoted(Run(s, front), last, id);
    }
  }

  lemma RetiredIsDemoted(trace: seq<Event>, r: Retired)
    requires r in Run(INITIAL, trace).retired
    ensures Demoted(Run(INITIAL, trace), r.session.id)
  {
    EveryRunConserves(trace);
    var s := Run(INITIAL, trace);
    var i :| 0 <= i < |s.retired| && s.retired[i] == r;
    assert RetiredIds(s.retired)[i] == r.session.id;
    var rest := Ids(s.stale) + RetiredIds(s.retired);
    SplitDuplicates(rest, CurrentId(s));
    assert r.session.id in rest;
    assert r.session.id in Held(s);
  }

  // ----- what each event does, from the outcomes of its calls -----

  /** Everything is let go: every session held is tried, those whose close fails are stale, and no connection is left. */
  ghost predicate LetsGo(s: State, t: State, closes: nat -> bool) {
    && t.current == None && t.retired == [] && t.relay == None && t.signaling == None && t.connection == None
    && t.dialed == (if s.signaling.Some? then s.dialed - {s.signaling.value} else s.dialed)
    && (forall id :: id in t.open <==> id in s.open && !(id in Held(s) && closes(id)))
    && (forall id :: id in Ids(t.stale) <==> id in Held(s) && !closes(id))
    && t.nextId == s.nextId && t.rotateDue == s.rotateDue && t.recovering == s.recovering
  }

  lemma ReleaseLetsGo(s: State, closes: nat -> bool)
    ensures LetsGo(s, Release(s, closes), closes)
  {
    var sessions := s.stale + RetiredSessions(s.retired) + if s.current.Some? then [s.current.value] else [];
    assert Ids(sessions) == Held(s);
    FilterIds(sessions, closes);
    FilterMembers((id: nat) => !closes(id), Held(s));
  }

  predicate Publishable(dial: Option<nat>, publish: PublishEnv) { dial.Some? && publish.valid && publish.announces }

  /** `Start` is refused while started. Otherwise it starts, with one new session on the connection it dialled, if it dials, the session
      is valid and its announcement goes through. */
  lemma StartSucceeds(s: State, dial: Option<nat>, publish: PublishEnv, closes: nat -> bool)
    ensures var t := Step(s, Start(dial, publish, closes));
            && (s.started ==> t == s)
            && (!s.started && Publishable(dial, publish) ==>
                  t == s.(context := Running, started := true, failure := None,
                          current := Some(Published(s.nextId, Some(Connection(dial.value)))),
                          signaling := dial, relay := dial, connection := Some(Connection(dial.value)),
                          nextId := s.nextId + 1, open := s.open + {s.nextId}, dialed := s.dialed + {dial.value}))
  {}

  /** If not, it lets go of everything it made, and its context is ended. */
  lemma {:induction false} StartFails(s: State, dial: Option<nat>, publish: PublishEnv, closes: nat -> bool)
    requires !s.started && !Publishable(dial, publish)
    ensures var t := Step(s, Start(dial, publish, closes));
            && t.context == Cancelled && !t.started && t.failure == None
            && t.nextId == (if dial.Some? && publish.valid then s.nextId + 1 else s.nextId)
            && LetsGo(s.(nextId := t.nextId, signaling := if dial.Some? then dial else s.signaling,
                         dialed := if dial.Some? then s.dialed + {dial.value} else s.dialed), t, closes)
  {
    var s0 := s.(context := Running, failure := None);
    var made := if dial.Some? then PublishOn(s0.(signaling := dial, dialed := s.dialed + {dial.value}), dial.value, publish).0 else s0;
    var like := s.(nextId := made.nextId, signaling := made.signaling, dialed := made.dialed);
    ReleaseLetsGo(made, closes);
    SameHeldAs(made, like);
    LetsGoAlike(made, like, Release(made, closes), Release(made, closes).(context := Cancelled), closes);
  }

  /** What is let go depends on the sessions and connections alone. */
  lemma LetsGoAlike(s: State, like: State, t: State, end: State, closes: nat -> bool)
    requires LetsGo(s, t, closes) && Held(like) == Held(s) && like.open == s.open && like.nextId == s.nextId
    requires like.signaling == s.signaling && like.dialed == s.dialed && like.rotateDue == s.rotateDue && like.recovering == s.recovering
    requires end == t.(context := end.context)
    ensures LetsGo(like, end, closes)
  {}

  lemma SameHeldAs(s: State, t: State)
    requires t.stale == s.stale && t.retired == s.retired && t.current == s.current
    ensures Held(t) == Held(s)
  {}

  /** `Update` closes what is stale exactly if it announces: it is started and not recovering, and there is a current session. */
  lemma UpdateIff(s: State, announces: bool, closes: nat -> bool)
    ensures var t := Step(s, Update(announces, closes));
            if s.started && !s.recovering && s.current.Some? && announces then
              && t == s.(stale := t.stale, open := t.open)
              && (forall id :: id in t.open <==> id in s.open && !(id in Ids(s.stale) && closes(id)))
              && (forall id :: id in Ids(t.stale) <==> id in Ids(s.stale) && !closes(id))
            else t == s
  {
    FilterIds(s.stale, closes);
    FilterMembers((id: nat) => !closes(id), Ids(s.stale));
  }

  /** A rotation is due once a current session was seen nearly full, and until it is tried or given up. */
  lemma RotationIff(s: State, now: Time, announces: bool)
    requires Connected(s)
    ensures Step(s, SeeRotation) == s.(rotateDue := s.current.Some?)
    ensures var t := Step(s, Rotate(now, announces));
            if s.rotateDue && s.started && !s.recovering && announces then
              t == s.(rotateDue := false, nextId := s.nextId + 1, open := s.open + {s.nextId},
                      retired := s.retired + [Retired(s.current.value, now)], current := Some(Published(s.nextId, s.connection)))
            else t == s.(rotateDue := false, nextId := if s.rotateDue && s.started && !s.recovering then s.nextId + 1 else s.nextId)
  {}

  /** A recovery begins if the context runs and the issue still applies, and ends with its error reported if the context has not ended. */
  lemma RecoveryIff(s: State, applies: bool, error: Option<string>)
    ensures Step(s, BeginRecovery(applies)) ==
            if s.context == Running && applies then s.(recovering := true, rotateDue := false) else s
    ensures var t := Step(s, EndRecovery(error));
            && !t.recovering
            && (if s.recovering && error.Some? && s.context != Cancelled then t == s.(recovering := false, context := Cancelled, failure := error)
                else t == s.(recovering := false))
  {}

  /** Recreating lets everything go and then publishes one session on a connection that is dialled and alive, or has none. */
  lemma RecreateIff(s: State, dial: Option<nat>, alive: bool, publish: PublishEnv, closes: nat -> bool)
    requires Connected(s)
    ensures var t := Step(s, Recreate(dial, alive, publish, closes));
            if s.context != Running || !s.started then t == s
            else
              && !t.rotateDue && t.started && t.context == Running && t.failure == s.failure && t.recovering == s.recovering
              && t.retired == [] && (forall id :: id in Ids(t.stale) <==> id in Held(s) && !closes(id))
              && (if dial.Some? && alive && publish.valid && publish.announces then
                    && t.current == Some(Published(s.nextId, Some(Connection(dial.value)))) && t.signaling == t.relay == dial
                    && t.nextId == s.nextId + 1 && t.dialed == {dial.value}
                    && (forall id :: id in t.open <==> id == s.nextId || (id in s.open && !(id in Held(s) && closes(id))))
                  else
                    && t.current == None && t.signaling == t.relay == None && t.dialed == {}
                    && (forall id :: id in t.open <==> id in s.open && !(id in Held(s) && closes(id))))
  {
    var s0 := s.(rotateDue := false);
    SameHeldAs(s, s0);
    ReleaseLetsGo(s0, closes);
  }

  /** Closing a started broadcaster lets everything go and ends its context, and the context that `Start` was given may end by itself. */
  lemma CloseIff(s: State, closes: nat -> bool)
    ensures var t := Step(s, Close(closes));
            if !s.started then t == s else !t.started && t.context == Cancelled && t.failure == s.failure && LetsGo(s, t, closes)
    ensures Step(s, CallerCancels) == if s.context == Running then s.(context := Cancelled) else s
    ensures Step(s, CallerCancels).context != Running
  {
    var s0 := s.(context := Cancelled);
    SameHeldAs(s, s0);
    ReleaseLetsGo(s0, closes);
  }

  /** Clearing drained sessions changes nothing but the retired ones, and no rotation is due any more. */
  lemma DrainingKeepsTheRest(s: State, now: Time, members: nat -> Option<nat>, closes: nat -> bool)
    ensures var t := Step(s, CloseDrained(now, members, closes));
            t == s.(rotateDue := false, retired := t.retired, open := t.open)
  {}

  // ----- the error that `Wait` returns -----

  /** `Wait` returns once the context is done, with the recorded failure. */
  function WaitResult(s: State): Option<string> { s.failure }

  ghost predicate WaitReturns(s: State) { s.context == Cancelled }

  predicate AcceptsStart(s: State, e: Event) { e.Start? && !s.started }

  ghost predicate StartAcceptedIn(s: State, trace: seq<Event>) {
    exists i: nat :: i < |trace| && AcceptsStart(Run(s, trace[..i]), trace[i])
  }

  lemma FailureStays(s: State, e: Event)
    requires WaitReturns(s) && !AcceptsStart(s, e)
    ensures WaitReturns(Step(s, e)) && WaitResult(Step(s, e)) == WaitResult(s)
  {}

  lemma StartAcceptedSnoc(s: State, front: seq<Event>, e: Event)
    ensures StartAcceptedIn(s, front + [e]) <==> StartAcceptedIn(s, front) || AcceptsStart(Run(s, front), e)
  {
    var n, all := |front|, front + [e];
    assert all[..n] == front && all[n] == e;
    assert forall i: nat | i < n :: all[..i] == front[..i] && all[i] == front[i];
  }

  lemma {:induction false} FailureStaysUntilStart(s: State, trace: seq<Event>)
    requires WaitReturns(s) && !StartAcceptedIn(s, trace)
    ensures WaitReturns(Run(s, trace)) && WaitResult(Run(s, trace)) == WaitResult(s)
  {
    if trace != [] {
      var front, last := trace[..|trace| - 1], trace[|trace| - 1];
      assert trace == front + [last];
      StartAcceptedSnoc(s, front, last);
      FailureStaysUntilStart(s, front);
      FailureStays(Run(s, front), last);
    }
  }

  /** A recovery that is exhausted while the context still runs ends it, and every later `Wait`
      returns that error until a `Start` is accepted. */
  lemma {:induction false} ExhaustedRecoveryIsReported(s: State, error: string, trace: seq<Event>)
    requires s.recovering && s.context != Cancelled
    requires !StartAcceptedIn(Step(s, EndRecovery(Some(error))), trace)
    ensures var after := Run(Step(s, EndRecovery(Some(error))), trace);
            WaitReturns(after) && WaitResult(after) == Some(error)
  {
    FailureStaysUntilStart(Step(s, EndRecovery(Some(error))), trace);
  }
}
