/** The lifecycle and the announcers together: each lifecycle event that announces a session runs that
    session's announcer, and hides and nonce updates of any session interleave with it. */
module PublishedSystem {
  import opened Common
  import opened Publication
  import Life = Lifecycle
  import Ann = NonceAnnouncer

  datatype System = System(life: Life.State, announcers: map<nat, Ann.Announcer>)

  /** `status` is what the status provider returns, `env` how the announcement's calls turn out. */
  datatype Event =
    | Lifecycle(e: Life.Event, status: Status, env: Ann.AnnounceEnv)
    | OnSession(id: nat, op: Ann.Op)

  const INITIAL := System(Life.INITIAL, map[])

  /** The connection that the announcing event's announcer was wrapped with. */
  function ConnectionFor(s: Life.State, e: Life.Event): Option<Connection> {
    match e
    case Start(dial, _, _) => if dial.Some? then Some(Connection(dial.value)) else None
    case Recreate(dial, _, _, _) => if dial.Some? then Some(Connection(dial.value)) else None
    case Update(_, _) => if s.current.Some? then s.current.value.connection else None
    case _ => s.connection
  }

  /** The connection wrapper replaces whatever connections the status carries. */
  function Wrapped(status: Status, connection: Option<Connection>): Status {
    if connection.Some? then status.(connections := [connection.value]) else status
  }

  function AnnouncerOf(s: System, id: nat): Ann.Announcer {
    if id in s.announcers then s.announcers[id] else Ann.FRESH
  }

  function WithOutcome(e: Life.Event, ok: bool): Life.Event {
    match e
    case Start(dial, publish, closes) => Life.Start(dial, publish.(announces := ok), closes)
    case Recreate(dial, alive, publish, closes) => Life.Recreate(dial, alive, publish.(announces := ok), closes)
    case Update(_, closes) => Life.Update(ok, closes)
    case Rotate(now, _) => Life.Rotate(now, ok)
    case _ => e
  }

  function Step(cfg: Ann.Config, s: System, event: Event): System {
    match event
    case Lifecycle(e, status, env) =>
      var target := Life.Announces(s.life, e);
      if target.None? then s.(life := Life.Step(s.life, e)) else
        var id := target.value;
        var r := Ann.Announce(cfg, true, AnnouncerOf(s, id), Wrapped(status, ConnectionFor(s.life, e)), env);
        System(Life.Step(s.life, WithOutcome(e, r.failure.None?)), s.announcers[id := r.after])
    case OnSession(id, op) =>
      if id !in s.announcers || op.AnnounceOp? then s
      else s.(announcers := s.announcers[id := Ann.Apply(cfg, true, s.announcers[id], op).after])
  }

  function Run(cfg: Ann.Config, from: System, trace: seq<Event>): System {
    if trace == [] then from else Step(cfg, Run(cfg, from, trace[..|trace| - 1]), trace[|trace| - 1])
  }

  // ----- every document advertises the session's own connection -----

  /** What the announcer has written and will write again carries exactly one connection. */
  ghost predicate Carries(a: Ann.Announcer, c: Connection) {
    && a.lastStatus.connections == [c]
    && (a.session.Some? ==> a.session.value.document.status.connections == [c])
  }

  ghost predicate IsHeld(s: Life.State, p: Life.Published) {
    || p in s.stale
    || s.current == Some(p)
    || exists r | r in s.retired :: r.session == p
  }

  ghost predicate Advertised(s: System, p: Life.Published) {
    && p.id in s.announcers
    && p.connection.Some?
    && Carries(s.announcers[p.id], p.connection.value)
  }

  ghost predicate AllAdvertised(s: System) {
    && (forall p | IsHeld(s.life, p) :: Advertised(s, p))
    && (forall id | id in s.announcers :: id < s.life.nextId)
  }

  lemma HeldAfterRelease(s: Life.State, closes: nat -> bool, p: Life.Published)
    requires IsHeld(Life.Release(s, closes), p)
    ensures IsHeld(s, p)
  {
    var sessions := s.stale + Life.RetiredSessions(s.retired) + if s.current.Some? then [s.current.value] else [];
    FilterMembers((q: Life.Published) => !closes(q.id), sessions);
    assert p in sessions;
    if p in Life.RetiredSessions(s.retired) {
      var i :| 0 <= i < |s.retired| && Life.RetiredSessions(s.retired)[i] == p;
      assert s.retired[i] in s.retired;
    }
  }

  /** `p` is the session that event `e` announces for the first time. */
  ghost predicate IsNew(s: Life.State, e: Life.Event, p: Life.Published) {
    Life.Announces(s, e) == Some(p.id) && p.id == s.nextId && p.connection == ConnectionFor(s, e) && p.connection.Some?
  }

  lemma HeldAfterStart(s: Life.State, e: Life.Event, p: Life.Published)
    requires e.Start? && IsHeld(Life.Step(s, e), p)
    ensures IsHeld(s, p) || (IsNew(s, e, p) && e.publish.announces)
  {
    if !s.started {
      var s0 := s.(context := Life.Running, failure := None);
      if e.dial.None? {
        HeldAfterRelease(s0, e.closes, p);
      } else {
        var s1 := s0.(signaling := e.dial, dialed := s.dialed + {e.dial.value});
        var (s2, ok) := Life.PublishOn(s1, e.dial.value, e.publish);
        if !ok {
          HeldAfterRelease(s2, e.closes, p);
        }
      }
    }
  }

  lemma HeldAfterRecreate(s: Life.State, e: Life.Event, p: Life.Published)
    requires e.Recreate? && IsHeld(Life.Step(s, e), p)
    ensures IsHeld(s, p) || (IsNew(s, e, p) && e.publish.announces)
  {
    if s.context == Life.Running && s.started {
      var s0 := Life.Release(s.(rotateDue := false), e.closes);
      if IsHeld(s0, p) {
        HeldAfterRelease(s.(rotateDue := false), e.closes, p);
      }
    }
  }

  lemma HeldAfterRotate(s: Life.State, e: Life.Event, p: Life.Published)
    requires e.Rotate? && Life.Connected(s) && IsHeld(Life.Step(s, e), p)
    ensures IsHeld(s, p) || (IsNew(s, e, p) && e.announces)
  {}

  /** After an event every session held was held before, or is the one it announced. */
  lemma HeldAfter(s: Life.State, e: Life.Event, p: Life.Published)
    requires Life.Connected(s) && IsHeld(Life.Step(s, e), p)
    ensures IsHeld(s, p) || (IsNew(s, e, p) && Announced(e))
  {
    match e
    case Start(_, _, _) => HeldAfterStart(s, e, p);
    case Recreate(_, _, _, _) => HeldAfterRecreate(s, e, p);
    case Rotate(_, _) => HeldAfterRotate(s, e, p);
    case Update(_, closes) => FilterMembers((q: Life.Published) => !closes(q.id), s.stale);
    case CloseDrained(now, members, closes) =>
      FilterMembers((r: Life.Retired) => !Life.ClosesDrained(r, now, members, closes), s.retired);
    case Close(closes) =>
      if s.started { HeldAfterRelease(s.(context := Life.Cancelled), closes, p); }
    case _ =>
  }

  /** Whether the announcement that `e` makes succeeds. */
  predicate Announced(e: Life.Event) {
    match e
    case Start(_, publish, _) => publish.announces
    case Recreate(_, _, publish, _) => publish.announces
    case Update(announces, _) => announces
    case Rotate(_, announces) => announces
    case _ => false
  }

  lemma AnnounceCarries(cfg: Ann.Config, a: Ann.Announcer, status: Status, env: Ann.AnnounceEnv, c: Connection)
    requires status.connections == [c]
    requires Carries(a, c) || (a == Ann.FRESH && Ann.Announce(cfg, true, a, status, env).failure == None)
    ensures Carries(Ann.Announce(cfg, true, a, status, env).after, c)
  {}

  lemma OpCarries(cfg: Ann.Config, a: Ann.Announcer, op: Ann.Op, c: Connection)
    requires Carries(a, c) && !op.AnnounceOp?
    ensures Carries(Ann.Apply(cfg, true, a, op).after, c)
  {}

  lemma PublishOnGrows(s: Life.State, sig: nat, env: Life.PublishEnv)
    ensures Life.PublishOn(s, sig, env).0.nextId == s.nextId + if env.valid then 1 else 0
  {}

  lemma NextIdGrowsAtStart(s: Life.State, e: Life.Event)
    requires e.Start?
    ensures s.nextId <= Life.Step(s, e).nextId
    ensures Life.Announces(s, e).Some? ==> s.nextId < Life.Step(s, e).nextId
  {
    if !s.started && e.dial.Some? {
      var s0 := s.(context := Life.Running, failure := None);
      PublishOnGrows(s0.(signaling := e.dial, dialed := s.dialed + {e.dial.value}), e.dial.value, e.publish);
    }
  }

  lemma {:induction false} NextIdGrows(s: Life.State, e: Life.Event)
    ensures s.nextId <= Life.Step(s, e).nextId
    ensures Life.Announces(s, e) == Some(s.nextId) && !e.Update? ==> s.nextId < Life.Step(s, e).nextId
  {
    if e.Start? {
      NextIdGrowsAtStart(s, e);
    } else if e.Recreate? && e.dial.Some? {
      var s0 := Life.Release(s.(rotateDue := false), e.closes);
      PublishOnGrows(s0.(signaling := e.dial, dialed := s0.dialed + {e.dial.value}), e.dial.value, e.publish);
    }
  }

  /** An event announces the current session or the next new one. */
  lemma AnnouncesCurrentOrNew(s: Life.State, e: Life.Event)
    ensures var id := Life.Announces(s, e);
            id.Some? ==> id == Some(s.nextId) || (e.Update? && s.current.Some? && id == Some(s.current.value.id))
  {}

  lemma OutcomeChangesLittle(s: Life.State, e: Life.Event, ok: bool)
    ensures Life.Announces(s, WithOutcome(e, ok)) == Life.Announces(s, e)
    ensures ConnectionFor(s, WithOutcome(e, ok)) == ConnectionFor(s, e)
    ensures Life.Announces(s, e).Some? ==> Announced(WithOutcome(e, ok)) == ok
  {}

  lemma LifecycleKeepsAdvertised(cfg: Ann.Config, s: System, e: Life.Event, status: Status, env: Ann.AnnounceEnv)
    requires AllAdvertised(s) && Life.Conserved(s.life) && Life.Connected(s.life)
    ensures AllAdvertised(Step(cfg, s, Lifecycle(e, status, env)))
  {
    var after := Step(cfg, s, Lifecycle(e, status, env));
    var target := Life.Announces(s.life, e);
    if target.None? {
      NextIdGrows(s.life, e);
      forall p | IsHeld(after.life, p) ensures Advertised(after, p) {
        HeldAfter(s.life, e, p);
      }
    } else {
      var a := AnnouncerOf(s, target.value);
      var wrapped := Wrapped(status, ConnectionFor(s.life, e));
      var r := Ann.Announce(cfg, true, a, wrapped, env);
      var e' := WithOutcome(e, r.failure.None?);
      OutcomeChangesLittle(s.life, e, r.failure.None?);
      NextIdGrows(s.life, e');
      AnnouncesCurrentOrNew(s.life, e);
      if e.Update? { HeldIsOpen(s.life, s.life.current.value); }
      forall p | IsHeld(after.life, p) ensures Advertised(after, p) {
        HeldAfter(s.life, e', p);
        if p.id == target.value {
          TargetCarries(cfg, s, e, status, env, p);
        }
      }
    }
  }

  lemma TargetCarries(cfg: Ann.Config, s: System, e: Life.Event, status: Status, env: Ann.AnnounceEnv, p: Life.Published)
    requires AllAdvertised(s) && Life.Conserved(s.life) && Life.Connected(s.life)
    requires Life.Announces(s.life, e) == Some(p.id)
    requires var r := Ann.Announce(cfg, true, AnnouncerOf(s, p.id), Wrapped(status, ConnectionFor(s.life, e)), env);
             IsHeld(s.life, p) || (IsNew(s.life, e, p) && r.failure.None?)
    ensures p.connection.Some?
    ensures Carries(Ann.Announce(cfg, true, AnnouncerOf(s, p.id), Wrapped(status, ConnectionFor(s.life, e)), env).after,
                    p.connection.value)
  {
    AnnouncesCurrentOrNew(s.life, e);
    if IsHeld(s.life, p) {
      assert Advertised(s, p);
      HeldIsOpen(s.life, p);
      assert s.life.current.Some? && s.life.current.value.id == p.id;
      assert IsHeld(s.life, s.life.current.value);
      OneSessionPerId(s.life, p);
    }
    AnnounceCarries(cfg, AnnouncerOf(s, p.id), Wrapped(status, ConnectionFor(s.life, e)), env, p.connection.value);
  }

  lemma HeldIsOpen(s: Life.State, p: Life.Published)
    requires Life.Conserved(s) && IsHeld(s, p)
    ensures p.id in Life.Held(s) && p.id < s.nextId
  {
    if p in s.stale {
      var i :| 0 <= i < |s.stale| && s.stale[i] == p;
      assert Life.Ids(s.stale)[i] == p.id;
    } else if s.current == Some(p) {
      assert Life.CurrentId(s)[0] == p.id;
    } else {
      var r :| r in s.retired && r.session == p;
      var i :| 0 <= i < |s.retired| && s.retired[i] == r;
      assert Life.RetiredIds(s.retired)[i] == p.id;
    }
  }

  /** No other session that is held has the current session's number. */
  lemma OneSessionPerId(s: Life.State, p: Life.Published)
    requires Life.Conserved(s) && IsHeld(s, p)
    requires s.current.Some? && s.current.value.id == p.id
    ensures s.current == Some(p)
  {
    var stale, retired := Life.Ids(s.stale), Life.RetiredIds(s.retired);
    Life.SplitDuplicates(stale + retired, Life.CurrentId(s));
    assert Life.CurrentId(s)[0] == p.id;
    assert forall i | 0 <= i < |stale| :: (stale + retired)[i] == stale[i] == s.stale[i].id;
    assert forall i | 0 <= i < |retired| :: (stale + retired)[|stale| + i] == retired[i] == s.retired[i].session.id;
    assert p.id !in stale + retired;
    assert forall i | 0 <= i < |stale| :: stale[i] in stale + retired;
    assert forall i | 0 <= i < |retired| :: retired[i] in stale + retired;
  }

  lemma OpKeepsAdvertised(cfg: Ann.Config, s: System, id: nat, op: Ann.Op)
    requires AllAdvertised(s)
    ensures AllAdvertised(Step(cfg, s, OnSession(id, op)))
  {
    var after := Step(cfg, s, OnSession(id, op));
    forall p | IsHeld(after.life, p) ensures Advertised(after, p) {
      assert Advertised(s, p);
      if p.id == id && !op.AnnounceOp? {
        OpCarries(cfg, s.announcers[id], op, p.connection.value);
      }
    }
  }

  /** What the lifecycle model proves of its own runs holds inside the system. */
  lemma {:induction false} SystemStaysSound(cfg: Ann.Config, trace: seq<Event>)
    ensures var s := Run(cfg, INITIAL, trace);
            Life.Conserved(s.life) && Life.Connected(s.life) && AllAdvertised(s)
  {
    if trace != [] {
      var front, last := trace[..|trace| - 1], trace[|trace| - 1];
      SystemStaysSound(cfg, front);
      var s := Run(cfg, INITIAL, front);
      match last {
        case Lifecycle(e, status, env) =>
          LifeStaysSound(cfg, s, e, status, env);
          LifecycleKeepsAdvertised(cfg, s, e, status, env);
        case OnSession(id, op) =>
          OpKeepsAdvertised(cfg, s, id, op);
      }
    }
  }

  lemma LifeStaysSound(cfg: Ann.Config, s: System, e: Life.Event, status: Status, env: Ann.AnnounceEnv)
    requires Life.Conserved(s.life) && Life.Connected(s.life)
    ensures var after := Step(cfg, s, Lifecycle(e, status, env)).life; Life.Conserved(after) && Life.Connected(after)
  {
    var target := Life.Announces(s.life, e);
    var e' := if target.None? then e else
                WithOutcome(e, Ann.Announce(cfg, true, AnnouncerOf(s, target.value),
                                            Wrapped(status, ConnectionFor(s.life, e)), env).failure.None?);
    Life.StepStaysConnected(s.life, e');
    Life.StepConserves(s.life, e');
  }

  /** In every run, the directory's document of the current session and of every retired one advertises
      exactly the connection of the signaling that the relay listens to. */
  lemma {:induction false} AdvertisesWhatTheRelayHears(cfg: Ann.Config, trace: seq<Event>, p: Life.Published)
    requires var life := Run(cfg, INITIAL, trace).life;
             life.current == Some(p) || exists r | r in life.retired :: r.session == p
    ensures var s := Run(cfg, INITIAL, trace);
            && s.life.relay.Some? && s.life.relay == s.life.signaling
            && p.id in s.announcers
            && var remote := s.announcers[p.id].session;
               remote.Some? ==> remote.value.document.status.connections == [Connection(s.life.relay.value)]
  {
    SystemStaysSound(cfg, trace);
    assert IsHeld(Run(cfg, INITIAL, trace).life, p);
    assert Advertised(Run(cfg, INITIAL, trace), p);
  }

  // ----- a session hidden after it was retired stays hidden -----

  ghost predicate HiddenFor(s: System, id: nat) {
    Life.Demoted(s.life, id) && id in s.announcers && Ann.StaysHidden(s.announcers[id])
  }

  lemma {:induction false} StepStaysHidden(cfg: Ann.Config, s: System, event: Event, id: nat)
    requires HiddenFor(s, id)
    ensures HiddenFor(Step(cfg, s, event), id)
  {
    match event
    case Lifecycle(e, status, env) =>
      Life.StaysDemoted(s.life, e, id);
      var target := Life.Announces(s.life, e);
      if target.Some? {
        var ok := Ann.Announce(cfg, true, AnnouncerOf(s, target.value),
                               Wrapped(status, ConnectionFor(s.life, e)), env).failure.None?;
        Life.StaysDemoted(s.life, WithOutcome(e, ok), id);
      }
    case OnSession(other, op) =>
      if other == id && !op.AnnounceOp? {
        assert [op][..0] == [];
        Ann.HiddenStaysHidden(cfg, s.announcers[id], [op]);
      }
  }

  /** Once `hide` has succeeded on a session that is no longer current, its document is
      invite-only after every later event of the whole system. */
  lemma {:induction false} HiddenForGood(cfg: Ann.Config, s: System, id: nat, encodes: bool, writes: bool, trace: seq<Event>)
    requires Life.Demoted(s.life, id) && id in s.announcers
    requires Ann.Hide(s.announcers[id], encodes, writes).failure == None
    ensures HiddenFor(Run(cfg, Step(cfg, s, OnSession(id, Ann.HideOp(encodes, writes))), trace), id)
  {
    var hidden := Step(cfg, s, OnSession(id, Ann.HideOp(encodes, writes)));
    if trace == [] {
      Ann.HideHides(s.announcers[id], encodes, writes);
    } else {
      HiddenForGood(cfg, s, id, encodes, writes, trace[..|trace| - 1]);
      StepStaysHidden(cfg, Run(cfg, hidden, trace[..|trace| - 1]), trace[|trace| - 1], id);
    }
  }
}
