/** The broadcaster object. Its two session lists are Go slices, an array and a length: they grow
    by appending in place while there is room, and are filtered in place, into the front of the
    array that is being read. Each method takes exactly the step that `Lifecycle` specifies. */
module Slices {
  import opened Common

  /** Go's `append`: into the spare room of the array, or into a larger copy. */
  method Append<T(0)>(data: array<T>, len: nat, x: T) returns (grown: array<T>)
    requires len <= data.Length
    modifies data
    ensures grown == data || fresh(grown)
    ensures len < grown.Length && grown[..len + 1] == old(data[..len]) + [x]
    ensures data[..len] == old(data[..len])
  {
    if len < data.Length {
      data[len] := x;
      assert data[..len] == old(data[..len]);
      grown := data;
    } else {
      grown := new T[2 * len + 1];
      for i := 0 to len
        invariant grown[..i] == data[..i]
        invariant data[..] == old(data[..])
      {
        grown[i] := data[i];
      }
      grown[len] := x;
    }
  }
}

module Broadcaster {
  import opened Common
  import opened Publication
  import opened Lifecycle
  import SessionLoop
  import Slices

  /** What a session says about its members; an announcer of another kind says nothing. */
  datatype MemberCount = Uncounted | Unpublished | Gone | Members(count: nat)

  /** `sessionRotateMembers`. */
  const ROTATE_MEMBERS := 28

  const NO_SESSION := Retired(Published(0, None), 0)

  class Broadcaster {
    var context: Context
    var started: bool
    var recovering: bool
    var failure: Option<string>
    var announcer: Option<Published>
    var retiredData: array<Retired>
    var retiredLen: nat
    var staleData: array<Published>
    var staleLen: nat
    var signaling: Option<nat>
    var relay: Option<nat>
    var sessionConnection: Option<Connection>
    var announcers: nat              // announcers made so far
    ghost var rotateDue: bool        // where the session loop stands
    ghost var open: set<nat>         // what the directory holds
    ghost var dialed: set<nat>       // what signaling connections exist
    ghost var attempts: seq<nat>     // every attempt to close an announced session, in order

    ghost predicate Valid()
      reads this
    {
      retiredLen <= retiredData.Length && staleLen <= staleData.Length
    }

    ghost function RetiredView(): seq<Retired>
      reads this, retiredData
      requires Valid()
    {
      retiredData[..retiredLen]
    }

    ghost function StaleView(): seq<Published>
      reads this, staleData
      requires Valid()
    {
      staleData[..staleLen]
    }

    ghost function View(): State
      reads this, retiredData, staleData
      requires Valid()
    {
      State(context, started, recovering, failure, announcer, RetiredView(), StaleView(),
            signaling, relay, sessionConnection, rotateDue, announcers, open, dialed)
    }

    constructor ()
      ensures Valid() && fresh(retiredData) && fresh(staleData)
      ensures View() == INITIAL && attempts == []
    {
      context, started, recovering, failure, announcer := NoContext, false, false, None, None;
      retiredData, retiredLen := new Retired[0], 0;
      staleData, staleLen := new Published[0], 0;
      signaling, relay, sessionConnection := None, None, None;
      announcers, rotateDue, open, dialed, attempts := 0, false, {}, {}, [];
    }

    // ----- the lists -----

    /** Closing a session that the directory holds removes it there when it succeeds. */
    method CloseSession(p: Published, closes: nat -> bool) returns (ok: bool)
      modifies `open, `attempts
      ensures ok == closes(p.id) && attempts == old(attempts) + [p.id]
      ensures open == if ok then old(open) - {p.id} else old(open)
    {
      attempts := attempts + [p.id];
      ok := closes(p.id);
      if ok {
        open := open - {p.id};
      }
    }

    method CloseStaleSessions(closes: nat -> bool)
      requires Valid()
      modifies `staleLen, `open, `attempts, staleData
      ensures Valid() && attempts == old(attempts) + Ids(old(StaleView()))
      ensures StaleView() == StillOpen(old(StaleView()), closes)
      ensures open == old(open) - set id | id in Ids(old(StaleView())) && closes(id)
    {
      ghost var before := StaleView();
      var remaining := 0;
      for i := 0 to staleLen
        invariant remaining <= i <= staleLen == old(staleLen) && staleData == old(staleData) && Valid()
        invariant staleData[..remaining] == StillOpen(before[..i], closes)
        invariant forall k | i <= k < staleLen :: staleData[k] == before[k]
        invariant open == old(open) - ClosedIds(before[..i], closes)
        invariant attempts == old(attempts) + Ids(before[..i])
      {
        var announcer := staleData[i];
        var ok := CloseSession(announcer, closes);
        ClosedOneMore(before, i, closes);
        IdsOneMore(old(attempts), before, i);
        if !ok {
          staleData[remaining] := announcer;
          remaining := remaining + 1;
        }
      }
      assert before[..|before|] == before;
      staleLen := remaining;
    }

    method CloseDrainedSessions(now: Time, members: nat -> Option<nat>, closes: nat -> bool)
      requires Valid()
      modifies `retiredLen, `open, `attempts, `rotateDue, retiredData
      ensures Valid() && attempts == old(attempts) + Drained(old(RetiredView()), now, members)
      ensures View() == Step(old(View()), CloseDrained(now, members, closes))
      ensures Conserved(old(View())) ==>
                forall r | r in old(RetiredView()) ::
                  DrainsAsDue(r, now, members, closes, RetiredView(), open, attempts[|old(attempts)|..])
    {
      ghost var before, tried := View(), attempts;
      rotateDue := false;
      CompactRetired(now, members, closes);
      DrainAllAsDue(before, now, members, closes, tried);
    }

    method CompactRetired(now: Time, members: nat -> Option<nat>, closes: nat -> bool)
      requires Valid()
      modifies `retiredLen, `open, `attempts, retiredData
      ensures Valid() && attempts == old(attempts) + Drained(old(RetiredView()), now, members)
      ensures RetiredView() == KeptRetired(old(RetiredView()), now, members, closes)
      ensures open == old(open) - DrainedIds(old(RetiredView()), now, members, closes)
    {
      ghost var before := RetiredView();
      var kept := 0;
      for i := 0 to retiredLen
        invariant kept <= i <= retiredLen == old(retiredLen) && retiredData == old(retiredData) && Valid()
        invariant retiredData[..kept] == KeptRetired(before[..i], now, members, closes)
        invariant forall k | i <= k < retiredLen :: retiredData[k] == before[k]
        invariant open == old(open) - DrainedIds(before[..i], now, members, closes)
        invariant attempts == old(attempts) + Drained(before[..i], now, members)
      {
        var retired := retiredData[i];
        DrainedOneMore(before, i, now, members, closes);
        DrainsOneMore(old(attempts), before, i, now, members);
        var closed := CloseIfDrained(retired, now, members, closes);
        if !closed {
          retiredData[kept] := retired;
          kept := kept + 1;
        }
      }
      assert before[..|before|] == before;
      Truncate(kept);
    }

    method CloseIfDrained(retired: Retired, now: Time, members: nat -> Option<nat>, closes: nat -> bool) returns (closed: bool)
      modifies `open, `attempts
      ensures closed == ClosesDrained(retired, now, members, closes)
      ensures open == old(open) - if closed then {retired.session.id} else {}
      ensures attempts == old(attempts) + if Drains(retired, now, members) then [retired.session.id] else []
    {
      var count := members(retired.session.id);
      closed := false;
      if count.Some? && count.value <= 1 && now - retired.at >= ROTATE_GRACE {
        closed := CloseSession(retired.session, closes);
      }
    }

    /** Clears what is no longer used, so that nothing there is kept alive, and cuts the list short. */
    method Truncate(kept: nat)
      requires Valid() && kept <= retiredLen
      modifies `retiredLen, retiredData
      ensures Valid() && retiredLen == kept && retiredData[..kept] == old(retiredData[..kept])
    {
      for j := kept to retiredLen
        invariant retiredLen == old(retiredLen) && retiredData[..kept] == old(retiredData[..kept])
      {
        retiredData[j] := NO_SESSION;
      }
      retiredLen := kept;
    }

    method Retire(session: Published, now: Time)
      requires Valid()
      modifies `retiredData, `retiredLen, retiredData
      ensures Valid() && (retiredData == old(retiredData) || fresh(retiredData))
      ensures RetiredView() == old(RetiredView()) + [Retired(session, now)]
    {
      retiredData := Slices.Append(retiredData, retiredLen, Retired(session, now));
      retiredLen := retiredLen + 1;
    }

    /** The stale list with the retired sessions appended, which may reuse the stale list's own spare room. */
    method Combine() returns (data: array<Published>, len: nat)
      requires Valid()
      modifies staleData
      ensures data == staleData || fresh(data)
      ensures len <= data.Length && data[..len] == old(StaleView()) + RetiredSessions(RetiredView())
    {
      data, len := staleData, staleLen;
      ghost var retired := RetiredView();
      for i := 0 to retiredLen
        invariant data == staleData || fresh(data)
        invariant len <= data.Length && data[..len] == old(StaleView()) + RetiredSessions(retired[..i])
      {
        assert RetiredSessions(retired[..i + 1]) == RetiredSessions(retired[..i]) + [retired[i].session];
        data := Slices.Append(data, len, retiredData[i].session);
        len := len + 1;
      }
      assert retired[..|retired|] == retired;
    }

    /** Closes the first `len` sessions of `data`; the list of those that fail is a new one. */
    method CloseAll(data: array<Published>, len: nat, closes: nat -> bool) returns (failed: array<Published>, failures: nat)
      requires len <= data.Length
      modifies `open, `attempts
      ensures fresh(failed) && failures <= failed.Length && attempts == old(attempts) + Ids(data[..len])
      ensures failed[..failures] == StillOpen(data[..len], closes)
      ensures open == old(open) - ClosedIds(data[..len], closes)
    {
      failed, failures := new Published[0], 0;
      ghost var sessions := data[..len];
      for i := 0 to len
        invariant fresh(failed) && failures <= failed.Length && failed != data
        invariant failed[..failures] == StillOpen(sessions[..i], closes)
        invariant open == old(open) - ClosedIds(sessions[..i], closes)
        invariant attempts == old(attempts) + Ids(sessions[..i])
      {
        var ok := CloseSession(data[i], closes);
        ClosedOneMore(sessions, i, closes);
        IdsOneMore(old(attempts), sessions, i);
        if !ok {
          failed := Slices.Append(failed, failures, data[i]);
          failures := failures + 1;
        }
      }
      assert sessions[..|sessions|] == sessions;
    }

    /** `cleanupPublishedSessions`: the stale and retired sessions first, then the current one. */
    method CleanupPublishedSessions(closes: nat -> bool)
      requires Valid()
      modifies `retiredData, `retiredLen, `staleData, `staleLen, `announcer, `sessionConnection, `open, `attempts, staleData
      ensures Valid() && fresh(retiredData) && fresh(staleData)
      ensures View() == Cleanup(old(View()), closes) && attempts == old(attempts) + Held(old(View()))
    {
      ghost var before := View();
      CleanupInTwo(before, closes, attempts);
      CloseListed(closes);
      ghost var listed := View();
      CloseCurrent(closes);
      sessionConnection := None;
      assert View() == listed.(current := None, connection := None, stale := StaleView(), open := open);
    }

    method CloseListed(closes: nat -> bool)
      requires Valid()
      modifies `retiredData, `retiredLen, `staleData, `staleLen, `open, `attempts, staleData
      ensures Valid() && fresh(retiredData) && fresh(staleData)
      ensures RetiredView() == []
      ensures var sessions := Listed(old(View()));
              && StaleView() == StillOpen(sessions, closes)
              && open == old(open) - ClosedIds(sessions, closes)
              && attempts == old(attempts) + Ids(sessions)
    {
      var data, len := Combine();
      var failed, failures := CloseAll(data, len, closes);
      retiredData, retiredLen := new Retired[0], 0;
      staleData, staleLen := failed, failures;
    }

    /** A failed close leaves the session advertised, so it is kept as stale. */
    method CloseCurrent(closes: nat -> bool)
      requires Valid()
      modifies `staleData, `staleLen, `announcer, `open, `attempts, staleData
      ensures Valid() && (staleData == old(staleData) || fresh(staleData))
      ensures announcer == None
      ensures var current := Current(old(View()));
              && StaleView() == old(StaleView()) + StillOpen(current, closes)
              && open == old(open) - ClosedIds(current, closes)
              && attempts == old(attempts) + Ids(current)
    {
      if announcer.Some? {
        var ok := CloseSession(announcer.value, closes);
        OnlyOne(announcer.value, closes);
        if !ok {
          staleData := Slices.Append(staleData, staleLen, announcer.value);
          staleLen := staleLen + 1;
        }
        announcer := None;
      }
    }

    static lemma {:induction false} OnlyOne(p: Published, closes: nat -> bool)
      ensures StillOpen([p], closes) == if closes(p.id) then [] else [p]
      ensures ClosedIds([p], closes) == if closes(p.id) then {p.id} else {}
    {
      FilterOne((q: Published) => !closes(q.id), p);
      OneId(p, closes);
    }

    static lemma OneId(p: Published, closes: nat -> bool)
      ensures ClosedIds([p], closes) == if closes(p.id) then {p.id} else {}
    {
      assert Ids([p]) == [p.id];
    }

    static lemma {:induction false} StillOpenInTwo(a: seq<Published>, b: seq<Published>, closes: nat -> bool)
      ensures StillOpen(a + b, closes) == StillOpen(a, closes) + StillOpen(b, closes)
    {
      FilterConcat((p: Published) => !closes(p.id), a, b);
    }

    static lemma HeldInTwo(s: State)
      ensures Ids(Listed(s)) + Ids(Current(s)) == Held(s) == Ids(Listed(s) + Current(s))
    {}

    /** The sessions of `cleanupPublishedSessions`, the current one last. */
    static function Listed(s: State): seq<Published> { s.stale + RetiredSessions(s.retired) }

    static function Current(s: State): seq<Published> { if s.current.Some? then [s.current.value] else [] }

    static lemma {:induction false} CleanupInTwo(s: State, closes: nat -> bool, attempts: seq<nat>)
      ensures Cleanup(s, closes) ==
              s.(stale := StillOpen(Listed(s), closes) + StillOpen(Current(s), closes),
                 retired := [], current := None, connection := None,
                 open := s.open - ClosedIds(Listed(s), closes) - ClosedIds(Current(s), closes))
      ensures attempts + Ids(Listed(s)) + Ids(Current(s)) == attempts + Held(s)
    {
      StillOpenInTwo(Listed(s), Current(s), closes);
      ClosedInTwo(Listed(s), Current(s), closes);
      HeldInTwo(s);
      assert attempts + (Ids(Listed(s)) + Ids(Current(s))) == attempts + Ids(Listed(s)) + Ids(Current(s));
    }

    static lemma ClosedInTwo(a: seq<Published>, b: seq<Published>, closes: nat -> bool)
      ensures ClosedIds(a + b, closes) == ClosedIds(a, closes) + ClosedIds(b, closes)
    {
      assert Ids(a + b) == Ids(a) + Ids(b);
    }

    // ----- what the loops have closed so far -----

    static ghost function ClosedIds(sessions: seq<Published>, closes: nat -> bool): set<nat> {
      set id | id in Ids(sessions) && closes(id)
    }

    static ghost function DrainedIds(retired: seq<Retired>, now: Time, members: nat -> Option<nat>, closes: nat -> bool): set<nat> {
      set r | r in retired && ClosesDrained(r, now, members, closes) :: r.session.id
    }

    static lemma ClosedOneMore(sessions: seq<Published>, i: nat, closes: nat -> bool)
      requires i < |sessions|
      ensures ClosedIds(sessions[..i + 1], closes) ==
              ClosedIds(sessions[..i], closes) + if closes(sessions[i].id) then {sessions[i].id} else {}
      ensures StillOpen(sessions[..i + 1], closes) ==
              StillOpen(sessions[..i], closes) + if closes(sessions[i].id) then [] else [sessions[i]]
    {
      FilterOneMore((p: Published) => !closes(p.id), sessions, i);
      assert Ids(sessions[..i + 1]) == Ids(sessions[..i]) + [sessions[i].id];
    }

    static lemma IdsOneMore(attempts: seq<nat>, sessions: seq<Published>, i: nat)
      requires i < |sessions|
      ensures attempts + Ids(sessions[..i + 1]) == attempts + Ids(sessions[..i]) + [sessions[i].id]
    {
      assert Ids(sessions[..i + 1]) == Ids(sessions[..i]) + [sessions[i].id];
    }

    static lemma DrainsOneMore(attempts: seq<nat>, retired: seq<Retired>, i: nat, now: Time, members: nat -> Option<nat>)
      requires i < |retired|
      ensures attempts + Drained(retired[..i + 1], now, members) ==
              attempts + Drained(retired[..i], now, members) + if Drains(retired[i], now, members) then [retired[i].session.id] else []
    {
      var drains := (r: Retired) => Drains(r, now, members);
      FilterOneMore(drains, retired, i);
      var kept := Filter(drains, retired[..i]);
      assert RetiredIds(kept + [retired[i]]) == RetiredIds(kept) + [retired[i].session.id];
    }

    static lemma DrainedOneMore(retired: seq<Retired>, i: nat, now: Time, members: nat -> Option<nat>, closes: nat -> bool)
      requires i < |retired|
      ensures DrainedIds(retired[..i + 1], now, members, closes) ==
              DrainedIds(retired[..i], now, members, closes) +
              if ClosesDrained(retired[i], now, members, closes) then {retired[i].session.id} else {}
      ensures KeptRetired(retired[..i + 1], now, members, closes) ==
              KeptRetired(retired[..i], now, members, closes) +
              if ClosesDrained(retired[i], now, members, closes) then [] else [retired[i]]
    {
      FilterOneMore((r: Retired) => !ClosesDrained(r, now, members, closes), retired, i);
      assert retired[..i + 1] == retired[..i] + [retired[i]];
    }

    static lemma FilterOneMore<T>(keep: T -> bool, s: seq<T>, i: nat)
      requires i < |s|
      ensures Filter(keep, s[..i + 1]) == Filter(keep, s[..i]) + if keep(s[i]) then [s[i]] else []
    {
      assert s[..i + 1][..i] == s[..i];
    }

    // ----- publishing -----

    method PublishSession(announces: bool) returns (session: Option<Published>)
      requires Valid()
      modifies `announcers, `open
      ensures (View(), session) == Lifecycle.PublishSession(old(View()), announces)
    {
      var made := Published(announcers, sessionConnection);
      announcers := announcers + 1;
      if !announces {
        return None;
      }
      open := open + {made.id};
      return Some(made);
    }

    method PublishOn(sig: nat, env: PublishEnv) returns (ok: bool)
      requires Valid()
      modifies `announcers, `open, `sessionConnection, `announcer, `relay
      ensures (View(), ok) == Lifecycle.PublishOn(old(View()), sig, env)
    {
      if !env.valid {
        return false;
      }
      sessionConnection := Some(Connection(sig));
      var session := PublishSession(env.announces);
      if session.None? {
        return false;
      }
      announcer := session;
      relay := Some(sig);
      return true;
    }

    method CloseSignaling(sig: Option<nat>)
      modifies `dialed
      ensures dialed == if sig.Some? then old(dialed) - {sig.value} else old(dialed)
    {
      if sig.Some? {
        dialed := dialed - {sig.value};
      }
    }

    method ReleaseSessions(closes: nat -> bool)
      requires Valid()
      modifies `retiredData, `retiredLen, `staleData, `staleLen, `announcer, `sessionConnection, `open, `attempts, staleData
      modifies `relay, `signaling, `dialed
      ensures Valid() && fresh(retiredData) && fresh(staleData)
      ensures View() == Release(old(View()), closes) && attempts == old(attempts) + Held(old(View()))
    {
      ghost var before := View();
      relay := None;
      CleanupPublishedSessions(closes);
      CloseSignaling(signaling);
      signaling := None;
      ReleaseInOrder(before, closes);
    }

    /** The relay can be forgotten before the sessions are closed or after. */
    static lemma ReleaseInOrder(s: State, closes: nat -> bool)
      ensures var cleaned := Cleanup(s.(relay := None), closes);
              Release(s, closes) == cleaned.(signaling := None,
                                             dialed := if s.signaling.Some? then s.dialed - {s.signaling.value} else s.dialed)
      ensures Held(s.(relay := None)) == Held(s)
    {
      assert Held(s.(relay := None)) == Held(s);
    }

    // ----- the operations -----

    method Start(dial: Option<nat>, publish: PublishEnv, closes: nat -> bool) returns (ok: bool)
      requires Valid()
      modifies this, staleData
      ensures Valid()
      ensures (retiredData == old(retiredData) || fresh(retiredData)) && (staleData == old(staleData) || fresh(staleData))
      ensures View() == Step(old(View()), Lifecycle.Start(dial, publish, closes))
      ensures ok <==> !old(started) && started
    {
      if started {
        return false;
      }
      context, failure := Running, None;
      ok := Launch(dial, publish, closes);
    }

    method Launch(dial: Option<nat>, publish: PublishEnv, closes: nat -> bool) returns (ok: bool)
      requires Valid() && !started
      modifies this, staleData
      ensures Valid()
      ensures (retiredData == old(retiredData) || fresh(retiredData)) && (staleData == old(staleData) || fresh(staleData))
      ensures View() == Launched(old(View()), dial, publish, closes)
      ensures ok <==> started
    {
      if dial.None? {
        FailStart(closes);
        return false;
      }
      ghost var before := View();
      signaling, dialed := dial, dialed + {dial.value};
      assert View() == before.(signaling := dial, dialed := before.dialed + {dial.value});
      ok := PublishOn(dial.value, publish);
      if !ok {
        FailStart(closes);
        return false;
      }
      ghost var published := View();
      started := true;
      assert View() == published.(started := true);
    }

    method FailStart(closes: nat -> bool)
      requires Valid()
      modifies this, staleData
      ensures Valid() && fresh(retiredData) && fresh(staleData)
      ensures View() == Release(old(View()), closes).(context := Cancelled)
    {
      context := Cancelled;
      ReleaseSessions(closes);
    }

    method Update(announces: bool, closes: nat -> bool) returns (ok: bool)
      requires Valid()
      modifies `staleLen, `open, `attempts, staleData
      ensures Valid() && attempts == old(attempts) + if ok then Ids(old(StaleView())) else []
      ensures View() == Step(old(View()), Lifecycle.Update(announces, closes))
      ensures ok <==> started && !recovering && announcer.Some? && announces
    {
      if !started || recovering || announcer.None? || !announces {
        return false;
      }
      CloseStaleSessions(closes);
      return true;
    }

    /** Why the current session needs rotation or recovery, if it does. */
    method SessionHealthIssue(members: nat -> MemberCount) returns (issue: SessionLoop.Issue)
      requires Valid()
      modifies `rotateDue
      ensures View() == if issue.NearlyFull? then Step(old(View()), SeeRotation) else old(View())
      ensures issue.NearlyFull? <==>
                announcer.Some? && members(announcer.value.id).Members? && members(announcer.value.id).count >= ROTATE_MEMBERS
      ensures issue.Lost? <==> announcer.Some? && members(announcer.value.id).Gone?
      ensures issue.Healthy? || issue.Lost? || (issue.NearlyFull? && rotateDue)
    {
      if announcer.None? {
        return SessionLoop.Healthy;
      }
      match members(announcer.value.id) {
        case Uncounted => return SessionLoop.Healthy;
        case Unpublished => return SessionLoop.Healthy;
        case Gone => return SessionLoop.Lost;
        case Members(count) =>
          if count >= ROTATE_MEMBERS {
            rotateDue := true;
            return SessionLoop.NearlyFull;
          }
          return SessionLoop.Healthy;
      }
    }

    /** The context that `Start` was given ends. */
    method CancelByCaller()
      requires Valid()
      modifies `context
      ensures View() == Step(old(View()), CallerCancels)
    {
      if context == Running {
        context := Cancelled;
      }
    }

    /** Called by the session loop, and only after it has seen a nearly full session. */
    method RotateSession(now: Time, announces: bool) returns (ok: bool)
      requires Valid() && Connected(View()) && rotateDue
      modifies `rotateDue, `announcers, `open, `announcer, `retiredData, `retiredLen, retiredData
      ensures Valid() && (retiredData == old(retiredData) || fresh(retiredData))
      ensures View() == Step(old(View()), Rotate(now, announces))
      ensures ok <==> started && !recovering && announces
    {
      rotateDue := false;
      if !started || recovering {
        return false;
      }
      ok := Replace(now, announces);
    }

    /** Announces a fresh session on the same connection and retires the current one. */
    method Replace(now: Time, announces: bool) returns (ok: bool)
      requires Valid() && announcer.Some?
      modifies `announcers, `open, `announcer, `retiredData, `retiredLen, retiredData
      ensures Valid() && ok == announces && (retiredData == old(retiredData) || fresh(retiredData))
      ensures var (made, session) := Lifecycle.PublishSession(old(View()), announces);
              View() == if ok then made.(retired := made.retired + [Retired(old(announcer).value, now)], current := session)
                        else made
    {
      var session := PublishSession(announces);
      if session.None? {
        return false;
      }
      ghost var made := View();
      Retire(announcer.value, now);
      announcer := session;
      assert View() == made.(retired := made.retired + [Retired(old(announcer).value, now)], current := session);
      return true;
    }

    method RecreateSession(dial: Option<nat>, alive: bool, publish: PublishEnv, closes: nat -> bool) returns (ok: bool)
      requires Valid() && Aligned(View())
      modifies this, staleData
      ensures Valid()
      ensures (retiredData == old(retiredData) || fresh(retiredData)) && (staleData == old(staleData) || fresh(staleData))
      ensures View() == RecreateStep(old(View()), dial, alive, publish, closes)
      ensures attempts == old(attempts) + if old(context == Running && started) then Held(old(View())) else []
      ensures ok ==> announcer.Some? && relay == signaling == dial
    {
      if context != Running || !started {
        return false;
      }
      ReleaseForRecovery(closes);
      if dial.None? {
        return false;
      }
      ok := Republish(dial.value, alive, publish);
    }

    method ReleaseForRecovery(closes: nat -> bool)
      requires Valid() && Aligned(View())
      modifies this, staleData
      ensures Valid() && fresh(retiredData) && fresh(staleData)
      ensures signaling == None && dialed == {} && attempts == old(attempts) + Held(old(View()))
      ensures View() == Release(old(View()).(rotateDue := false), closes)
    {
      ghost var before := View();
      rotateDue := false;
      assert View() == before.(rotateDue := false);
      assert Held(View()) == Held(before);
      ReleaseSessions(closes);
      ReleaseAligns(before.(rotateDue := false), closes);
    }

    method Republish(sig: nat, alive: bool, publish: PublishEnv) returns (ok: bool)
      requires Valid() && sig !in dialed && signaling == None
      modifies `signaling, `dialed, `announcers, `open, `sessionConnection, `announcer, `relay
      ensures View() == if alive then Republished(old(View()), sig, publish) else old(View())
      ensures ok ==> announcer.Some? && relay == signaling == Some(sig)
    {
      if !alive {
        dialed := dialed + {sig};
        CloseSignaling(Some(sig));
        return false;
      }
      ghost var before := View();
      signaling, dialed := Some(sig), dialed + {sig};
      assert View() == before.(signaling := Some(sig), dialed := before.dialed + {sig});
      ok := PublishOn(sig, publish);
      if !ok {
        ghost var failed := View();
        CloseSignaling(Some(sig));
        signaling := None;
        assert View() == failed.(signaling := None, dialed := failed.dialed - {sig});
      }
    }

    /** `recoverSession` around its attempts: the flag before them, the outcome after them. */
    method BeginRecovery(applies: bool) returns (begun: bool)
      requires Valid()
      modifies `recovering, `rotateDue
      ensures View() == Step(old(View()), Lifecycle.BeginRecovery(applies))
      ensures begun <==> context == Running && applies
    {
      if context != Running || !applies {
        return false;
      }
      recovering, rotateDue := true, false;
      return true;
    }

    method EndRecovery(error: Option<string>)
      requires Valid()
      modifies `recovering, `failure, `context
      ensures View() == Step(old(View()), Lifecycle.EndRecovery(error))
    {
      if !recovering {
        return;
      }
      recovering := false;
      if error.Some? && context != Cancelled {
        failure := error;
        context := Cancelled;
      }
    }

    method Close(closes: nat -> bool)
      requires Valid()
      modifies this, staleData
      ensures Valid()
      ensures (retiredData == old(retiredData) || fresh(retiredData)) && (staleData == old(staleData) || fresh(staleData))
      ensures View() == Step(old(View()), Lifecycle.Close(closes))
      ensures attempts == old(attempts) + if old(started) then Held(old(View())) else []
    {
      if !started {
        return;
      }
      ghost var before := View();
      context := Cancelled;
      assert View() == before.(context := Cancelled);
      ReleaseSessions(closes);
      started := false;
      CloseStep(before, closes);
    }

    static lemma CloseStep(s: State, closes: nat -> bool)
      requires s.started
      ensures Step(s, Lifecycle.Close(closes)) == Release(s.(context := Cancelled), closes).(started := false)
      ensures Held(s.(context := Cancelled)) == Held(s)
    {
      assert Held(s.(context := Cancelled)) == Held(s);
    }
  }

  /** Driven by its own methods, a broadcaster rotates when its session is nearly full: the old session is retired and a new one is
      announced on the same connection. */
  method RotateWhenFull(sig: nat, members: nat -> MemberCount, now: Time, closes: nat -> bool) returns (b: Broadcaster)
    requires members(0).Members? && members(0).count >= ROTATE_MEMBERS
    ensures b.Valid() && b.RetiredView() == [Retired(Published(0, Some(Connection(sig))), now)]
    ensures b.announcer == Some(Published(1, Some(Connection(sig)))) && b.open == {0, 1}
  {
    b := new Broadcaster();
    var publish := PublishEnv(true, true);
    var started := b.Start(Some(sig), publish, closes);
    StepStaysConnected(INITIAL, Start(Some(sig), publish, closes));
    ghost var s := b.View();
    var issue := b.SessionHealthIssue(members);
    StepStaysConnected(s, SeeRotation);
    var rotated := b.RotateSession(now, true);
  }
}
