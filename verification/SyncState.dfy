/** The run state itself, as `record` edits its maps in place. */
module SyncState {
  import opened Common
  import opened BulkAccept
  import opened RunState

  class RunMemory {
    var addRetryUntil: Option<Time>
    var removeRetryUntil: Option<Time>
    var fullPlayers: map<Xuid, Time>
    var waiting: map<Xuid, Time>
    var refusedBefore: set<Xuid>
    var recent: map<Xuid, Time>
    var started: bool
    var full: bool

    function View(): State
      reads this
    {
      State(addRetryUntil, removeRetryUntil, fullPlayers, waiting, refusedBefore, recent, started, full)
    }

    constructor ()
      ensures View() == INITIAL
    {
      addRetryUntil, removeRetryUntil := None, None;
      fullPlayers, waiting, refusedBefore, recent := map[], map[], {}, map[];
      started, full := false, false;
    }

    /** The two loops over the holds. */
    method SkippedAt(now: Time) returns (skip: set<Xuid>)
      ensures skip == Skipped(View(), now)
    {
      skip := {};
      var left := waiting.Keys;
      while left != {}
        invariant left <= waiting.Keys
        invariant skip == set x | x in waiting && x !in left && now < waiting[x]
      {
        var xuid :| xuid in left;
        left := left - {xuid};
        if now < waiting[xuid] {
          skip := skip + {xuid};
        }
      }
      ghost var waits := skip;
      left := fullPlayers.Keys;
      while left != {}
        invariant left <= fullPlayers.Keys
        invariant skip == waits + set x | x in fullPlayers && x !in left && now < fullPlayers[x] + FULL_LIST_HOLD
      {
        var xuid :| xuid in left;
        left := left - {xuid};
        if now < fullPlayers[xuid] + FULL_LIST_HOLD {
          skip := skip + {xuid};
        }
      }
    }

    method DropExpiredRefusals(now: Time)
      modifies `fullPlayers
      ensures fullPlayers == Unexpired(old(fullPlayers), now)
    {
      var left := fullPlayers.Keys;
      while left != {}
        invariant left <= old(fullPlayers).Keys
        invariant fullPlayers == map x | x in old(fullPlayers) && (x in left || now - old(fullPlayers)[x] < FULL_LIST_HOLD) ::
                    old(fullPlayers)[x]
      {
        var xuid :| xuid in left;
        left := left - {xuid};
        if now - fullPlayers[xuid] >= FULL_LIST_HOLD {
          fullPlayers := fullPlayers - {xuid};
        }
      }
    }

    method DropExpiredNewcomers(now: Time)
      modifies `recent
      ensures recent == Unexpired(old(recent), now)
    {
      var left := recent.Keys;
      while left != {}
        invariant left <= old(recent).Keys
        invariant recent == map x | x in old(recent) && (x in left || now - old(recent)[x] < FULL_LIST_HOLD) :: old(recent)[x]
      {
        var xuid :| xuid in left;
        left := left - {xuid};
        if now - recent[xuid] >= FULL_LIST_HOLD {
          recent := recent - {xuid};
        }
      }
    }

    method DropFinishedWaits(now: Time)
      modifies `waiting
      ensures waiting == Pending(old(waiting), now)
    {
      var left := waiting.Keys;
      while left != {}
        invariant left <= old(waiting).Keys
        invariant waiting == map x | x in old(waiting) && (x in left || now < old(waiting)[x]) :: old(waiting)[x]
      {
        var xuid :| xuid in left;
        left := left - {xuid};
        if now >= waiting[xuid] {
          waiting := waiting - {xuid};
        }
      }
    }

    method AddWaits(now: Time, waits: map<Xuid, Time>)
      modifies `waiting
      ensures waiting == old(waiting) + Delayed(waits, now)
    {
      var left := waits.Keys;
      while left != {}
        invariant left <= waits.Keys
        invariant waiting == old(waiting) + map x | x in waits && x !in left :: now + waits[x]
      {
        var xuid :| xuid in left;
        left := left - {xuid};
        waiting := waiting[xuid := now + waits[xuid]];
      }
    }

    static lemma OneMoreRefusal(before: map<Xuid, Time>, names: set<Xuid>, newcomers: map<Xuid, Time>, refused: seq<Xuid>, i: nat,
                                now: Time)
      requires i < |refused|
      ensures before + Stamped(refused[..i + 1], now) == (before + Stamped(refused[..i], now))[refused[i] := now]
      ensures names + Names(refused[..i + 1]) == names + Names(refused[..i]) + {refused[i]}
      ensures newcomers + Newcomers(names, refused[..i + 1], now) ==
              if refused[i] in names + Names(refused[..i]) then newcomers + Newcomers(names, refused[..i], now)
              else (newcomers + Newcomers(names, refused[..i], now))[refused[i] := now]
    {
      assert forall x :: x in refused[..i + 1] <==> x in refused[..i] || x == refused[i];
    }

    /** The loop over the players refused for a full list. */
    method AddRefusals(now: Time, refused: seq<Xuid>, counted: bool)
      modifies `fullPlayers, `refusedBefore, `recent
      ensures fullPlayers == old(fullPlayers) + Stamped(refused, now)
      ensures refusedBefore == old(refusedBefore) + Names(refused)
      ensures recent == if counted then old(recent) + Newcomers(old(refusedBefore), refused, now) else old(recent)
    {
      for i := 0 to |refused|
        invariant fullPlayers == old(fullPlayers) + Stamped(refused[..i], now)
        invariant refusedBefore == old(refusedBefore) + Names(refused[..i])
        invariant recent == if counted then old(recent) + Newcomers(old(refusedBefore), refused[..i], now) else old(recent)
      {
        var xuid := refused[i];
        OneMoreRefusal(old(fullPlayers), old(refusedBefore), old(recent), refused, i, now);
        fullPlayers := fullPlayers[xuid := now];
        if xuid in refusedBefore {
          continue;
        }
        refusedBefore := refusedBefore + {xuid};
        if counted {
          recent := recent[xuid := now];
        }
      }
      assert refused[..|refused|] == refused;
    }

    method UpdateFull()
      modifies `full
      ensures full == LooksFull(recent)
    {
      full := |recent| >= FULL_LIST_PLAYERS;
      LooksFullIs(recent);
    }

    /** The part of `record` about full lists. */
    method RecordRefusals(now: Time, r: Result)
      modifies `fullPlayers, `refusedBefore, `recent
      ensures fullPlayers == Unexpired(old(fullPlayers), now) + Stamped(r.fullPlayers, now)
      ensures refusedBefore == old(refusedBefore) + Names(r.fullPlayers)
      ensures recent == RecentAfter(old(View()), now, r)
    {
      DropExpiredRefusals(now);
      DropExpiredNewcomers(now);
      if r.accepted > 0 {
        recent := map[];
      }
      AddRefusals(now, r.fullPlayers, started && r.accepted == 0);
    }

    method RecordDelays(now: Time, r: Result)
      modifies `addRetryUntil, `removeRetryUntil
      ensures addRetryUntil == if r.addRetryAfter > 0 then Some(now + r.addRetryAfter) else old(addRetryUntil)
      ensures removeRetryUntil == if r.removeRetryAfter > 0 then Some(now + r.removeRetryAfter) else old(removeRetryUntil)
    {
      if r.addRetryAfter > 0 {
        addRetryUntil := Some(now + r.addRetryAfter);
      }
      if r.removeRetryAfter > 0 {
        removeRetryUntil := Some(now + r.removeRetryAfter);
      }
    }

    method RecordWaits(now: Time, waits: map<Xuid, Time>)
      modifies `waiting
      ensures waiting == Pending(old(waiting), now) + Delayed(waits, now)
    {
      DropFinishedWaits(now);
      AddWaits(now, waits);
    }

    method Record(now: Time, r: Result)
      modifies this
      ensures View() == RunState.Record(old(View()), now, r)
    {
      ghost var before := View();
      RecordDelays(now, r);
      assert RecentAfter(View(), now, r) == RecentAfter(before, now, r);
      RecordRefusals(now, r);
      started := started || r.pendingRead;
      UpdateFull();
      RecordWaits(now, r.waits);
    }
  }
}
