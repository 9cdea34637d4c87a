/** The friend syncer itself: the count, the file and the pass under way, updated in place.
    `trace` records every step that touches the list, the count or the file. */
module FriendSyncer {
  import opened Common
  import opened BulkAccept
  import opened RunState
  import opened FriendPass
  import opened FriendLedger
  import opened PassTrace
  import opened PassSafety
  import opened ExpiryScan
  import opened FriendClient
  import opened SyncState

  class FriendCount {
    var friends: int
    var countedAt: Option<Time>
    var retryAfter: Option<Time>
    var full: bool

    ghost function View(): Count
      reads `friends, `countedAt, `retryAfter
    {
      Count(friends, countedAt, retryAfter)
    }

    constructor ()
      ensures View() == UNCOUNTED && !full
    {
      friends, countedAt, retryAfter, full := 0, None, None, false;
    }

    method SetFull(full: bool)
      modifies `full
      ensures this.full == full
    {
      this.full := full;
    }

    method Set(people: seq<Xuid>, now: Time)
      modifies `friends, `countedAt
      ensures View() == CountAfter(old(View()), Counted(people, now))
    {
      friends, countedAt := |people|, Some(now);
    }

    method NeedsList(expiryOn: bool, now: Time) returns (needed: bool)
      ensures needed == FriendLedger.NeedsList(View(), expiryOn, now)
    {
      if retryAfter.Some? && now < retryAfter.value {
        return false;
      }
      return countedAt.None? || (!expiryOn && now - countedAt.value > COUNT_REFRESH);
    }

    method Failed(now: Time)
      modifies `retryAfter
      ensures View() == CountAfter(old(View()), ListFailed(now))
    {
      retryAfter := Some(now + COUNT_RETRY);
    }

    method Add(delta: int)
      modifies `friends
      ensures View() == Adjusted(old(View()), delta)
    {
      if countedAt.Some? {
        friends := Max(friends + delta, 0);
      }
    }
  }

  /** What the file says about a player. */
  datatype Sight = Unreadable | Never | At(seconds: int)

  class FileHistoryStore {
    var entries: History

    constructor (entries: History)
      ensures this.entries == entries
    {
      this.entries := entries;
    }

    method LastSeen(x: Xuid, readable: bool) returns (sight: Sight)
      ensures sight == if !readable then Unreadable else if x !in entries then Never else At(entries[x])
    {
      if !readable {
        return Unreadable;
      }
      return if x !in entries then Never else At(entries[x]);
    }

    method Seen(x: Xuid, when: Reading, writable: bool)
      modifies `entries
      ensures entries == HistoryAfter(old(entries), Saw(x, when.time, when.second, writable))
    {
      if writable {
        entries := entries[x := when.second];
      }
    }

    method XUIDs() returns (xuids: set<Xuid>)
      ensures xuids == entries.Keys
    {
      xuids := entries.Keys;
    }

    method Clear(x: Xuid, now: Time, writable: bool)
      modifies `entries
      ensures entries == HistoryAfter(old(entries), Cleared(x, now, writable))
    {
      if writable {
        entries := entries - {x};
      }
    }
  }

  class Syncer {
    const autoFriend: bool
    const expiryOn: bool
    const expiryDays: int
    const count: FriendCount
    const history: FileHistoryStore
    const clock: Clock
    ghost const loaded: History   // what the file held when the syncer was made

    var result: Result            // of the pass under way
    var singles: seq<Xuid>        // the single adds of the pass under way
    var trace: seq<Op>

    ghost function St(): Settings { Settings(clock, loaded, expiryDays, expiryOn) }

    /** The count and the file are what the trace makes of them. */
    ghost predicate Valid()
      reads `trace, count`friends, count`countedAt, count`retryAfter, history
    {
      && count.View() == Counts(UNCOUNTED, trace)
      && history.entries == Histories(loaded, trace)
    }

    constructor (autoFriend: bool, expiryOn: bool, expiryDays: int, history: FileHistoryStore, clock: Clock)
      ensures Valid() && fresh(count) && trace == [] && loaded == history.entries
      ensures this.autoFriend == autoFriend && this.expiryOn == expiryOn && this.expiryDays == expiryDays
      ensures this.history == history && this.clock == clock
    {
      this.autoFriend, this.expiryOn, this.expiryDays := autoFriend, expiryOn, expiryDays;
      this.history, this.clock, loaded := history, clock, history.entries;
      count := new FriendCount();
      result, singles, trace := NO_RESULT, [], [];
    }

    method Note(op: Op)
      modifies `trace
      ensures trace == old(trace) + [op]
      ensures Counts(UNCOUNTED, trace) == CountAfter(Counts(UNCOUNTED, old(trace)), op)
      ensures Histories(loaded, trace) == HistoryAfter(Histories(loaded, old(trace)), op)
    {
      OneMore(UNCOUNTED, loaded, trace, op);
      trace := trace + [op];
    }

    /** Between passes also: the clock runs, and nobody but the stale has been removed. */
    ghost predicate Steady()
      reads `trace, count`friends, count`countedAt, count`retryAfter, history
    {
      Valid() && Runs(clock) && Sound(St(), trace)
    }

    /** Every call of `time.Now` is a step of its own. */
    method ReadClock() returns (now: Time)
      requires Valid()
      modifies `trace
      ensures Valid() && now == clock(|old(trace)|).time && trace == ReadNow(clock, old(trace))
    {
      now := clock(|trace|).time;
      Note(Read(now));
    }

    method ReadClockBetween() returns (now: Time)
      requires Steady()
      modifies `trace
      ensures Steady() && now == clock(|old(trace)|).time && trace == ReadNow(clock, old(trace))
    {
      SoundOneMore(St(), trace, Read(clock(|trace|).time));
      now := ReadClock();
    }

    /** What the relay writes into the same file. */
    method Joins(join: Join, during: bool)
      requires Valid()
      modifies `trace, history
      ensures Valid() && trace == old(trace) + [JoinedAt(clock(|old(trace)|), join, during)]
    {
      var when := clock(|trace|);
      history.Seen(join.x, when, join.ok);
      Note(JoinedAt(when, join, during));
    }

    /** A join that the relay records between passes. */
    method RecordJoin(join: Join)
      requires Steady()
      modifies `trace, history
      ensures Steady() && trace == old(trace) + [JoinedAt(clock(|old(trace)|), join, false)]
    {
      SoundOneMore(St(), trace, JoinedAt(clock(|trace|), join, false));
      Joins(join, false);
    }

    /** The joins that the relay records at this point of a pass. */
    method Weave(sv: Services)
      requires Valid()
      modifies `trace, history
      ensures Valid() && trace == Woven(sv, clock, old(trace))
    {
      var joins := sv.joins(|trace|);
      for i := 0 to |joins|
        invariant Valid() && trace == AfterJoins(clock, old(trace), joins[..i])
      {
        assert joins[..i + 1][..i] == joins[..i];
        Joins(joins[i], true);
      }
      assert joins[..|joins|] == joins;
    }

    /** Reading, writing and clearing an entry of the file, each one step of the trace. */
    method Look(sv: Services, x: Xuid) returns (sight: Sight)
      requires Valid()
      modifies `trace, history
      ensures Valid() && trace == After(sv, clock, old(trace), LookAt(sv, clock, old(trace), x))
      ensures var h := Histories(loaded, old(trace));
              sight == if !sv.obliges(|old(trace)|) then Unreadable else if x !in h then Never else At(h[x])
    {
      sight := history.LastSeen(x, sv.obliges(|trace|));
      Note(LookAt(sv, clock, trace, x));
      Weave(sv);
    }

    method RecordSight(sv: Services, x: Xuid)
      requires Valid()
      modifies `trace, history
      ensures Valid() && trace == AfterSight(sv, clock, old(trace), x)
    {
      var when, writable := clock(|trace|), sv.obliges(|trace|);
      history.Seen(x, when, writable);
      Note(SawAt(when, x, writable));
      Weave(sv);
    }

    method ClearEntry(sv: Services, x: Xuid)
      requires Valid()
      modifies `trace, history
      ensures Valid() && trace == AfterClear(sv, clock, old(trace), x)
    {
      var now, writable := clock(|trace|).time, sv.obliges(|trace|);
      history.Clear(x, now, writable);
      Note(Cleared(x, now, writable));
      Weave(sv);
    }

    method CountOneMore(sv: Services, x: Xuid)
      requires Valid()
      modifies `trace, history, count`friends
      ensures Valid() && trace == After(sv, clock, old(trace), Gained(x, clock(|old(trace)|).time))
    {
      count.Add(1);
      Note(Gained(x, clock(|trace|).time));
      Weave(sv);
    }

    method CountOneLess(sv: Services, x: Xuid)
      requires Valid()
      modifies `trace, history, count`friends
      ensures Valid() && trace == After(sv, clock, old(trace), Removed(x, clock(|old(trace)|).time, true))
    {
      count.Add(-1);
      Note(Removed(x, clock(|trace|).time, true));
      Weave(sv);
    }

    /** A step that changes neither the count nor the file. */
    method Pass(sv: Services, op: Op)
      requires Valid() && (op.Declined? || (op.Removed? && !op.ok))
      modifies `trace, history
      ensures Valid() && trace == After(sv, clock, old(trace), op)
    {
      Note(op);
      Weave(sv);
    }

    /** `added`. */
    method Accepted(sv: Services, x: Xuid)
      requires Valid()
      modifies `trace, history, count`friends
      ensures Valid() && trace == AfterAdded(sv, clock, old(trace), x)
    {
      CountOneMore(sv, x);
      RecordSight(sv, x);
    }

    /** `addFriend`. */
    method AddFriend(sv: Services, x: Xuid)
      requires Valid()
      modifies `result, `singles, `trace, history, count`friends
      ensures Valid()
      ensures var answer := sv.env.adds(|old(singles)|, x);
              && result == AddOne(old(result), x, answer)
              && singles == old(singles) + [x]
              && trace == AfterSingle(sv, clock, old(trace), x, answer)
    {
      var answer := sv.env.adds(|singles|, x);
      singles := singles + [x];
      Take(sv, x, answer);
      Heed(x, answer);
    }

    /** What the answer to a single add does to the list: one more friend, or a request that is declined. */
    method Take(sv: Services, x: Xuid, answer: AddAnswer)
      requires Valid()
      modifies `trace, history, count`friends
      ensures Valid() && trace == AfterSingle(sv, clock, old(trace), x, answer)
    {
      if answer == Added {
        Accepted(sv, x);
      } else if answer == Restricted {
        Pass(sv, Declined(x, clock(|trace|).time));
      }
    }

    /** What it does to the pass's result. */
    method Heed(x: Xuid, answer: AddAnswer)
      modifies `result
      ensures result == AddOne(old(result), x, answer)
    {
      match answer {
        case Added =>
          result := result.(accepted := result.accepted + 1);
        case Restricted =>
        case ListFull =>
          result := result.(fullPlayers := result.fullPlayers + [x]);
        case AddFailed(fault) =>
          HoldAfter(x, fault);
      }
    }

    /** What a failed single add tells: the account waits, or the player does. */
    method HoldAfter(x: Xuid, fault: Fault)
      modifies `result
      ensures result == AddOne(old(result), x, AddFailed(fault))
    {
      var delay := RetryDelay(fault);
      if delay > 0 && PausesAllAdds(fault) {
        result := result.(addRetryAfter := delay);
      } else if delay > 0 && AboutPlayers(fault) {
        result := result.(waits := result.waits[x := delay]);
      } else if AboutPlayers(fault) {
        result := result.(waits := result.waits[x := REFUSED_BACKOFF]);
      }
    }

    /** The loop that counts first refusals. */
    method IsAddBlocked(refusedBefore: set<Xuid>) returns (blocked: bool)
      ensures blocked == AddBlocked(result, refusedBefore)
    {
      if result.addRetryAfter > 0 {
        return true;
      }
      if result.accepted > 0 {
        return false;
      }
      var first, refused := 0, result.fullPlayers;
      for i := 0 to |refused|
        invariant first == |FirstRefusals(refused[..i], refusedBefore)|
      {
        assert refused[..i + 1][..i] == refused[..i];
        if refused[i] !in refusedBefore {
          first := first + 1;
        }
      }
      assert refused[..|refused|] == refused;
      return first >= FULL_LIST_PLAYERS;
    }

    /** The loop over the players that the bulk accept took. */
    method AddAccepted(sv: Services, accepted: seq<Xuid>)
      requires Valid()
      modifies `trace, history, count`friends
      ensures Valid() && trace == AfterBulk(sv, clock, old(trace), accepted)
    {
      for i := 0 to |accepted|
        invariant Valid() && trace == AfterBulk(sv, clock, old(trace), accepted[..i])
      {
        assert accepted[..i + 1][..i] == accepted[..i];
        Accepted(sv, accepted[i]);
      }
      assert accepted[..|accepted|] == accepted;
    }

    static lemma SinglyOneMore(env: Env, failed: seq<Xuid>, i: nat, told: map<Xuid, Time>, refusedBefore: set<Xuid>, w: Work)
      requires i < |failed|
      ensures var x := failed[i];
              AddSingly(env, failed[i..], told, refusedBefore, w) ==
              if x in told then AddSingly(env, failed[i + 1..], told, refusedBefore, w)
              else if AddBlocked(w.result, refusedBefore) then w
              else AddSingly(env, failed[i + 1..], told, refusedBefore,
                             w.(result := AddOne(w.result, x, env.adds(|w.singles|, x)), singles := w.singles + [x]))
    {
      assert failed[i..][1..] == failed[i + 1..];
    }

    /** The loop over the players that the bulk accept failed, one by one. */
    method AddSingles(sv: Services, failed: seq<Xuid>, told: map<Xuid, Time>, refusedBefore: set<Xuid>, ghost requests: seq<seq<Xuid>>)
      requires Valid() && singles == []
      modifies `result, `singles, `trace, history, count`friends
      ensures Valid()
      ensures Work(result, requests, singles) == AddSingly(sv.env, failed, told, refusedBefore, Work(old(result), requests, []))
      ensures trace == AfterSingles(sv, clock, old(trace), singles)
    {
      ghost var goal := AddSingly(sv.env, failed, told, refusedBefore, Work(result, requests, []));
      assert failed[0..] == failed;
      for i := 0 to |failed|
        invariant Valid() && trace == AfterSingles(sv, clock, old(trace), singles)
        invariant goal == AddSingly(sv.env, failed[i..], told, refusedBefore, Work(result, requests, singles))
      {
        SinglyOneMore(sv.env, failed, i, told, refusedBefore, Work(result, requests, singles));
        if failed[i] in told {
          continue;
        }
        var blocked := IsAddBlocked(refusedBefore);
        if blocked {
          return;
        }
        assert (singles + [failed[i]])[..|singles|] == singles;
        AddFriend(sv, failed[i]);
      }
    }

    /** The loop over the players that the failure names a delay for. */
    method HoldTold(failed: seq<Xuid>, waits: map<Xuid, Time>)
      requires result.waits == map[]
      modifies `result
      ensures result == old(result).(waits := Told(failed, waits))
    {
      for i := 0 to |failed|
        invariant result == old(result).(waits := Told(failed[..i], waits))
      {
        var x := failed[i];
        assert forall y :: y in failed[..i + 1] <==> y in failed[..i] || y == x;
        if x in waits && waits[x] > 0 {
          result := result.(waits := result.waits[x := waits[x]]);
        }
      }
      assert failed[..|failed|] == failed;
    }

    method Stall(fault: Fault)
      modifies `result
      ensures result == Stalled(old(result), fault)
    {
      var delay := RetryDelay(fault);
      if delay > 0 {
        if fault.Response? && fault.isRead {
          result := result.(readRetryAfter := delay);
        } else if PausesAllAdds(fault) {
          result := result.(addRetryAfter := delay);
        }
      }
    }

    method AcceptRequests(sv: Services, skip: set<Xuid>, refusedBefore: set<Xuid>) returns (requests: seq<seq<Xuid>>)
      requires Valid() && result == NO_RESULT && singles == []
      modifies `result, `singles, `trace, history, count`friends
      ensures Valid()
      ensures Work(result, requests, singles) == AcceptWork(sv.env, skip, refusedBefore)
      ensures trace == AfterAccept(sv, clock, old(trace), skip, refusedBefore)
    {
      var client := new Client(sv.env.server);
      var accepted, error := client.AcceptPendingFriendRequests(sv.env.pending, skip);
      requests := client.requests;
      AddAccepted(sv, accepted);
      result := result.(accepted := |accepted|, pendingRead := PendingRead(error));
      if error.RequestsFailed? {
        HoldTold(error.failed, error.waits);
        if error.cause.None? {
          AddSingles(sv, error.failed, error.waits, refusedBefore, requests);
        } else {
          Stall(error.cause.value);
        }
      } else if error.Stopped? {
        Stall(error.fault);
      }
    }

    /** The removal and what follows it. */
    method Remove(sv: Services, x: Xuid)
      requires Valid()
      modifies `result, `trace, history, count`friends
      ensures Valid()
      ensures var scan := RemovalScan(sv, clock, old(trace), x);
              trace == scan.trace && result == Noted(old(result), scan)
    {
      var fault := sv.removals(|trace|);
      if fault.Some? {
        RemovalFails(sv, x, fault.value);
      } else {
        RemovalSucceeds(sv, x);
      }
    }

    method RemovalSucceeds(sv: Services, x: Xuid)
      requires Valid()
      modifies `trace, history, count`friends
      ensures Valid()
      ensures trace == AfterClear(sv, clock, After(sv, clock, old(trace), Removed(x, clock(|old(trace)|).time, true)), x)
    {
      CountOneLess(sv, x);
      ClearEntry(sv, x);
    }

    /** A failed removal that asks for a delay delays all removals. */
    method RemovalFails(sv: Services, x: Xuid, fault: Fault)
      requires Valid()
      modifies `result, `trace, history
      ensures Valid()
      ensures trace == After(sv, clock, old(trace), Removed(x, clock(|old(trace)|).time, false))
      ensures result == Noted(old(result), Scan(trace, RetryDelay(fault)))
    {
      Pass(sv, Removed(x, clock(|trace|).time, false));
      var delay := RetryDelay(fault);
      if delay > 0 {
        result := result.(removeRetryAfter := delay);
      }
    }

    /** `expire` on one friend. */
    method Expire(sv: Services, x: Xuid)
      requires Valid()
      modifies `result, `trace, history, count`friends
      ensures Valid()
      ensures var scan := ExpireScan(sv, clock, old(trace), Histories(loaded, old(trace)), x, expiryDays);
              trace == scan.trace && result == Noted(old(result), scan)
    {
      var now := clock(|trace|).time;
      var sight := Look(sv, x);
      match sight {
        case Unreadable =>
        case Never =>
          RecordSight(sv, x);
        case At(seconds) =>
          if Inactive(seconds, now, expiryDays) {
            Remove(sv, x);
          }
      }
    }

    /** The loop over the friends. */
    method ScanFriends(sv: Services, people: seq<Xuid>)
      requires Valid() && result.removeRetryAfter == 0
      modifies `result, `trace, history, count`friends
      ensures Valid()
      ensures var scan := FriendScan(sv, clock, loaded, old(trace), people, expiryDays);
              trace == scan.trace && result == old(result).(removeRetryAfter := scan.removeRetryAfter)
    {
      for i := 0 to |people|
        invariant Valid()
        invariant var scan := FriendScan(sv, clock, loaded, old(trace), people[..i], expiryDays);
                  trace == scan.trace && result == old(result).(removeRetryAfter := scan.removeRetryAfter)
      {
        assert people[..i + 1][..i] == people[..i];
        if IsGuest(people[i]) {
          continue;
        }
        if result.removeRetryAfter > 0 {
          ScanStops(sv, clock, loaded, old(trace), people, i, expiryDays);
          return;
        }
        Expire(sv, people[i]);
      }
      assert people[..|people|] == people;
    }

    /** The loop over the recorded players, in any order. */
    method PruneHistory(sv: Services, people: seq<Xuid>)
      requires Valid()
      modifies `trace, history
      ensures Valid() && PrunesAll(sv, clock, loaded, old(trace), trace, people)
      ensures forall x | x in people :: Kept(loaded, old(trace), trace, x) && NotNew(loaded, old(trace), trace, x)
    {
      if !sv.lists {
        return;
      }
      var left := history.XUIDs();
      PruneStarts(clock, loaded, trace, people);
      while left != {}
        invariant Valid() && PrunedSoFar(clock, loaded, old(trace), trace, people, left)
      {
        var x :| x in left;
        if x in people {
          PruneSkips(clock, loaded, old(trace), trace, people, left, x);
        } else {
          PruneOneMore(sv, clock, loaded, old(trace), trace, people, left, x);
          ClearEntry(sv, x);
        }
        left := left - {x};
      }
    }

    method CountFriends(sv: Services, people: seq<Xuid>)
      requires Valid()
      modifies `trace, history, count`friends, count`countedAt
      ensures Valid() && trace == After(sv, clock, old(trace), Counted(people, clock(|old(trace)|).time))
    {
      var now := clock(|trace|).time;
      count.Set(people, now);
      Note(Counted(people, now));
      Weave(sv);
    }

    method FailListing(sv: Services)
      requires Valid()
      modifies `trace, history, count`retryAfter
      ensures Valid() && trace == After(sv, clock, old(trace), ListFailed(clock(|old(trace)|).time))
    {
      var now := clock(|trace|).time;
      count.Failed(now);
      Note(ListFailed(now));
      Weave(sv);
    }

    method ReadList(sv: Services, people: seq<Xuid>, expires: bool, remove: bool)
      requires Valid() && result.removeRetryAfter == 0
      modifies `result, `trace, history, count`friends, count`countedAt
      ensures Valid()
      ensures var o := ReadListing(sv, clock, loaded, old(trace), people, expires, remove, expiryDays);
              && (if o.prunes then PrunesAll(sv, clock, loaded, o.trace, trace, people) else trace == o.trace)
              && result == old(result).(removeRetryAfter := o.removeRetryAfter)
    {
      CountFriends(sv, people);
      if !expires {
        return;
      }
      if remove {
        ScanFriends(sv, people);
      }
      PruneHistory(sv, people);
    }

    method TakeList(sv: Services, expires: bool, remove: bool)
      requires Valid() && result.readRetryAfter == result.removeRetryAfter == 0
      modifies `result, `trace, history, count`friends, count`countedAt, count`retryAfter
      ensures Valid()
      ensures Listed(sv, TakeListing(sv, clock, loaded, old(trace), expires, remove, expiryDays), old(result))
    {
      match sv.list {
        case Unlisted(fault) =>
          result := result.(readRetryAfter := RetryDelay(fault));
          if !expires {
            FailListing(sv);
          }
        case People(people) =>
          ReadList(sv, people, expires, remove);
      }
    }

    /** The listing half left the trace and the result that `o` calls for. */
    ghost predicate Listed(sv: Services, o: Listing, before: Result)
      reads this
    {
      && (if o.prunes then sv.list.People? && PrunesAll(sv, clock, loaded, o.trace, trace, sv.list.people) else trace == o.trace)
      && result == before.(readRetryAfter := o.readRetryAfter, removeRetryAfter := o.removeRetryAfter)
    }

    /** The listing half of a pass. */
    method ListFriends(sv: Services, expires: bool, remove: bool)
      requires Valid() && result.readRetryAfter == result.removeRetryAfter == 0
      modifies `result, `trace, history, count`friends, count`countedAt, count`retryAfter
      ensures Valid()
      ensures Listed(sv, ListingOf(sv, clock, loaded, old(trace), expires, expiryOn, remove, expiryDays), old(result))
    {
      if !expires {
        var now := ReadClock();
        var needed := count.NeedsList(expiryOn, now);
        if !needed {
          return;
        }
      }
      TakeList(sv, expires, remove);
    }

    /** `syncWithOptions`: what it did is the accepting half's work, with the delays that the listing half met. */
    method SyncWithOptions(sv: Services, opts: Options) returns (requests: seq<seq<Xuid>>)
      requires Valid()
      modifies `result, `singles, `trace, history, count`friends, count`countedAt, count`retryAfter
      ensures Valid()
      ensures IsPass(St(), sv, Enabled(opts), old(trace), trace)
      ensures result == PassResult(St(), sv, Enabled(opts), old(trace))
      ensures Work(result, requests, singles) == AcceptHalfWork(sv, Enabled(opts)).(result := result)
    {
      result, singles, requests := NO_RESULT, [], [];
      if autoFriend && opts.adds {
        requests := AcceptRequests(sv, opts.skip, opts.refusedBefore);
        AcceptKeepsDelays(sv.env, opts.skip, opts.refusedBefore);
        if result.readRetryAfter > 0 {
          return;
        }
      }
      ListFriends(sv, opts.expires && expiryOn, opts.removes);
    }

    /** The options that the configuration leaves: whether players are accepted and friends expired at all. */
    function Enabled(opts: Options): Options {
      opts.(adds := autoFriend && opts.adds, expires := opts.expires && expiryOn)
    }

    /** What the configuration switches off does not happen, whatever a pass is asked: without accepting nobody is asked for or accepted,
        and without expiry nobody is looked at or removed and no entry is cleared. */
    lemma ConfigurationCounts(sv: Services, opts: Options, before: seq<Op>, after: seq<Op>)
      requires IsPass(St(), sv, Enabled(opts), before, after)
      ensures !(autoFriend && opts.adds) ==>
                AcceptHalfWork(sv, Enabled(opts)).requests == [] && PassResult(St(), sv, Enabled(opts), before).accepted == 0
      ensures !(expiryOn && opts.expires) ==>
                forall i | |before| <= i < |after| :: !after[i].Looked? && !after[i].Removed? && !after[i].Cleared?
    {
      if !(expiryOn && opts.expires) {
        var end := PassLeavesFriends(St(), sv, Enabled(opts), before, after);
        forall i | |before| <= i < |after| ensures !after[i].Cleared? {
          if after[i].Cleared? {
            PassClears(St(), sv, Enabled(opts), before, after, i);
          }
        }
      }
    }

    /** The accepting half's work depends on no delay of the listing half. */
    static lemma WorkIs(s: State, autoFriend: bool, start: Time, env: Env, sv: Services, opts: Options)
      requires env == sv.env.(listDelay := env.listDelay, removeDelay := env.removeDelay)
      requires opts.adds == MayAdd(s, start) && opts.skip == Skipped(s, start) && opts.refusedBefore == s.refusedBefore
      ensures var w := AcceptHalfWork(sv, opts.(adds := autoFriend && opts.adds));
              PassWork(s, autoFriend, start, env) ==
              if w.result.readRetryAfter > 0 then w
              else w.(result := w.result.(readRetryAfter := env.listDelay,
                                          removeRetryAfter := if MayRemove(s, start) then env.removeDelay else 0))
    {
      AcceptIgnoresDelays(sv.env, env, opts.skip, opts.refusedBefore);
    }

    /** `work` is the accepting half's, `accepted`, with whatever delays the listing half met, if it ran. */
    static ghost predicate IsWork(work: Work, accepted: Work) {
      var r := work.result;
      && work == accepted.(result := r)
      && (if accepted.result.readRetryAfter > 0 then r == accepted.result
          else r == accepted.result.(readRetryAfter := r.readRetryAfter, removeRetryAfter := r.removeRetryAfter))
    }

    /** A pass with that work, recorded at `end`, is a turn. */
    static lemma TurnIs(s: State, autoFriend: bool, start: Time, end: Time, env: Env, sv: Services, opts: Options, work: Work)
      requires start <= end
      requires env == sv.env.(listDelay := work.result.readRetryAfter, removeDelay := work.result.removeRetryAfter)
      requires opts.adds == MayAdd(s, start) && opts.skip == Skipped(s, start) && opts.refusedBefore == s.refusedBefore
      requires IsWork(work, AcceptHalfWork(sv, opts.(adds := autoFriend && opts.adds)))
      requires work.result.removeRetryAfter != 0 ==> MayRemove(s, start)
      ensures IsTurn(autoFriend, Turn(s, start, env, work, end, RunState.Record(s, end, work.result)))
    {
      WorkIs(s, autoFriend, start, env, sv, opts);
    }

    /** The pass between the two readings of the clock that `runSync` makes. */
    method TimedPass(sv: Services, opts: Options) returns (requests: seq<seq<Xuid>>, end: Time, ghost passed: seq<Op>)
      requires Steady()
      modifies `result, `singles, `trace, history, count`friends, count`countedAt, count`retryAfter
      ensures Steady() && |old(trace)| < |trace| && end == clock(|trace| - 1).time
      ensures IsPass(St(), sv, Enabled(opts), old(trace), passed) && trace == ReadNow(clock, passed)
      ensures result == PassResult(St(), sv, Enabled(opts), old(trace))
      ensures IsWork(Work(result, requests, singles), AcceptHalfWork(sv, Enabled(opts)))
      ensures result.removeRetryAfter != 0 ==> opts.removes
    {
      requests := SyncWithOptions(sv, opts);
      RemovalDelayNeedsRemovals(St(), sv, Enabled(opts), old(trace));
      passed := trace;
      PassGrows(St(), sv, Enabled(opts), old(trace), passed);
      PassIsSound(St(), sv, Enabled(opts), old(trace), passed);
      end := ReadClockBetween();
    }

    /** `runSync`: one turn of the run of passes, with the delays that the listing half met. */
    method RunSync(sv: Services, memory: RunMemory, expires: bool) returns (retryAfter: Time, ghost turn: Turn, ghost passed: seq<Op>)
      requires Steady()
      modifies `result, `singles, `trace, history, count, memory
      ensures Steady() && |old(trace)| < |trace|
      ensures turn.start == clock(|old(trace)|).time && turn.end == clock(|trace| - 1).time
      ensures IsTurn(autoFriend, turn) && turn.before == old(memory.View()) && turn.after == memory.View()
      ensures turn.env == sv.env.(listDelay := turn.env.listDelay, removeDelay := turn.env.removeDelay)
      ensures retryAfter == turn.work.result.readRetryAfter && count.full == memory.full
      ensures IsPass(St(), sv, Enabled(OptionsOf(turn.before, turn.start, expires)), ReadNow(clock, old(trace)), passed)
      ensures trace == ReadNow(clock, passed)
      ensures turn.work.result ==
              PassResult(St(), sv, Enabled(OptionsOf(turn.before, turn.start, expires)), ReadNow(clock, old(trace)))
    {
      var start, opts := Begin(memory, expires);
      turn, passed := PassAndRecord(sv, memory, opts, start);
      retryAfter := result.readRetryAfter;
    }

    /** The pass and its record, from the options on. */
    method PassAndRecord(sv: Services, memory: RunMemory, opts: Options, start: Time) returns (ghost turn: Turn, ghost passed: seq<Op>)
      requires Steady() && trace != [] && start == clock(|trace| - 1).time
      requires opts == OptionsOf(memory.View(), start, opts.expires)
      modifies `result, `singles, `trace, history, count, memory
      ensures Steady() && |old(trace)| < |trace|
      ensures turn == Turn(old(memory.View()), start, turn.env, turn.work, clock(|trace| - 1).time, memory.View())
      ensures IsTurn(autoFriend, turn) && turn.work.result == result && count.full == memory.full
      ensures turn.env == sv.env.(listDelay := turn.env.listDelay, removeDelay := turn.env.removeDelay)
      ensures IsPass(St(), sv, Enabled(opts), old(trace), passed) && trace == ReadNow(clock, passed)
      ensures result == PassResult(St(), sv, Enabled(opts), old(trace))
    {
      ghost var before := memory.View();
      var requests, end;
      requests, end, passed := TimedPass(sv, opts);
      assert start <= end && memory.View() == before;
      turn := Finish(sv, memory, opts, Work(result, requests, singles), start, end);
    }

    /** Nothing asks a pass for a delay before it reads again: it accepts nobody and is given the list of friends. */
    predicate Undelayed(sv: Services) { !autoFriend && sv.list.People? }

    /** `runSync` as the loop sees it. */
    method SyncOnce(sv: Services, memory: RunMemory, expires: bool) returns (retryAfter: Time, ghost turn: Turn)
      requires Steady()
      modifies `result, `singles, `trace, history, count, memory
      ensures Steady() && |old(trace)| < |trace|
      ensures turn.start == clock(|old(trace)|).time && turn.end == clock(|trace| - 1).time
      ensures IsTurn(autoFriend, turn) && turn.before == old(memory.View()) && turn.after == memory.View()
      ensures retryAfter == turn.work.result.readRetryAfter && (Undelayed(sv) ==> retryAfter == 0)
    {
      ghost var passed;
      retryAfter, turn, passed := RunSync(sv, memory, expires);
      if Undelayed(sv) {
        ListedIsUndelayed(St(), sv, Enabled(OptionsOf(turn.before, turn.start, expires)), ReadNow(clock, old(trace)));
      }
    }

    /** The clock reading and the options that a pass starts with. */
    method Begin(memory: RunMemory, expires: bool) returns (start: Time, opts: Options)
      requires Steady()
      modifies `trace
      ensures Steady() && start == clock(|old(trace)|).time && trace == ReadNow(clock, old(trace))
      ensures opts == OptionsOf(memory.View(), start, expires)
    {
      start := ReadClockBetween();
      var skip := memory.SkippedAt(start);
      opts := Options(expires, MayAdd(memory.View(), start), MayRemove(memory.View(), start), skip, memory.refusedBefore);
    }

    /** Records the pass's result. */
    method Finish(sv: Services, memory: RunMemory, opts: Options, ghost work: Work, start: Time, end: Time) returns (ghost turn: Turn)
      requires Steady() && start <= end && work.result == result
      requires opts == OptionsOf(memory.View(), start, opts.expires)
      requires IsWork(work, AcceptHalfWork(sv, Enabled(opts)))
      requires result.removeRetryAfter != 0 ==> opts.removes
      modifies memory, count`full
      ensures Steady()
      ensures turn == Turn(old(memory.View()), start, turn.env, work, end, memory.View()) && IsTurn(autoFriend, turn)
      ensures turn.env == sv.env.(listDelay := result.readRetryAfter, removeDelay := result.removeRetryAfter)
      ensures count.full == memory.full
    {
      ghost var env := sv.env.(listDelay := result.readRetryAfter, removeDelay := result.removeRetryAfter);
      TurnIs(memory.View(), autoFriend, start, end, env, sv, opts, work);
      turn := Turn(memory.View(), start, env, work, end, RunState.Record(memory.View(), end, result));
      memory.Record(end, result);
      count.SetFull(memory.full);
    }
  }
}
