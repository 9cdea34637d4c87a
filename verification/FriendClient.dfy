/** The client that runs a bulk accept: its loop over batches and its recursive halving, which
    write the map of delays they share. */
module FriendClient {
  import opened Common
  import opened BulkAccept

  class Client {
    const server: Server
    var waits: map<Xuid, Time>
    var requests: seq<seq<Xuid>>   // what the service has been asked since the accept began

    constructor (server: Server)
      ensures this.server == server
    {
      this.server := server;
      waits, requests := map[], [];
    }

    method Hold(xuids: seq<Xuid>, delay: Time)
      modifies `waits
      ensures waits == HoldAll(old(waits), xuids, delay)
    {
      for i := 0 to |xuids|
        invariant waits == HoldAll(old(waits), xuids[..i], delay)
      {
        waits := waits[xuids[i] := delay];
        assert forall x :: x in xuids[..i + 1] <==> x in xuids[..i] || x == xuids[i];
      }
      assert xuids[..|xuids|] == xuids;
    }

    method Ask(xuids: seq<Xuid>) returns (answer: BulkAnswer)
      modifies `requests
      ensures requests == old(requests) + [xuids] && answer == server(|old(requests)|, xuids)
    {
      answer := server(|requests|, xuids);
      requests := requests + [xuids];
    }

    method AddFriends(xuids: seq<Xuid>) returns (updated: seq<Xuid>, fault: Option<Fault>)
      requires xuids != []
      modifies this
      ensures Outcome(updated, fault, requests, waits) ==
              BulkAccept.AddFriends(server, old(requests), old(waits), xuids)
      decreases |xuids|
    {
      var answer := Ask(xuids);
      match answer {
        case Refused(named, wait) =>
          if wait > 0 {
            Hold(named, wait);
          }
          return [], None;
        case Updated(all) =>
          return all, None;
        case Failed(partly, f) =>
          if |xuids| == 1 || !(f.Response? && f.bulkLimit) {
            var delay := RetryDelay(f);
            if delay > 0 && AboutPlayers(f) {
              Hold(xuids, delay);
            }
            return partly, Some(f);
          }
          var middle := |xuids| / 2;
          var left;
          left, fault := AddFriends(xuids[..middle]);
          if fault.Some? {
            return left, fault;
          }
          var right;
          right, fault := AddFriends(xuids[middle..]);
          return left + right, fault;
      }
    }

    /** The loop over the pending list. */
    method SelectEligible(players: seq<Xuid>, skip: set<Xuid>) returns (xuids: seq<Xuid>)
      ensures xuids == Eligible(players, skip)
    {
      xuids := [];
      for i := 0 to |players|
        invariant xuids == Eligible(players[..i], skip)
      {
        assert players[..i + 1][..i] == players[..i];
        if players[i] == "" || IsGuest(players[i]) || players[i] in skip {
          continue;
        }
        xuids := xuids + [players[i]];
      }
      assert players[..|players|] == players;
    }

    /** What the batches from here on achieve, after `updated`. */
    static ghost function After(updated: seq<Xuid>, rest: Outcome): Outcome {
      rest.(updated := updated + rest.updated)
    }

    static lemma OneBatch(server: Server, requests: seq<seq<Xuid>>, waits: map<Xuid, Time>, updated: seq<Xuid>, xuids: seq<Xuid>, size: nat)
      requires xuids != [] && size == Min(BATCH_SIZE, |xuids|)
      ensures var first := BulkAccept.AddFriends(server, requests, waits, xuids[..size]);
              After(updated, AddBatches(server, requests, waits, xuids)) ==
              if first.fault.Some? then After(updated, first)
              else After(updated + first.updated, AddBatches(server, first.requests, first.waits, xuids[size..]))
    {
      var first := BulkAccept.AddFriends(server, requests, waits, xuids[..size]);
      if first.fault.None? {
        Associative(updated, first.updated, AddBatches(server, first.requests, first.waits, xuids[size..]).updated);
      }
    }

    /** The loop over the batches. */
    method AddInBatches(xuids: seq<Xuid>) returns (updated: seq<Xuid>, fault: Option<Fault>)
      modifies this
      ensures Outcome(updated, fault, requests, waits) ==
              AddBatches(server, old(requests), old(waits), xuids)
    {
      updated, fault := [], None;
      var start := 0;
      assert xuids[0..] == xuids;
      while start < |xuids|
        invariant start <= |xuids| && fault == None
        invariant After([], AddBatches(server, old(requests), old(waits), xuids)) ==
                  After(updated, AddBatches(server, requests, waits, xuids[start..]))
      {
        var end := Min(start + BATCH_SIZE, |xuids|);
        ghost var size := end - start;
        OneBatch(server, requests, waits, updated, xuids[start..], size);
        assert xuids[start..][..size] == xuids[start..end] && xuids[start..][size..] == xuids[end..];
        var batch;
        batch, fault := AddFriends(xuids[start..end]);
        updated := updated + batch;
        if fault.Some? {
          break;
        }
        start := end;
      }
      assert [] + AddBatches(server, old(requests), old(waits), xuids).updated ==
             AddBatches(server, old(requests), old(waits), xuids).updated;
      assert fault.None? ==> xuids[start..] == [] && updated + [] == updated;
    }

    method AcceptPendingFriendRequests(pending: PendingList, skip: set<Xuid>)
      returns (accepted: seq<Xuid>, error: AcceptError)
      modifies this
      ensures Accept(accepted, error, requests) == AcceptPending(server, pending, skip)
    {
      waits, requests := map[], [];
      if pending.Unread? {
        return [], Stopped(pending.fault);
      }
      var xuids := SelectEligible(pending.players, skip);
      if xuids == [] {
        return [], NoError;
      }
      var updated, fault := AddInBatches(xuids);
      ghost var o := Outcome(updated, fault, requests, waits);
      accepted := Filter((x: Xuid) => x in xuids, updated);
      if fault.Some? {
        if waits == map[] {
          return accepted, Stopped(fault.value);
        }
        var waits := waits;
        return accepted, RequestsFailed(Filter((x: Xuid) => x in waits, xuids), waits, fault);
      }
      var done := accepted;
      var failed := Filter((x: Xuid) => x !in done, xuids);
      if failed != [] {
        return accepted, RequestsFailed(failed, waits, None);
      }
      return accepted, NoError;
    }
  }
}
