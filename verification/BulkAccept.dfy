/** Accepting friend requests in bulk: batches of fifty, halved while the service calls a request too
    large. The service is an oracle that sees how many requests came before and what is asked. */
module BulkAccept {
  import opened Common

  type Xuid = string

  /** An error from the service; `Transport` is one without a response. */
  datatype Fault =
    | Response(status: int, isRead: bool, retryAfter: Time, rateLimited: bool, bulkLimit: bool)
    | Transport

  /** `Refused` is the answer that names every player as failed; it may ask for a delay. */
  datatype BulkAnswer =
    | Updated(updated: seq<Xuid>)
    | Refused(named: seq<Xuid>, wait: Time)
    | Failed(partly: seq<Xuid>, fault: Fault)

  type Server = (nat, seq<Xuid>) -> BulkAnswer

  const BATCH_SIZE := 50

  function RetryDelay(f: Fault): (delay: Time)
    ensures delay >= 0
  {
    if f.Response? && f.retryAfter > 0 then f.retryAfter
    else if f.Response? && f.rateLimited then MIN_UPDATE_INTERVAL
    else 0
  }

  predicate PausesAllAdds(f: Fault) { f.Response? && (f.status == 429 || f.status >= 500) }

  predicate AboutPlayers(f: Fault) { f.Response? && f.status in {400, 404, 409} }

  // ----- guests -----

  predicate IsDigit(c: char) { '0' <= c <= '9' }

  function DecimalValue(s: string): nat
    requires forall c | c in s :: IsDigit(c)
  {
    if s == "" then 0 else
      assert IsDigit(s[|s| - 1]);
      DecimalValue(s[..|s| - 1]) * 10 + (s[|s| - 1] as int - '0' as int)
  }

  /** The top twelve bits of the 64-bit number are one. */
  predicate IsGuest(xuid: Xuid) {
    xuid != "" && (forall c | c in xuid :: IsDigit(c)) &&
    DecimalValue(xuid) < 0x1_0000_0000_0000_0000 && DecimalValue(xuid) / 0x10_0000_0000_0000 == 1
  }

  predicate IsEligible(xuid: Xuid, skip: set<Xuid>) { xuid != "" && !IsGuest(xuid) && xuid !in skip }

  function Eligible(pending: seq<Xuid>, skip: set<Xuid>): seq<Xuid> {
    Filter((x: Xuid) => IsEligible(x, skip), pending)
  }

  // ----- one batch -----

  /** What adding one group of players did: who was updated, the failure that stopped it, every request so
      far, and the delays collected so far. */
  datatype Outcome = Outcome(updated: seq<Xuid>, fault: Option<Fault>, requests: seq<seq<Xuid>>, waits: map<Xuid, Time>)

  function HoldAll(waits: map<Xuid, Time>, xuids: seq<Xuid>, delay: Time): map<Xuid, Time> {
    waits + map x | x in xuids :: delay
  }

  function AddFriends(server: Server, requests: seq<seq<Xuid>>, waits: map<Xuid, Time>, xuids: seq<Xuid>): Outcome
    requires xuids != []
    decreases |xuids|
  {
    var asked := requests + [xuids];
    match server(|requests|, xuids)
    case Refused(named, wait) =>
      Outcome([], None, asked, if wait > 0 then HoldAll(waits, named, wait) else waits)
    case Updated(updated) => Outcome(updated, None, asked, waits)
    case Failed(partly, fault) =>
      if |xuids| == 1 || !(fault.Response? && fault.bulkLimit) then
        Outcome(partly, Some(fault), asked,
                if RetryDelay(fault) > 0 && AboutPlayers(fault) then HoldAll(waits, xuids, RetryDelay(fault)) else waits)
      else
        var middle := |xuids| / 2;
        var left := AddFriends(server, asked, waits, xuids[..middle]);
        if left.fault.Some? then left else
          var right := AddFriends(server, left.requests, left.waits, xuids[middle..]);
          right.(updated := left.updated + right.updated)
  }

  /** All batches in turn, stopping at the first failure. */
  function AddBatches(server: Server, requests: seq<seq<Xuid>>, waits: map<Xuid, Time>, xuids: seq<Xuid>): Outcome
    decreases |xuids|
  {
    if xuids == [] then Outcome([], None, requests, waits) else
      var size := Min(BATCH_SIZE, |xuids|);
      var first := AddFriends(server, requests, waits, xuids[..size]);
      if first.fault.Some? then first else
        var rest := AddBatches(server, first.requests, first.waits, xuids[size..]);
        rest.(updated := first.updated + rest.updated)
  }

  // ----- the whole accept -----

  datatype AcceptError =
    | NoError
    | Stopped(fault: Fault)
    | RequestsFailed(failed: seq<Xuid>, waits: map<Xuid, Time>, cause: Option<Fault>)

  datatype Accept = Accept(accepted: seq<Xuid>, error: AcceptError, requests: seq<seq<Xuid>>)

  /** The pending list, or the failure to read it. */
  datatype PendingList = Listed(players: seq<Xuid>) | Unread(fault: Fault)

  function Concluded(xuids: seq<Xuid>, o: Outcome): Accept {
    var accepted := Filter((x: Xuid) => x in xuids, o.updated);
    if o.fault.Some? then
      if o.waits == map[] then Accept(accepted, Stopped(o.fault.value), o.requests)
      else Accept(accepted, RequestsFailed(Filter((x: Xuid) => x in o.waits, xuids), o.waits, o.fault), o.requests)
    else
      var failed := Filter((x: Xuid) => x !in accepted, xuids);
      Accept(accepted, if failed == [] then NoError else RequestsFailed(failed, o.waits, None), o.requests)
  }

  function AcceptPending(server: Server, pending: PendingList, skip: set<Xuid>): Accept {
    match pending
    case Unread(fault) => Accept([], Stopped(fault), [])
    case Listed(players) =>
      var xuids := Eligible(players, skip);
      Concluded(xuids, AddBatches(server, [], map[], xuids))
  }

  // ----- every request asks for eligible players only, whatever the service answers -----

  lemma {:induction false} RequestsArePieces(server: Server, requests: seq<seq<Xuid>>, waits: map<Xuid, Time>, xuids: seq<Xuid>)
    requires xuids != []
    ensures requests <= AddFriends(server, requests, waits, xuids).requests
    ensures forall i | |requests| <= i < |AddFriends(server, requests, waits, xuids).requests| ::
              Piece(AddFriends(server, requests, waits, xuids).requests[i], xuids)
    decreases |xuids|
  {
    var asked := requests + [xuids];
    var answer := server(|requests|, xuids);
    if answer.Failed? && |xuids| > 1 && answer.fault.Response? && answer.fault.bulkLimit {
      var middle := |xuids| / 2;
      RequestsArePieces(server, asked, waits, xuids[..middle]);
      var left := AddFriends(server, asked, waits, xuids[..middle]);
      if left.fault.None? {
        RequestsArePieces(server, left.requests, left.waits, xuids[middle..]);
      }
    }
  }

  /** A request that is neither empty nor longer than the group it serves, and asks only for its players. */
  ghost predicate Piece(request: seq<Xuid>, xuids: seq<Xuid>) {
    request != [] && |request| <= |xuids| && forall x | x in request :: x in xuids
  }

  ghost predicate SmallPiece(request: seq<Xuid>, xuids: seq<Xuid>) {
    Piece(request, xuids) && |request| <= BATCH_SIZE
  }

  lemma {:induction false} BatchRequestsArePieces(server: Server, requests: seq<seq<Xuid>>, waits: map<Xuid, Time>, xuids: seq<Xuid>)
    ensures requests <= AddBatches(server, requests, waits, xuids).requests
    ensures forall i | |requests| <= i < |AddBatches(server, requests, waits, xuids).requests| ::
              SmallPiece(AddBatches(server, requests, waits, xuids).requests[i], xuids)
    decreases |xuids|
  {
    if xuids != [] {
      var size := Min(BATCH_SIZE, |xuids|);
      RequestsArePieces(server, requests, waits, xuids[..size]);
      var first := AddFriends(server, requests, waits, xuids[..size]);
      if first.fault.None? {
        BatchRequestsArePieces(server, first.requests, first.waits, xuids[size..]);
      }
    }
  }

  /** No player who is held, a guest or unnamed is in any request, and no request is empty or too long;
      whoever is reported as accepted or failed was asked for. */
  lemma OnlyEligibleAreAsked(server: Server, players: seq<Xuid>, skip: set<Xuid>)
    ensures var a := AcceptPending(server, Listed(players), skip);
            && (forall q | q in a.requests :: 0 < |q| <= BATCH_SIZE && forall x | x in q :: x in players && IsEligible(x, skip))
            && (forall x | x in a.accepted :: x in players && IsEligible(x, skip))
            && (a.error.RequestsFailed? ==> forall x | x in a.error.failed :: x in players && IsEligible(x, skip))
  {
    var xuids := Eligible(players, skip);
    FilterMembers((x: Xuid) => IsEligible(x, skip), players);
    BatchRequestsArePieces(server, [], map[], xuids);
    var o := AddBatches(server, [], map[], xuids);
    FilterMembers((x: Xuid) => x in xuids, o.updated);
    FilterMembers((x: Xuid) => x in o.waits, xuids);
    var accepted := Filter((x: Xuid) => x in xuids, o.updated);
    FilterMembers((x: Xuid) => x !in accepted, xuids);
  }

  // ----- the outcome is what the answers say, whatever they are -----

  /** An answer that makes the client split the request and forget the rest of the answer. */
  predicate Splits(request: seq<Xuid>, answer: BulkAnswer) {
    answer.Failed? && |request| != 1 && answer.fault.Response? && answer.fault.bulkLimit
  }

  /** The players that an answer updates. */
  function UpdatedBy(request: seq<Xuid>, answer: BulkAnswer): seq<Xuid> {
    if Splits(request, answer) then [] else
      match answer
      case Updated(updated) => updated
      case Refused(_, _) => []
      case Failed(partly, _) => partly
  }

  /** The delays as they stand after an answer: the players it holds wait for its delay, and nobody else changes. */
  function HeldBy(waits: map<Xuid, Time>, request: seq<Xuid>, answer: BulkAnswer): map<Xuid, Time> {
    if Splits(request, answer) then waits else
      match answer
      case Updated(_) => waits
      case Refused(named, wait) => if wait > 0 then HoldAll(waits, named, wait) else waits
      case Failed(_, fault) => if RetryDelay(fault) > 0 && AboutPlayers(fault) then HoldAll(waits, request, RetryDelay(fault)) else waits
  }

  /** What the answers to the requests from number `from` on amount to, in order. */
  function UpdatedFrom(server: Server, requests: seq<seq<Xuid>>, from: nat): seq<Xuid> {
    if |requests| <= from then [] else
      var n := |requests| - 1;
      UpdatedFrom(server, requests[..n], from) + UpdatedBy(requests[n], server(n, requests[n]))
  }

  function WaitsAfter(server: Server, requests: seq<seq<Xuid>>): map<Xuid, Time> {
    if requests == [] then map[] else
      var n := |requests| - 1;
      HeldBy(WaitsAfter(server, requests[..n]), requests[n], server(n, requests[n]))
  }

  /** The fault of the last request, if its answer is a failure that is not split. */
  function LastFault(server: Server, requests: seq<seq<Xuid>>): Option<Fault> {
    if requests == [] then None else
      var n := |requests| - 1;
      var answer := server(n, requests[n]);
      if answer.Failed? && !Splits(requests[n], answer) then Some(answer.fault) else None
  }

  /** Outcome `o` is what the answers say, given the log `requests` that it started from. */
  ghost predicate Reads(server: Server, requests: seq<seq<Xuid>>, o: Outcome) {
    && requests <= o.requests
    && o.updated == UpdatedFrom(server, o.requests, |requests|)
    && o.waits == WaitsAfter(server, o.requests)
    && (requests < o.requests ==> o.fault == LastFault(server, o.requests))
  }

  lemma {:induction false} UpdatedJoins(server: Server, requests: seq<seq<Xuid>>, middle: nat, from: nat)
    requires from <= middle <= |requests|
    ensures UpdatedFrom(server, requests, from) ==
            UpdatedFrom(server, requests[..middle], from) + UpdatedFrom(server, requests, middle)
    decreases |requests|
  {
    var n := |requests| - 1;
    if middle == |requests| {
      assert requests[..middle] == requests;
      assert UpdatedFrom(server, requests, from) + [] == UpdatedFrom(server, requests, from);
    } else {
      UpdatedJoins(server, requests[..n], middle, from);
      assert requests[..n][..middle] == requests[..middle];
      Associative(UpdatedFrom(server, requests[..middle], from), UpdatedFrom(server, requests[..n], middle),
                  UpdatedBy(requests[n], server(n, requests[n])));
    }
  }

  /** Two stretches of requests in turn read as one. */
  lemma ReadsJoin(server: Server, requests: seq<seq<Xuid>>, first: Outcome, rest: Outcome)
    requires Reads(server, requests, first) && first.fault.None? && Reads(server, first.requests, rest)
    requires first.requests < rest.requests || rest.fault.None?
    requires requests < first.requests
    ensures Reads(server, requests, rest.(updated := first.updated + rest.updated))
  {
    assert rest.requests[..|first.requests|] == first.requests;
    UpdatedJoins(server, rest.requests, |first.requests|, |requests|);
    assert rest.requests == first.requests || first.requests < rest.requests;
  }

  lemma AnswerReads(server: Server, requests: seq<seq<Xuid>>, request: seq<Xuid>)
    ensures var asked, answer := requests + [request], server(|requests|, request);
            && UpdatedFrom(server, asked, |requests|) == UpdatedBy(request, answer)
            && WaitsAfter(server, asked) == HeldBy(WaitsAfter(server, requests), request, answer)
            && (LastFault(server, asked).Some? <==> answer.Failed? && !Splits(request, answer))
            && (answer.Failed? && !Splits(request, answer) ==> LastFault(server, asked) == Some(answer.fault))
  {
    assert (requests + [request])[..|requests|] == requests;
    assert [] + UpdatedBy(request, server(|requests|, request)) == UpdatedBy(request, server(|requests|, request));
  }

  lemma UnsplitReads(server: Server, requests: seq<seq<Xuid>>, xuids: seq<Xuid>)
    requires xuids != [] && !Splits(xuids, server(|requests|, xuids))
    ensures var o := AddFriends(server, requests, WaitsAfter(server, requests), xuids);
            Reads(server, requests, o) && requests < o.requests
  {
    AnswerReads(server, requests, xuids);
  }

  /** The left half, and the right half if the left one met no failure. */
  function BothHalves(left: Outcome, right: Outcome): Outcome {
    if left.fault.Some? then left else right.(updated := left.updated + right.updated)
  }

  lemma HalvesRead(server: Server, asked: seq<seq<Xuid>>, left: Outcome, right: Outcome)
    requires Reads(server, asked, left) && asked < left.requests
    requires left.fault.None? ==> Reads(server, left.requests, right) && left.requests < right.requests
    ensures Reads(server, asked, BothHalves(left, right)) && asked < BothHalves(left, right).requests
  {
    if left.fault.None? {
      ReadsJoin(server, asked, left, right);
    }
  }

  lemma SplitAdds(server: Server, requests: seq<seq<Xuid>>, waits: map<Xuid, Time>, xuids: seq<Xuid>)
    requires xuids != [] && Splits(xuids, server(|requests|, xuids))
    ensures var middle, asked := |xuids| / 2, requests + [xuids];
            var left := AddFriends(server, asked, waits, xuids[..middle]);
            AddFriends(server, requests, waits, xuids) ==
            BothHalves(left, AddFriends(server, left.requests, left.waits, xuids[middle..]))
  {}

  lemma {:induction false} AddingReads(server: Server, requests: seq<seq<Xuid>>, xuids: seq<Xuid>)
    requires xuids != []
    ensures var o := AddFriends(server, requests, WaitsAfter(server, requests), xuids);
            Reads(server, requests, o) && requests < o.requests
    decreases |xuids|
  {
    if !Splits(xuids, server(|requests|, xuids)) {
      UnsplitReads(server, requests, xuids);
    } else {
      var asked, waits, middle := requests + [xuids], WaitsAfter(server, requests), |xuids| / 2;
      AnswerReads(server, requests, xuids);
      AddingReads(server, asked, xuids[..middle]);
      var left := AddFriends(server, asked, waits, xuids[..middle]);
      AddingReads(server, left.requests, xuids[middle..]);
      var right := AddFriends(server, left.requests, left.waits, xuids[middle..]);
      HalvesRead(server, asked, left, right);
      SplitAdds(server, requests, waits, xuids);
      SplitReads(server, requests, xuids, BothHalves(left, right));
    }
  }

  /** The answer that splits a request adds nothing of its own. */
  lemma SplitReads(server: Server, requests: seq<seq<Xuid>>, xuids: seq<Xuid>, o: Outcome)
    requires Splits(xuids, server(|requests|, xuids)) && Reads(server, requests + [xuids], o)
    requires requests + [xuids] < o.requests
    ensures Reads(server, requests, o) && requests < o.requests
  {
    var asked := requests + [xuids];
    AnswerReads(server, requests, xuids);
    assert o.requests[..|asked|] == asked;
    UpdatedJoins(server, o.requests, |asked|, |requests|);
    assert [] + o.updated == o.updated;
  }

  lemma {:induction false} BatchesRead(server: Server, requests: seq<seq<Xuid>>, xuids: seq<Xuid>)
    ensures Reads(server, requests, AddBatches(server, requests, WaitsAfter(server, requests), xuids))
    ensures xuids != [] ==> requests < AddBatches(server, requests, WaitsAfter(server, requests), xuids).requests
    ensures xuids == [] ==> AddBatches(server, requests, WaitsAfter(server, requests), xuids).fault == None
    decreases |xuids|
  {
    if xuids != [] {
      var size := Min(BATCH_SIZE, |xuids|);
      AddingReads(server, requests, xuids[..size]);
      var first := AddFriends(server, requests, WaitsAfter(server, requests), xuids[..size]);
      if first.fault.None? {
        BatchesRead(server, first.requests, xuids[size..]);
        ReadsJoin(server, requests, first, AddBatches(server, first.requests, first.waits, xuids[size..]));
      }
    }
  }

  /** Whatever the service answers: the players accepted are the eligible ones among those that its answers updated, in
      order; the accept stops exactly at the first failure that is not split; a player waits exactly as the last answer that
      holds them says; and those reported as failed are, in order, the eligible players who wait if a failure stopped the
      accept, and otherwise the eligible players whom no answer updated. */
  lemma AcceptReadsAnswers(server: Server, players: seq<Xuid>, skip: set<Xuid>)
    ensures var a, xuids := AcceptPending(server, Listed(players), skip), Eligible(players, skip);
            var updated, waits, fault := UpdatedFrom(server, a.requests, 0), WaitsAfter(server, a.requests), LastFault(server, a.requests);
            var held, rest := Filter((x: Xuid) => x in waits, xuids), Filter((x: Xuid) => x !in updated, xuids);
            && a.accepted == Filter((x: Xuid) => x in xuids, updated)
            && a.error ==
               (match fault
                case Some(f) => if waits == map[] then Stopped(f) else RequestsFailed(held, waits, fault)
                case None => if rest == [] then NoError else RequestsFailed(rest, waits, None))
  {
    var xuids := Eligible(players, skip);
    BatchesRead(server, [], xuids);
    var o := AddBatches(server, [], map[], xuids);
    var accepted := Filter((x: Xuid) => x in xuids, o.updated);
    FilterMembers((x: Xuid) => x in xuids, o.updated);
    FilterAgrees((x: Xuid) => x !in accepted, (x: Xuid) => x !in o.updated, xuids);
  }

  /** Who is eligible, from the names alone: named players who are not guests and are not held. */
  lemma EligibleIff(players: seq<Xuid>, skip: set<Xuid>, x: Xuid)
    ensures x in Eligible(players, skip) <==> x in players && x != "" && !IsGuest(x) && x !in skip
  {
    FilterMembers((y: Xuid) => IsEligible(y, skip), players);
  }

  /** A guest's number has its top twelve bits equal to one: it is that of 64 bits and from 2^52 up to 2^53. */
  lemma GuestIff(xuid: Xuid)
    requires xuid != "" && forall c | c in xuid :: IsDigit(c)
    ensures IsGuest(xuid) <==> 4_503_599_627_370_496 <= DecimalValue(xuid) < 9_007_199_254_740_992
  {}

  /** The number written in digits. */
  function Decimal(n: nat): (s: string)
    ensures s != "" && forall c | c in s :: IsDigit(c)
  {
    var last := [('0' as int + n % 10) as char];
    if n < 10 then last else Decimal(n / 10) + last
  }

  /** A number in digits is read back, and is a guest's exactly from 2^52 up to 2^53. */
  lemma {:induction false} DecimalIsRead(n: nat)
    ensures DecimalValue(Decimal(n)) == n
    ensures IsGuest(Decimal(n)) <==> 4_503_599_627_370_496 <= n < 9_007_199_254_740_992
  {
    var s := Decimal(n);
    if n >= 10 {
      DecimalIsRead(n / 10);
      assert s[..|s| - 1] == Decimal(n / 10);
    }
    GuestIff(s);
  }

  // ----- batching refines asking one by one -----

  /** A service with some bulk limit that decides on each player alone and has no other errors.
      A request that it would refuse entirely it may answer with either of two answers. */
  ghost predicate Decides(server: Server, limit: nat, yes: Xuid -> bool) {
    forall n, xs :: Fair(server(n, xs), xs, limit, yes)
  }

  ghost predicate Fair(answer: BulkAnswer, xs: seq<Xuid>, limit: nat, yes: Xuid -> bool) {
    if |xs| > limit then answer.Failed? && answer.fault.Response? && answer.fault.bulkLimit
    else answer == Updated(Filter(yes, xs)) || (answer.Refused? && answer.wait == 0 && Filter(yes, xs) == [])
  }

  /** The reference: one request for each player, in order. */
  function OneByOne(server: Server, asked: nat, xuids: seq<Xuid>): (seq<Xuid>, seq<Xuid>)
    decreases |xuids|
  {
    if xuids == [] then ([], []) else
      var answer := server(asked, [xuids[0]]);
      var (accepted, failed) := OneByOne(server, asked + 1, xuids[1..]);
      if answer.Updated? && xuids[0] in answer.updated then ([xuids[0]] + accepted, failed)
      else (accepted, [xuids[0]] + failed)
  }

  /** The players that the requests within the limit asked for, in order. */
  function Served(limit: nat, requests: seq<seq<Xuid>>): seq<Xuid> {
    if requests == [] then []
    else Served(limit, requests[..|requests| - 1]) +
         if |requests[|requests| - 1]| <= limit then requests[|requests| - 1] else []
  }

  lemma ServedOneMore(limit: nat, requests: seq<seq<Xuid>>, q: seq<Xuid>)
    ensures Served(limit, requests + [q]) == Served(limit, requests) + if |q| <= limit then q else []
  {
    assert (requests + [q])[..|requests|] == requests;
  }

  /** What a run of requests for `xuids` achieves with a service that decides. */
  ghost predicate Achieves(o: Outcome, requests: seq<seq<Xuid>>, waits: map<Xuid, Time>, xuids: seq<Xuid>,
                           limit: nat, yes: Xuid -> bool) {
    && o.updated == Filter(yes, xuids) && o.fault == None && o.waits == waits
    && Served(limit, o.requests) == Served(limit, requests) + xuids
  }

  lemma {:induction false} HalvingServesAll(server: Server, requests: seq<seq<Xuid>>, waits: map<Xuid, Time>, xuids: seq<Xuid>,
                                            limit: nat, yes: Xuid -> bool)
    requires xuids != [] && limit >= 1 && Decides(server, limit, yes)
    ensures Achieves(AddFriends(server, requests, waits, xuids), requests, waits, xuids, limit, yes)
    ensures |requests| < |AddFriends(server, requests, waits, xuids).requests| <= |requests| + 2 * |xuids| - 1
    decreases |xuids|
  {
    var asked := requests + [xuids];
    assert Fair(server(|requests|, xuids), xuids, limit, yes);
    ServedOneMore(limit, requests, xuids);
    if |xuids| > limit {
      var middle := |xuids| / 2;
      HalvingServesAll(server, asked, waits, xuids[..middle], limit, yes);
      var left := AddFriends(server, asked, waits, xuids[..middle]);
      HalvingServesAll(server, left.requests, left.waits, xuids[middle..], limit, yes);
      HalvesJoin(xuids, middle, yes, Served(limit, requests));
      assert Served(limit, asked) == Served(limit, requests);
    }
  }

  lemma {:induction false} HalvesJoin(xuids: seq<Xuid>, middle: nat, yes: Xuid -> bool, before: seq<Xuid>)
    requires middle <= |xuids|
    ensures Filter(yes, xuids[..middle]) + Filter(yes, xuids[middle..]) == Filter(yes, xuids)
    ensures before + xuids[..middle] + xuids[middle..] == before + xuids
  {
    FilterConcat(yes, xuids[..middle], xuids[middle..]);
    Halves(xuids, middle);
    Associative(before, xuids[..middle], xuids[middle..]);
  }

  lemma Halves(xuids: seq<Xuid>, middle: nat)
    requires middle <= |xuids|
    ensures xuids[..middle] + xuids[middle..] == xuids
  {}

  lemma Associative(a: seq<Xuid>, b: seq<Xuid>, c: seq<Xuid>)
    ensures a + b + c == a + (b + c)
  {}

  lemma {:induction false} BatchesServeAll(server: Server, requests: seq<seq<Xuid>>, waits: map<Xuid, Time>, xuids: seq<Xuid>,
                                           limit: nat, yes: Xuid -> bool)
    requires limit >= 1 && Decides(server, limit, yes)
    ensures Achieves(AddBatches(server, requests, waits, xuids), requests, waits, xuids, limit, yes)
    ensures |AddBatches(server, requests, waits, xuids).requests| <= |requests| + 2 * |xuids|
    decreases |xuids|
  {
    if xuids != [] {
      var size := Min(BATCH_SIZE, |xuids|);
      HalvingServesAll(server, requests, waits, xuids[..size], limit, yes);
      var first := AddFriends(server, requests, waits, xuids[..size]);
      BatchesServeAll(server, first.requests, first.waits, xuids[size..], limit, yes);
      HalvesJoin(xuids, size, yes, Served(limit, requests));
    }
  }

  function Negation(yes: Xuid -> bool): Xuid -> bool { (x: Xuid) => !yes(x) }

  lemma {:induction false} OneByOneIsFilter(server: Server, asked: nat, xuids: seq<Xuid>, limit: nat, yes: Xuid -> bool)
    requires limit >= 1 && Decides(server, limit, yes)
    ensures OneByOne(server, asked, xuids) == (Filter(yes, xuids), Filter(Negation(yes), xuids))
    decreases |xuids|
  {
    if xuids != [] {
      var first, rest := [xuids[0]], xuids[1..];
      assert Fair(server(asked, first), first, limit, yes);
      OneByOneIsFilter(server, asked + 1, rest, limit, yes);
      assert xuids == first + rest;
      FilterConcat(yes, first, rest);
      FilterConcat(Negation(yes), first, rest);
      assert first[..0] == [] && xuids[0] in first;
      assert |first| <= limit;
      assert server(asked, first).Updated? && xuids[0] in server(asked, first).updated <==> yes(xuids[0]);
      assert Filter(yes, first) == if yes(xuids[0]) then first else [];
      assert Filter(Negation(yes), first) == if yes(xuids[0]) then [] else first;
      assert [] + Filter(yes, rest) == Filter(yes, rest) && [] + Filter(Negation(yes), rest) == Filter(Negation(yes), rest);
    }
  }

  lemma {:induction false} FilterAgrees<T>(p: T -> bool, q: T -> bool, s: seq<T>)
    requires forall x | x in s :: p(x) == q(x)
    ensures Filter(p, s) == Filter(q, s)
  {
    if s != [] {
      FilterAgrees(p, q, s[..|s| - 1]);
    }
  }

  lemma {:induction false} FilterAll<T>(p: T -> bool, s: seq<T>)
    requires forall x | x in s :: p(x)
    ensures Filter(p, s) == s
  {
    if s != [] {
      FilterAll(p, s[..|s| - 1]);
    }
  }

  /** Against a service that decides on each player, whatever its bulk limit: exactly the players that asking
      one by one would get accepted are accepted, exactly the rest are reported as failed, and
      the requests within the limit ask for every eligible player once, in order. */
  lemma BatchingRefinesOneByOne(server: Server, players: seq<Xuid>, skip: set<Xuid>, limit: nat, yes: Xuid -> bool)
    requires limit >= 1 && Decides(server, limit, yes)
    ensures var a := AcceptPending(server, Listed(players), skip);
            var (accepted, failed) := OneByOne(server, 0, Eligible(players, skip));
            && a.accepted == accepted
            && a.error == (if failed == [] then NoError else RequestsFailed(failed, map[], None))
            && Served(limit, a.requests) == Eligible(players, skip)
            && |a.requests| <= 2 * |Eligible(players, skip)|
  {
    var xuids := Eligible(players, skip);
    BatchesServeAll(server, [], map[], xuids, limit, yes);
    OneByOneIsFilter(server, 0, xuids, limit, yes);
    var updated := Filter(yes, xuids);
    FilterMembers(yes, xuids);
    FilterAll((x: Xuid) => x in xuids, updated);
    FilterAgrees((x: Xuid) => x !in updated, Negation(yes), xuids);
  }
}
