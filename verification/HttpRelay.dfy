/** The relay object: a map of pending offers changed in place under a lock. Each method
    is one locked region and takes exactly the step that `OfferRelay` specifies. */
module HttpRelay {
  import opened Common
  import opened OfferText
  import opened OfferRelay

  /** The candidates trickled after one offer; a timer that is not armed is `None`. */
  class PendingOffer {
    ghost const id: nat
    const key: OfferKey
    const sdp: string
    var candidates: seq<string>
    var quiet: Option<Time>
    var max: Option<Time>

    constructor (ghost id: nat, key: OfferKey, sdp: string, quiet: Time, max: Time)
      ensures this.id == id && this.key == key && this.sdp == sdp
      ensures this.candidates == [] && this.quiet == Some(quiet) && this.max == Some(max)
    {
      this.id := id;
      this.key := key;
      this.sdp := sdp;
      this.candidates := [];
      this.quiet := Some(quiet);
      this.max := Some(max);
    }

    method Cancel()
      modifies this
      ensures Idle() && candidates == old(candidates)
    {
      quiet := None;
      max := None;
    }

    ghost predicate Idle()
      reads this
    {
      quiet == None && max == None
    }

    ghost predicate Shows(p: Pending)
      reads this
    {
      p == Pending(id, sdp, candidates, p.quietDue, p.maxDue) && quiet == Some(p.quietDue) && max == Some(p.maxDue)
    }
  }

  // What the machine's steps do to each field.

  lemma OfferIs(cfg: Config, r: OfferRelay.Relay, now: Time, key: OfferKey, sdp: string)
    requires !r.closed
    ensures Step(cfg, r, At(now, Receive(key, Offer(sdp)))) ==
            r.(ticks := r.ticks + 1, pending := r.pending[key := Pending(r.ticks, sdp, [], now + cfg.quiet, now + cfg.max)])
  {}

  lemma CandidateIs(cfg: Config, r: OfferRelay.Relay, now: Time, key: OfferKey, data: string)
    requires !r.closed
    ensures Step(cfg, r, At(now, Receive(key, Candidate(data)))) ==
            if key !in r.pending then r.(ticks := r.ticks + 1)
            else var p := r.pending[key];
              r.(ticks := r.ticks + 1,
                 pending := r.pending[key := p.(candidates := p.candidates + [data], quietDue := now + cfg.quiet)])
  {}

  lemma FlushIs(cfg: Config, r: OfferRelay.Relay, now: Time, key: OfferKey, id: nat)
    ensures Step(cfg, r, At(now, TimerFires(key, id))) ==
            if r.closed || !OfferRelay.Waits(r, key, id) then r.(ticks := r.ticks + 1)
            else var p := r.pending[key];
              r.(ticks := r.ticks + 1, pending := r.pending - {key}, running := r.running[id := key],
                 started := r.started + [Started(id, key, CompleteOfferSDP(p.sdp, p.candidates))])
  {}

  lemma FinishIs(cfg: Config, r: OfferRelay.Relay, now: Time, id: nat, attempt: Attempt)
    requires id in r.running
    ensures var reply := ReplyTo(id, r.running[id], attempt);
            Step(cfg, r, At(now, Finish(id, attempt))) ==
            r.(ticks := r.ticks + 1, running := r.running - {id}, replies := r.replies + [reply],
               joins := r.joins + if IsDeliveredAnswer(reply) then 1 else 0)
  {}

  class Relay {
    const cfg: Config
    var pending: map<OfferKey, PendingOffer>
    var closed: bool
    var inFlight: nat                       // relays `close` still waits for
    var joins: nat
    ghost var ticks: nat
    ghost var made: set<PendingOffer>          // every offer object ever made
    ghost var numbered: map<nat, PendingOffer>
    ghost var waiting: map<OfferKey, Pending>  // what the pending objects hold
    ghost var started: seq<Started>
    ghost var running: map<nat, OfferKey>
    ghost var replies: seq<Reply>

    ghost predicate Valid()
      reads this, made
    {
      Keyed() && Numbered() && Bookkept() && forall o | o in made :: InOrder(o)
    }

    /** Every offer waits under its own key. */
    ghost predicate Keyed()
      reads `pending, `waiting, `made
    {
      pending.Keys == waiting.Keys && forall key | key in pending :: pending[key] in made && pending[key].key == key
    }

    ghost predicate Waits(o: PendingOffer)
      reads `pending
    {
      o.key in pending && pending[o.key] == o
    }

    /** An offer that waits has both timers armed and holds what `waiting` says; no timer runs for one that was replaced,
        dropped or taken out. */
    ghost predicate InOrder(o: PendingOffer)
      reads `pending, `waiting, o
    {
      if Waits(o) then o.key in waiting && o.Shows(waiting[o.key]) else o.Idle()
    }

    /** The same once the offer under `key`, if any, is cancelled. */
    ghost predicate Cleared(key: OfferKey)
      reads this, made
    {
      Keyed() && Numbered() && Bookkept() && forall o | o in made :: if o.key == key then o.Idle() else InOrder(o)
    }

    /** An offer object's identity and its number stand for each other. */
    ghost predicate Numbered()
      reads `made, `numbered, `ticks
    {
      forall o | o in made :: o.id < ticks && o.id in numbered && numbered[o.id] == o
    }

    ghost predicate Bookkept()
      reads `waiting, `running, `inFlight, `ticks
    {
      && (forall key | key in waiting :: waiting[key].id !in running)
      && (forall id | id in running :: id < ticks)
      && inFlight == |running|
    }

    ghost function View(): OfferRelay.Relay
      reads this
    {
      OfferRelay.Relay(ticks, waiting, closed, started, running, replies, joins)
    }

    constructor (cfg: Config)
      ensures this.cfg == cfg && Valid() && made == {} && View() == INITIAL
    {
      this.cfg := cfg;
      pending, closed, inFlight, joins := map[], false, 0, 0;
      ticks, made, numbered, waiting, started, running, replies := 0, {}, map[], map[], [], map[], [];
    }

    method NotifySignal(now: Time, key: OfferKey, signal: Signal) returns (accepted: bool)
      requires Valid()
      modifies `ticks, `pending, `waiting, `made, `numbered, made
      ensures Valid() && fresh(made - old(made))
      ensures View() == Step(cfg, old(View()), At(now, Receive(key, signal)))
      ensures accepted <==> Accepts(old(View()), key, signal)
    {
      if closed {
        ticks := ticks + 1;
        return false;
      }
      match signal {
        case Offer(sdp) =>
          var _ := ReceiveOffer(now, key, sdp);
          return true;
        case Candidate(data) =>
          accepted := ReceiveCandidate(now, key, data);
        case ConnectError(code) =>
          ReceiveError(now, key, code);
          return true;
        case OtherSignal =>
          ticks := ticks + 1;
          return false;
      }
    }

    method ReceiveOffer(now: Time, key: OfferKey, sdp: string) returns (o: PendingOffer)
      requires Valid() && !closed
      modifies `ticks, `pending, `waiting, `made, `numbered, made
      ensures Valid() && fresh(o) && made == old(made) + {o}
      ensures View() == Step(cfg, old(View()), At(now, Receive(key, Offer(sdp))))
    {
      ghost var r := View();
      OfferIs(cfg, r, now, key, sdp);
      if key in pending {
        CancelPrevious(key);
      }
      assert View() == r;
      o := new PendingOffer(ticks, key, sdp, now + cfg.quiet, now + cfg.max);
      ghost var p := Pending(ticks, sdp, [], now + cfg.quiet, now + cfg.max);
      assert View() == r;
      Enter(o, p);
      assert View() == r.(ticks := r.ticks + 1, pending := r.pending[key := p]);
    }

    method Enter(o: PendingOffer, ghost p: Pending)
      requires Cleared(o.key)
      requires o !in made && o.Shows(p) && o.id == ticks
      modifies `ticks, `pending, `waiting, `made, `numbered
      ensures Valid() && made == old(made) + {o}
      ensures ticks == old(ticks) + 1 && waiting == old(waiting)[o.key := p]
    {
      pending, waiting := pending[o.key := o], waiting[o.key := p];
      made, numbered, ticks := made + {o}, numbered[ticks := o], ticks + 1;
      assert Keyed();
      assert Numbered();
      assert Bookkept();
      forall other | other in made ensures InOrder(other) {
        assert other != o && other.key == o.key ==> !Waits(other);
      }
    }

    method CancelPrevious(key: OfferKey)
      requires Valid() && key in pending
      modifies pending[key]
      ensures Cleared(key)
    {
      pending[key].Cancel();
    }

    method ReceiveCandidate(now: Time, key: OfferKey, data: string) returns (accepted: bool)
      requires Valid() && !closed
      modifies `ticks, `waiting, made
      ensures Valid()
      ensures accepted <==> key in pending
      ensures View() == Step(cfg, old(View()), At(now, Receive(key, Candidate(data))))
    {
      CandidateIs(cfg, View(), now, key, data);
      if key !in pending {
        ticks := ticks + 1;
        return false;
      }
      ghost var r, p := View(), waiting[key];
      Append(pending[key], data, now + cfg.quiet);
      assert View() == r.(ticks := r.ticks + 1,
                          pending := r.pending[key := p.(candidates := p.candidates + [data], quietDue := now + cfg.quiet)]);
      return true;
    }

    method Append(o: PendingOffer, data: string, quiet: Time)
      requires Valid() && Waits(o)
      modifies `ticks, `waiting, o
      ensures Valid() && ticks == old(ticks) + 1
      ensures var p := old(waiting)[o.key];
              waiting == old(waiting)[o.key := p.(candidates := p.candidates + [data], quietDue := quiet)]
    {
      o.candidates, o.quiet := o.candidates + [data], Some(quiet);
      waiting := waiting[o.key := waiting[o.key].(candidates := o.candidates, quietDue := quiet)];
      ticks := ticks + 1;
      forall other | other in made ensures InOrder(other) {
        assert other != o && other.key == o.key ==> !Waits(other);
      }
    }

    method ReceiveError(now: Time, key: OfferKey, code: string)
      requires Valid() && !closed
      modifies `ticks, `pending, `waiting, made
      ensures Valid()
      ensures View() == Step(cfg, old(View()), At(now, Receive(key, ConnectError(code))))
    {
      Drop(key);
      ticks := ticks + 1;
    }

    /** Stops the offer under `key`, if one waits there. */
    method Drop(key: OfferKey)
      requires Valid()
      modifies `pending, `waiting, made
      ensures Valid() && pending == old(pending) - {key}
      ensures waiting == old(waiting) - {key}
    {
      if key in pending {
        TakeOut(pending[key]);
      }
    }

    /** An offer object still waits exactly when its number does. */
    lemma WaitsByNumber(o: PendingOffer)
      requires Valid() && o in made
      ensures Waits(o) <==> OfferRelay.Waits(View(), o.key, o.id)
      ensures Waits(o) ==> waiting[o.key].sdp == o.sdp && waiting[o.key].candidates == o.candidates
    {}

    /** Runs when a timer of `o` fires; returns the text to relay if this call is the one that relays. */
    method Flush(now: Time, o: PendingOffer) returns (text: Option<string>)
      requires Valid() && o in made
      modifies `ticks, `pending, `waiting, `inFlight, `started, `running, o
      ensures Valid()
      ensures View() == Step(cfg, old(View()), At(now, TimerFires(o.key, o.id)))
      ensures if text.Some? then started == old(started) + [Started(o.id, o.key, text.value)] else started == old(started)
    {
      WaitsByNumber(o);
      FlushIs(cfg, View(), now, o.key, o.id);
      if closed || o.key !in pending || pending[o.key] != o {
        ticks := ticks + 1;
        return None;
      }
      var sdp := BeginRelay(o);
      return Some(sdp);
    }

    /** Takes the offer out and counts the relay call that answers it. */
    method BeginRelay(o: PendingOffer) returns (sdp: string)
      requires Valid() && o in made && Waits(o)
      modifies `ticks, `pending, `waiting, `inFlight, `started, `running, o
      ensures Valid()
      ensures var r, p := old(View()), old(waiting[o.key]);
              && sdp == CompleteOfferSDP(p.sdp, p.candidates)
              && View() == r.(ticks := r.ticks + 1, pending := r.pending - {o.key}, running := r.running[o.id := o.key],
                              started := r.started + [Started(o.id, o.key, sdp)])
    {
      WaitsByNumber(o);
      sdp := Complete(o.sdp, o.candidates);
      TakeOut(o);
      StartRelay(o, sdp);
    }

    method StartRelay(o: PendingOffer, sdp: string)
      requires Valid() && o in made && o.id !in running
      requires forall key | key in waiting :: waiting[key].id != o.id
      modifies `ticks, `inFlight, `started, `running
      ensures Valid() && ticks == old(ticks) + 1
      ensures started == old(started) + [Started(o.id, o.key, sdp)] && running == old(running)[o.id := o.key]
    {
      inFlight := inFlight + 1;
      started, running, ticks := started + [Started(o.id, o.key, sdp)], running[o.id := o.key], ticks + 1;
    }

    method EndRelay(o: PendingOffer)
      requires Valid() && o.id in running
      modifies `ticks, `inFlight, `running
      ensures Valid() && ticks == old(ticks) + 1 && running == old(running) - {o.id}
    {
      running, inFlight, ticks := running - {o.id}, inFlight - 1, ticks + 1;
    }

    method TakeOut(o: PendingOffer)
      requires Valid() && Waits(o)
      modifies `pending, `waiting, o
      ensures Valid() && pending == old(pending) - {o.key}
      ensures waiting == old(waiting) - {o.key}
    {
      pending, waiting := pending - {o.key}, waiting - {o.key};
      o.Cancel();
    }

    /** The whole of one relay call after `Flush`: the target's two answers, one reply, the join count. */
    method RelayOffer(now: Time, o: PendingOffer, attempt: Attempt)
      requires Valid() && o.id in running && running[o.id] == o.key
      modifies `ticks, `inFlight, `running, `replies, `joins
      ensures Valid()
      ensures View() == Step(cfg, old(View()), At(now, Finish(o.id, attempt)))
    {
      ghost var r := View();
      FinishIs(cfg, r, now, o.id, attempt);
      Respond(o, attempt);
      EndRelay(o);
    }

    /** Exactly one signal to the client; only an answer that was delivered counts as a join. */
    method Respond(o: PendingOffer, attempt: Attempt)
      modifies `replies, `joins
      ensures replies == old(replies) + [ReplyTo(o.id, o.key, attempt)]
      ensures joins == old(joins) + if IsDeliveredAnswer(ReplyTo(o.id, o.key, attempt)) then 1 else 0
    {
      if !attempt.statusOk {
        Fail(o, SERVER_NOT_FOUND, attempt.delivered);
      } else if !attempt.signalOk || attempt.answer.None? {
        Fail(o, CONNECT_REQUEST, attempt.delivered);
      } else {
        var sent := SendReply(o, Answer(attempt.answer.value), attempt.delivered);
        if sent {
          joins := joins + 1;
        }
      }
    }

    /** Tells the client why its join failed. */
    method Fail(o: PendingOffer, code: int, delivered: bool)
      modifies `replies
      ensures replies == old(replies) + [Reply(o.id, o.key, ConnectFailure(code), delivered)]
    {
      var _ := SendReply(o, ConnectFailure(code), delivered);
    }

    method SendReply(o: PendingOffer, body: ReplyBody, delivered: bool) returns (sent: bool)
      modifies `replies
      ensures replies == old(replies) + [Reply(o.id, o.key, body, delivered)] && sent == delivered
    {
      replies := replies + [Reply(o.id, o.key, body, delivered)];
      return delivered;
    }

    /** The locked region of `close`. `close` then waits until `inFlight` is zero. */
    method Close(now: Time)
      requires Valid()
      modifies `ticks, `closed, `pending, `waiting, made
      ensures Valid()
      ensures View() == Step(cfg, old(View()), At(now, OfferRelay.Close))
      ensures inFlight == 0 <==> Drained(View())
    {
      CancelAll();
      ticks, closed := ticks + 1, true;
    }

    method CancelAll()
      requires Valid()
      modifies `pending, `waiting, made
      ensures Valid() && waiting == map[]
    {
      while pending != map[]
        invariant Valid()
        decreases |pending|
      {
        var key :| key in pending;
        Drop(key);
      }
    }
  }
}
