/** The race in `dialSignaling`: a worker dials apart from its caller and hands the result over an
    unbuffered channel, unless the timeout or a cancellation ends the context first. */
module DialHandoff {
  import opened Common

  /** `Offering` is the worker's select, with what the dial returned (nothing when it failed). */
  datatype Worker = Dialing | Offering(sig: Option<nat>) | WorkerDone

  datatype Caller = Waiting | Received(sig: Option<nat>) | Returned(sig: Option<nat>)

  datatype State = State(
    worker: Worker,
    caller: Caller,
    done: bool,              // the context has ended
    dialed: Option<nat>,     // the connection that the dial made
    closes: seq<nat>)        // every close of a connection

  const INITIAL := State(Dialing, Waiting, false, None, [])

  datatype Choice =
    | DialEnds(result: Option<nat>)
    | ContextEnds            // the timeout, or the caller's own context
    | HandOver               // the worker's send meets the caller's receive
    | WorkerGivesUp
    | CallerGivesUp
    | CallerFinishes

  predicate Enabled(s: State, c: Choice) {
    match c
    case DialEnds(_) => s.worker.Dialing?
    case ContextEnds => !s.done
    case HandOver => s.worker.Offering? && s.caller.Waiting?
    case WorkerGivesUp => s.worker.Offering? && s.done
    case CallerGivesUp => s.caller.Waiting? && s.done
    case CallerFinishes => s.caller.Received?
  }

  /** `closeSignaling`, which skips a connection that was never made. */
  function Closing(s: State, sig: Option<nat>): State {
    if sig.Some? then s.(closes := s.closes + [sig.value]) else s
  }

  /** A caller that returns cancels the context on its way out. */
  function Step(s: State, c: Choice): State {
    if !Enabled(s, c) then s else
      match c
      case DialEnds(result) => s.(worker := Offering(result), dialed := result)
      case ContextEnds => s.(done := true)
      case HandOver => s.(worker := WorkerDone, caller := Received(s.worker.sig))
      case WorkerGivesUp => Closing(s.(worker := WorkerDone), s.worker.sig)
      case CallerGivesUp => s.(caller := Returned(None))
      case CallerFinishes =>
        if s.done then Closing(s.(caller := Returned(None)), s.caller.sig)
        else s.(caller := Returned(s.caller.sig), done := true)
  }

  function Run(from: State, choices: seq<Choice>): State {
    if choices == [] then from else Step(Run(from, choices[..|choices| - 1]), choices[|choices| - 1])
  }

  predicate Finished(s: State) { s.worker.WorkerDone? && s.caller.Returned? }

  /** Whose hands the dialled connection is in. */
  predicate InWorker(s: State) { s.dialed.Some? && s.worker == Offering(s.dialed) }

  predicate InCaller(s: State) { s.dialed.Some? && s.caller == Received(s.dialed) }

  predicate IsReturned(s: State) { s.dialed.Some? && s.caller == Returned(s.dialed) }

  predicate IsClosed(s: State) { s.dialed.Some? && s.closes == [s.dialed.value] }

  function Count(b: bool): nat { if b then 1 else 0 }

  /** The connection is in exactly one place, and nothing else was ever closed or returned. */
  ghost predicate Accounted(s: State) {
    && (s.dialed.Some? ==> Count(InWorker(s)) + Count(InCaller(s)) + Count(IsReturned(s)) + Count(IsClosed(s)) == 1)
    && (!IsClosed(s) ==> s.closes == [])
    && (s.worker.Dialing? ==> s.dialed == None)
    && (s.worker.Offering? ==> s.worker.sig == s.dialed)
    && (!s.caller.Waiting? ==> s.caller.sig in {None, s.dialed})
    && (s.caller.Received? ==> s.caller.sig == s.dialed && s.worker.WorkerDone?)
    && (s.caller.Returned? ==> s.done)
    && (s.worker.WorkerDone? && s.caller.Waiting? ==> s.done)
  }

  lemma {:induction false} EveryRunAccounts(choices: seq<Choice>)
    ensures Accounted(Run(INITIAL, choices))
  {
    if choices != [] {
      EveryRunAccounts(choices[..|choices| - 1]);
    }
  }

  /** When both sides have finished, a connection that was dialled was either returned and never closed,
      or closed exactly once and not returned. */
  lemma ReturnedOrClosedOnce(choices: seq<Choice>)
    requires Finished(Run(INITIAL, choices))
    ensures var s := Run(INITIAL, choices);
            match s.dialed
            case Some(sig) =>
              (s.caller == Returned(Some(sig)) && s.closes == []) || (s.caller == Returned(None) && s.closes == [sig])
            case None => s.caller == Returned(None) && s.closes == []
  {
    EveryRunAccounts(choices);
  }

  lemma {:induction false} UntimedRun(choices: seq<Choice>)
    requires ContextEnds !in choices
    ensures var s := Run(INITIAL, choices);
            && s.closes == [] && (s.done ==> s.caller == Returned(s.dialed) && s.worker.WorkerDone?)
            && (s.caller.Received? ==> s.caller.sig == s.dialed && s.worker.WorkerDone?)
            && (s.caller.Returned? ==> s.done) && (s.worker.Offering? ==> s.worker.sig == s.dialed && s.caller.Waiting?)
            && (s.worker.Dialing? ==> s.caller.Waiting?)
  {
    if choices != [] {
      var front := choices[..|choices| - 1];
      assert forall c | c in front :: c in choices;
      assert choices[|choices| - 1] in choices;
      UntimedRun(front);
    }
  }

  /** If neither the timeout nor the caller's own context ends the race, what was dialled is returned, and nothing is closed. */
  lemma UntimedDialIsReturned(choices: seq<Choice>)
    requires ContextEnds !in choices && Finished(Run(INITIAL, choices))
    ensures var s := Run(INITIAL, choices); s.caller == Returned(s.dialed) && s.closes == []
  {
    UntimedRun(choices);
  }

  /** Once the context has ended the caller can go on without the worker, and once the dial
      has ended no side is ever stuck. */
  lemma NoSideIsStuck(choices: seq<Choice>)
    ensures var s := Run(INITIAL, choices);
            && (s.done && !s.caller.Returned? ==> Enabled(s, CallerGivesUp) || Enabled(s, CallerFinishes))
            && (!s.worker.Dialing? && !Finished(s) ==>
                  Enabled(s, HandOver) || Enabled(s, WorkerGivesUp) || Enabled(s, CallerGivesUp) || Enabled(s, CallerFinishes))
  {
    EveryRunAccounts(choices);
  }

  function Rank(s: State): nat {
    (match s.worker case Dialing => 2 case Offering(_) => 1 case WorkerDone => 0) +
    (match s.caller case Waiting => 2 case Received(_) => 1 case Returned(_) => 0) +
    (if s.done then 0 else 1)
  }

  /** Every choice taken uses up some of the run. */
  lemma EveryChoiceIsProgress(s: State, c: Choice)
    requires Enabled(s, c)
    ensures Rank(Step(s, c)) < Rank(s)
  {}

  /** Every choice could be taken when it was. */
  ghost predicate AllTaken(choices: seq<Choice>) {
    forall k: nat | k < |choices| :: Enabled(Run(INITIAL, choices[..k]), choices[k])
  }

  lemma {:induction false} RunUsesRank(choices: seq<Choice>)
    requires AllTaken(choices)
    ensures |choices| + Rank(Run(INITIAL, choices)) <= Rank(INITIAL)
  {
    if choices != [] {
      var front := choices[..|choices| - 1];
      assert AllTaken(front) by {
        forall k: nat | k < |front| ensures Enabled(Run(INITIAL, front[..k]), front[k]) {
          assert front[..k] == choices[..k];
        }
      }
      RunUsesRank(front);
      EveryChoiceIsProgress(Run(INITIAL, front), choices[|choices| - 1]);
    }
  }

  /** A race takes at most five choices, and when no choice is left both sides have finished. */
  lemma {:induction false} RacesAreShort(choices: seq<Choice>)
    requires AllTaken(choices)
    ensures |choices| <= 5
    ensures (forall c :: !Enabled(Run(INITIAL, choices), c)) ==> Finished(Run(INITIAL, choices))
  {
    RunUsesRank(choices);
    var s := Run(INITIAL, choices);
    if forall c :: !Enabled(s, c) {
      assert !Enabled(s, DialEnds(None));
      assert !Enabled(s, WorkerGivesUp) && !Enabled(s, CallerGivesUp) && !Enabled(s, HandOver) && !Enabled(s, CallerFinishes);
      NoSideIsStuck(choices);
    }
  }
}
