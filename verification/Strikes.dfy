/** A count of consecutive strikes that fires at the third. The session loop counts failed updates
    this way, and the activity check counts missing handles. */
module Strikes {

  /** `Strike(false)` counts but cannot fire, because what it was about has been replaced meanwhile. */
  datatype Mark = Skip | Reset | Strike(current: bool)

  const LIMIT := 3

  datatype Counted = Counted(strikes: nat, fires: bool)

  function Count(before: nat, m: Mark): Counted {
    match m
    case Skip => Counted(before, false)
    case Reset => Counted(0, false)
    case Strike(current) =>
      if before + 1 >= LIMIT && current then Counted(0, true) else Counted(before + 1, false)
  }

  function StrikeCount(marks: seq<Mark>): nat {
    if marks == [] then 0 else Count(StrikeCount(marks[..|marks| - 1]), marks[|marks| - 1]).strikes
  }

  predicate FiresAt(marks: seq<Mark>, n: nat) {
    n < |marks| && Count(StrikeCount(marks[..n]), marks[n]).fires
  }

  /** Nothing from `i` up to `n` starts the count again. */
  ghost predicate Unbroken(marks: seq<Mark>, i: nat, n: nat) {
    n <= |marks| && forall k: nat | i <= k < n :: marks[k] != Reset && !FiresAt(marks, k)
  }

  /** A strike that still counts after the first `n` marks. */
  ghost predicate Counts(marks: seq<Mark>, i: nat, n: nat) {
    i < n <= |marks| && marks[i].Strike? && Unbroken(marks, i, n)
  }

  lemma CountsOneMore(marks: seq<Mark>, i: nat, n: nat)
    requires n < |marks|
    ensures Counts(marks, i, n + 1) <==>
              marks[n] != Reset && !FiresAt(marks, n) && (Counts(marks, i, n) || (i == n && marks[n].Strike?))
  {}

  /** The count tells how many strikes still count, as far as it matters for firing. */
  ghost predicate Tells(marks: seq<Mark>, n: nat)
    requires n <= |marks|
  {
    && (StrikeCount(marks[..n]) >= 1 <==> exists i :: Counts(marks, i, n))
    && (StrikeCount(marks[..n]) >= 2 <==> exists i, j :: i < j && Counts(marks, i, n) && Counts(marks, j, n))
  }

  lemma CountOneMore(marks: seq<Mark>, m: nat, n: nat)
    requires n == m + 1 <= |marks|
    ensures StrikeCount(marks[..n]) == Count(StrikeCount(marks[..m]), marks[m]).strikes
  {
    assert marks[..n][..m] == marks[..m];
  }

  lemma TellsAfterReset(marks: seq<Mark>, m: nat, n: nat)
    requires n == m + 1 <= |marks| && (marks[m] == Reset || FiresAt(marks, m))
    ensures Tells(marks, n)
  {
    CountOneMore(marks, m, n);
    assert forall i: nat :: !Counts(marks, i, n);
  }

  lemma TellsAfterSkip(marks: seq<Mark>, m: nat, n: nat)
    requires n == m + 1 <= |marks| && marks[m] == Skip && Tells(marks, m)
    ensures Tells(marks, n)
  {
    CountOneMore(marks, m, n);
    forall i: nat ensures Counts(marks, i, n) <==> Counts(marks, i, m) {
      CountsOneMore(marks, i, m);
    }
  }

  lemma TellsAfterStrike(marks: seq<Mark>, m: nat, n: nat)
    requires n == m + 1 <= |marks| && marks[m].Strike? && !FiresAt(marks, m) && Tells(marks, m)
    ensures Tells(marks, n)
  {
    CountOneMore(marks, m, n);
    forall i: nat ensures Counts(marks, i, n) <==> Counts(marks, i, m) || i == m {
      CountsOneMore(marks, i, m);
    }
    assert Counts(marks, m, n);
    if i: nat :| Counts(marks, i, m) {
      assert Counts(marks, i, n) && i < m;
    }
  }

  lemma {:induction false} StrikesAre(marks: seq<Mark>, n: nat)
    requires n <= |marks|
    ensures Tells(marks, n)
  {
    if n == 0 {
      assert forall i :: !Counts(marks, i, n);
    } else {
      var m := n - 1;
      StrikesAre(marks, m);
      if marks[m] == Reset || FiresAt(marks, m) {
        TellsAfterReset(marks, m, n);
      } else if marks[m] == Skip {
        TellsAfterSkip(marks, m, n);
      } else {
        TellsAfterStrike(marks, m, n);
      }
    }
  }

  /** The count fires at `n` exactly when `n` is a current strike and two earlier strikes still count. */
  lemma FiresIff(marks: seq<Mark>, n: nat)
    requires n < |marks|
    ensures FiresAt(marks, n) <==>
              marks[n] == Strike(true) && exists i, j :: i < j && Counts(marks, i, n) && Counts(marks, j, n)
  {
    StrikesAre(marks, n);
  }
}
