/** The three-valued outcome of a propagation step and the rule that merges two outcomes. */
module Signal {

  /** Failed: a contradiction was found; NoProgress: nothing was fixed; Progress: some tile was fixed. */
  datatype SudokuProgress = Failed | NoProgress | Progress

  /** The order NoProgress < Progress < Failed under which Combine is the maximum. */
  function Rank(p: SudokuProgress): (n: nat)
    ensures n <= 2
  {
    match p
    case NoProgress => 0
    case Progress => 1
    case Failed => 2
  }

  /** CombineSolvedState: Failed absorbs, NoProgress is the identity, Progress yields only to Failed.
      With three constructors the source's fall-through branch has no input left to take it. */
  function Combine(a: SudokuProgress, b: SudokuProgress): (r: SudokuProgress)
    ensures Rank(r) == if Rank(a) >= Rank(b) then Rank(a) else Rank(b)
    ensures r == a || r == b
  {
    if a == Failed then a
    else if a == NoProgress then b
    else if b == Failed then b
    else a
  }

  lemma FailedAbsorbs(a: SudokuProgress, b: SudokuProgress)
    ensures Combine(Failed, b) == Failed && Combine(a, Failed) == Failed
  {
  }

  lemma NoProgressIsIdentity(a: SudokuProgress)
    ensures Combine(NoProgress, a) == a && Combine(a, NoProgress) == a
  {
  }

  lemma CombineCommutesAndAssociates(a: SudokuProgress, b: SudokuProgress, c: SudokuProgress)
    ensures Combine(a, b) == Combine(b, a)
    ensures Combine(Combine(a, b), c) == Combine(a, Combine(b, c))
  {
  }

  /** Aggregate(NoProgress, Combine) over a sequence of outcomes, as a left fold. */
  function Fold(ps: seq<SudokuProgress>): (r: SudokuProgress)
    ensures r == NoProgress || r in ps
  {
    if ps == [] then NoProgress else Combine(Fold(ps[..|ps| - 1]), ps[|ps| - 1])
  }

  /** A fold is Failed iff some element is Failed; otherwise Progress iff some element is Progress. */
  lemma {:induction false} FoldOutcome(ps: seq<SudokuProgress>)
    ensures Fold(ps) == Failed <==> Failed in ps
    ensures Fold(ps) == Progress <==> Failed !in ps && Progress in ps
    ensures Fold(ps) == NoProgress <==> forall i :: 0 <= i < |ps| ==> ps[i] == NoProgress
  {
    if ps != [] {
      var front := ps[..|ps| - 1];
      FoldOutcome(front);
      assert ps == front + [ps[|ps| - 1]];
      assert forall p :: p in ps <==> p in front || p == ps[|ps| - 1];
    }
  }

  lemma FoldAppend(ps: seq<SudokuProgress>, p: SudokuProgress)
    ensures Fold(ps + [p]) == Combine(Fold(ps), p)
  {
    assert (ps + [p])[..|ps|] == ps;
  }
}
