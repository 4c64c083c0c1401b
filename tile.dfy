/** One grid cell: a value in 0..max (0 is empty), a sticky blocked flag and a set of candidate values. */
module Tiles {
  import opened Signal

  /** The state of a tile as a value: its maximum, its value, whether it is blocked, its candidates. */
  datatype TileState = TileState(max: int, value: int, blocked: bool, possible: set<int>)

  /** The values 1..max a tile may hold. */
  function Domain(max: int): (d: set<int>)
    ensures forall v :: v in d <==> 1 <= v <= max
  {
    if max <= 0 then {} else Domain(max - 1) + {max}
  }

  /** The candidates ResetPossibles collects from 1..n: each i with value == 0 or value == i. */
  function ResetSet(value: int, n: int): (d: set<int>)
    ensures d == if value == 0 then Domain(n) else if 1 <= value <= n then {value} else {}
  {
    if n <= 0 then {} else ResetSet(value, n - 1) + (if value == 0 || value == n then {n} else {})
  }

  /** What every tile keeps: a value the setter accepted and candidates drawn from 1..max. */
  predicate WellFormed(t: TileState)
  {
    0 <= t.value <= t.max && t.possible <= Domain(t.max)
  }

  /** Holds once candidates were reset: a filled tile has exactly its own value as candidate. */
  predicate Coherent(t: TileState)
  {
    t.value != 0 ==> t.possible == {t.value}
  }

  /** PossibleCount: a blocked tile reports 1 whatever its candidates are. */
  function PossibleCountOf(t: TileState): int
  {
    if t.blocked then 1 else |t.possible|
  }

  lemma EmptyWhenNoMember(s: set<int>)
    requires forall e :: e !in s
    ensures s == {}
  {
    assert forall e :: e in s <==> e in {};
  }

  /** The one element of a singleton set (HashSet.First() on a set of one). */
  function TheOnly(s: set<int>): (e: int)
    requires |s| == 1
    ensures s == {e}
  {
    assert exists e :: e in s by {
      if forall e :: e !in s {
        EmptyWhenNoMember(s);
      }
    }
    var e :| e in s;
    assert |s - {e}| == 0;
    assert s - {e} == {};
    assert forall d :: d in s <==> d in {e};
    e
  }

  /** ResetPossibles: the values i in 1..max with !HasValue || Value == i. */
  function Reset(t: TileState): TileState
  {
    t.(possible := ResetSet(t.value, t.max))
  }

  /** Fix: store the value, then reset the candidates. */
  function Fixed(t: TileState, v: int): TileState
  {
    Reset(t.(value := v))
  }

  /** RemovePossibles: a blocked tile is left alone; otherwise the excluded values are dropped,
      a single remaining candidate is fixed (Progress), none remaining is Failed. */
  function Removed(t: TileState, excluded: set<int>): (TileState, SudokuProgress)
  {
    if t.blocked then (t, NoProgress)
    else
      var rest := t.possible - excluded;
      var after := t.(possible := rest);
      if |rest| == 1 then
        var fixed := Fixed(after, TheOnly(rest));
        (fixed, if |fixed.possible| == 0 then Failed else Progress)
      else if |rest| == 0 then (after, Failed)
      else (after, NoProgress)
  }

  /** Resetting gives 1..max to an empty tile and the single value to a filled one. */
  lemma ResetCandidates(t: TileState)
    requires WellFormed(t)
    ensures Reset(t).possible == if t.value == 0 then Domain(t.max) else {t.value}
    ensures WellFormed(Reset(t)) && Coherent(Reset(t))
    ensures Reset(t).value == t.value && Reset(t).blocked == t.blocked
  {
  }

  /** Fix(v) with 1 <= v <= max leaves the value v and the candidates {v}. */
  lemma FixedMeaning(t: TileState, v: int)
    requires 1 <= v <= t.max
    ensures Fixed(t, v).value == v && Fixed(t, v).possible == {v}
    ensures Fixed(t, v).blocked == t.blocked && Fixed(t, v).max == t.max
  {
  }

  /** The three outcomes of RemovePossibles on an unblocked tile, by the size of what remains. */
  lemma RemovedOutcome(t: TileState, excluded: set<int>)
    requires WellFormed(t) && !t.blocked
    ensures var (u, p) := Removed(t, excluded);
      var rest := t.possible - excluded;
      && (p == Failed <==> rest == {})
      && (p == Progress <==> |rest| == 1)
      && (p == Progress ==> u.value in rest && u.possible == {u.value} && u.value != 0)
      && (p != Progress ==> u == t.(possible := rest))
      && u.blocked == t.blocked && u.max == t.max
      && WellFormed(u)
  {
    var rest := t.possible - excluded;
    if |rest| == 1 {
      var e := TheOnly(rest);
      assert 1 <= e <= t.max;
      FixedMeaning(t.(possible := rest), e);
    }
  }

  /** A cell in the grid. `x`, `y` and the maximum are fixed at construction. */
  class Tile {
    const x: int
    const y: int
    const maximumValue: int
    var value: int
    var possibleValues: set<int>
    var isBlocked: bool

    function State(): (t: TileState)
      reads this
      ensures t.max == maximumValue
    {
      TileState(maximumValue, value, isBlocked, possibleValues)
    }

    ghost predicate Valid()
      reads this
    {
      WellFormed(State())
    }

    /** A new tile at (x, y): empty, not blocked, no candidates. */
    constructor (x: int, y: int, maximumValue: int)
      requires maximumValue >= 0
      ensures this.x == x && this.y == y && this.maximumValue == maximumValue
      ensures State() == TileState(maximumValue, 0, false, {})
      ensures Valid()
    {
      this.x := x;
      this.y := y;
      this.maximumValue := maximumValue;
      value := 0;
      possibleValues := {};
      isBlocked := false;
    }

    /** The Value setter; `ok` is false where the source throws ArgumentOutOfRangeException. */
    method SetValue(v: int) returns (ok: bool)
      modifies this
      ensures ok <==> 0 <= v <= maximumValue
      ensures State() == if ok then old(State()).(value := v) else old(State())
      ensures old(Valid()) ==> Valid()
    {
      if v > maximumValue {
        return false;
      }
      if v < 0 {
        return false;
      }
      value := v;
      ok := true;
    }

    /** HasValue: a well-formed tile has a value exactly when it holds one of 1..maximumValue. */
    function HasValue(): (b: bool)
      reads this
      ensures Valid() ==> (b <==> 1 <= value <= maximumValue)
      ensures !b ==> ResetSet(value, maximumValue) == Domain(maximumValue)
    {
      value != 0
    }

    /** PossibleCount: how many candidates the search sees on this tile. */
    function PossibleCount(): int
      reads this
    {
      PossibleCountOf(State())
    }

    /** A blocked tile counts one; otherwise the count is the number of candidates, zero exactly when
        none is left and one on a coherent tile that holds a value. */
    lemma PossibleCountMeaning()
      ensures PossibleCount() >= 0
      ensures isBlocked ==> PossibleCount() == 1
      ensures !isBlocked ==> (PossibleCount() == 0 <==> possibleValues == {})
      ensures Coherent(State()) && value != 0 ==> PossibleCount() == 1
    {
    }

    /** IsValuePossible: only values of 1..maximumValue can be candidates; a coherent tile with a value admits only that value. */
    function IsValuePossible(i: int): (b: bool)
      reads this
      ensures Valid() && b ==> 1 <= i <= maximumValue
      ensures Coherent(State()) && value != 0 ==> (b <==> i == value)
    {
      i in possibleValues
    }

    /** Marks the tile blocked; nothing clears the flag again. */
    method Block()
      modifies this
      ensures State() == old(State()).(blocked := true)
    {
      isBlocked := true;
    }

    method ResetPossibles()
      requires Valid()
      modifies this
      ensures State() == Reset(old(State()))
      ensures Valid() && Coherent(State())
    {
      possibleValues := {};
      var i := 1;
      while i <= maximumValue
        invariant 1 <= i <= maximumValue + 1
        invariant possibleValues == ResetSet(value, i - 1)
        invariant value == old(value) && isBlocked == old(isBlocked)
      {
        if !HasValue() || value == i {
          possibleValues := possibleValues + {i};
        }
        i := i + 1;
      }
      ResetCandidates(old(State()));
    }

    /** Fix: the source's trace line is not modelled. */
    method Fix(v: int)
      requires Valid() && 0 <= v <= maximumValue
      modifies this
      ensures State() == Fixed(old(State()), v)
      ensures Valid() && Coherent(State())
    {
      var ok := SetValue(v);
      ResetPossibles();
    }

    method RemovePossibles(existingNumbers: set<int>) returns (p: SudokuProgress)
      requires Valid()
      modifies this
      ensures (State(), p) == Removed(old(State()), existingNumbers)
      ensures Valid()
    {
      if isBlocked {
        return NoProgress;
      }
      possibleValues := possibleValues - existingNumbers;
      p := NoProgress;
      if |possibleValues| == 1 {
        var only := TheOnly(possibleValues);
        Fix(only);
        p := Progress;
      }
      if |possibleValues| == 0 {
        return Failed;
      }
    }
  }
}
