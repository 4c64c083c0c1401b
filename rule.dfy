/** A rule: a set of tiles that may not repeat a value, with its two propagation steps. */
module Rules {
  import opened Signal
  import opened Tiles
  import opened Seqs

  // ---------------------------------------------------------------------------
  // The rule's logic on the states of its members, in member order.
  // ---------------------------------------------------------------------------

  predicate AllWellFormed(ms: seq<TileState>)
  {
    forall i :: 0 <= i < |ms| ==> WellFormed(ms[i])
  }

  predicate AllCoherent(ms: seq<TileState>)
  {
    forall i :: 0 <= i < |ms| ==> Coherent(ms[i])
  }

  /** The values of the filled members (the source's existingNumbers). */
  function Present(ms: seq<TileState>): set<int>
  {
    set i | 0 <= i < |ms| && ms[i].value != 0 :: ms[i].value
  }

  /** What CheckValid promises: no two filled members share a value. */
  predicate NoRepeatedValue(ms: seq<TileState>)
  {
    forall i, j :: 0 <= i < j < |ms| && ms[i].value != 0 ==> ms[i].value != ms[j].value
  }

  /** The size of the group of members holding `v`. */
  function CountOf(ms: seq<TileState>, v: int): nat
  {
    if ms == [] then 0
    else CountOf(ms[..|ms| - 1], v) + (if ms[|ms| - 1].value == v then 1 else 0)
  }

  /** CheckValid as the source computes it: grouping the filled members by value, every group has one member. */
  predicate GroupsAreSingletons(ms: seq<TileState>)
  {
    forall i :: 0 <= i < |ms| && ms[i].value != 0 ==> CountOf(ms, ms[i].value) == 1
  }

  lemma {:induction false} CountOfHolds(ms: seq<TileState>, i: int)
    requires 0 <= i < |ms|
    ensures CountOf(ms, ms[i].value) >= 1
  {
    var front := ms[..|ms| - 1];
    if i < |ms| - 1 {
      assert front[i] == ms[i];
      CountOfHolds(front, i);
    }
  }

  lemma {:induction false} CountOfPair(ms: seq<TileState>, i: int, j: int)
    requires 0 <= i < j < |ms| && ms[i].value == ms[j].value
    ensures CountOf(ms, ms[i].value) >= 2
  {
    var front := ms[..|ms| - 1];
    assert front[i] == ms[i];
    if j < |ms| - 1 {
      assert front[j] == ms[j];
      CountOfPair(front, i, j);
    } else {
      CountOfHolds(front, i);
    }
  }

  lemma {:induction false} CountOfUnique(ms: seq<TileState>, i: int)
    requires 0 <= i < |ms| && NoRepeatedValue(ms) && ms[i].value != 0
    ensures CountOf(ms, ms[i].value) == 1
  {
    var front := ms[..|ms| - 1];
    var last := ms[|ms| - 1];
    assert NoRepeatedValue(front) by {
      forall a, b | 0 <= a < b < |front| && front[a].value != 0
        ensures front[a].value != front[b].value
      {
        assert front[a] == ms[a] && front[b] == ms[b];
      }
    }
    if i < |ms| - 1 {
      assert front[i] == ms[i];
      CountOfUnique(front, i);
    } else {
      CountOfAbsent(front, last.value);
    }
  }

  lemma {:induction false} CountOfAbsent(ms: seq<TileState>, v: int)
    requires forall k :: 0 <= k < |ms| ==> ms[k].value != v
    ensures CountOf(ms, v) == 0
  {
    if ms != [] {
      var front := ms[..|ms| - 1];
      assert forall k :: 0 <= k < |front| ==> front[k] == ms[k];
      CountOfAbsent(front, v);
    }
  }

  /** The grouping CheckValid performs says exactly that no value repeats. */
  lemma GroupsAreSingletonsIff(ms: seq<TileState>)
    ensures GroupsAreSingletons(ms) <==> NoRepeatedValue(ms)
  {
    if NoRepeatedValue(ms) {
      forall i | 0 <= i < |ms| && ms[i].value != 0 ensures CountOf(ms, ms[i].value) == 1 {
        CountOfUnique(ms, i);
      }
    }
    forall i, j | 0 <= i < j < |ms| && ms[i].value != 0 && ms[i].value == ms[j].value
      ensures !GroupsAreSingletons(ms)
    {
      CountOfPair(ms, i, j);
    }
  }

  /** Nothing is left for propagation to force on this tile: it is filled, blocked,
      or keeps at least two candidates. */
  predicate Settled(t: TileState)
  {
    t.value != 0 || t.blocked || |t.possible| >= 2
  }

  /** `after` keeps what `before` fixed: the same maximum and blocked flag, and every value set stays. */
  predicate Extends(before: TileState, after: TileState)
  {
    after.max == before.max && after.blocked == before.blocked &&
    (before.value != 0 ==> after.value == before.value)
  }

  /** What the elimination step makes of one member (filled members are skipped). */
  function Eliminated(t: TileState, excluded: set<int>): TileState
  {
    if t.value != 0 then t else Removed(t, excluded).0
  }

  /** The outcome one member contributes to the elimination step. */
  function StepOutcome(t: TileState, excluded: set<int>): SudokuProgress
  {
    if t.value != 0 then NoProgress else Removed(t, excluded).1
  }

  function StepOutcomes(ms: seq<TileState>, excluded: set<int>): (ps: seq<SudokuProgress>)
    ensures |ps| == |ms| && forall i :: 0 <= i < |ms| ==> ps[i] == StepOutcome(ms[i], excluded)
  {
    seq(|ms|, i requires 0 <= i < |ms| => StepOutcome(ms[i], excluded))
  }

  /** The elimination step: every empty member drops the excluded values, in member order,
      and the outcomes are folded with Combine. */
  function Eliminate(ms: seq<TileState>, excluded: set<int>): (r: (seq<TileState>, SudokuProgress))
    ensures |r.0| == |ms|
  {
    EliminatePrefix(ms, excluded, |ms|)
  }

  /** The elimination step over the first n members. */
  function EliminatePrefix(ms: seq<TileState>, excluded: set<int>, n: nat): (r: (seq<TileState>, SudokuProgress))
    requires n <= |ms|
    ensures |r.0| == n
  {
    if n == 0 then ([], NoProgress)
    else
      var (front, acc) := EliminatePrefix(ms, excluded, n - 1);
      var last := ms[n - 1];
      if last.value != 0 then (front + [last], acc)
      else
        var (t, p) := Removed(last, excluded);
        (front + [t], Combine(acc, p))
  }

  /** Elimination member by member: filled members stay, empty ones go through RemovePossibles,
      and the outcome is the fold of the members' outcomes. */
  lemma {:induction false} EliminatePointwise(ms: seq<TileState>, excluded: set<int>, n: nat)
    requires n <= |ms|
    ensures forall i :: 0 <= i < n ==>
      EliminatePrefix(ms, excluded, n).0[i] == Eliminated(ms[i], excluded)
    ensures EliminatePrefix(ms, excluded, n).1 == Fold(StepOutcomes(ms[..n], excluded))
  {
    if n > 0 {
      EliminatePointwise(ms, excluded, n - 1);
      var front := EliminatePrefix(ms, excluded, n - 1);
      NoProgressIsIdentity(front.1);
      var r := EliminatePrefix(ms, excluded, n);
      assert r == (front.0 + [Eliminated(ms[n - 1], excluded)], Combine(front.1, StepOutcome(ms[n - 1], excluded)));
      forall i | 0 <= i < n ensures r.0[i] == Eliminated(ms[i], excluded) {
        if i < n - 1 {
          assert r.0[i] == front.0[i];
        }
      }
      var os := StepOutcomes(ms[..n], excluded);
      assert os[..n - 1] == StepOutcomes(ms[..n - 1], excluded);
      assert os[n - 1] == StepOutcome(ms[n - 1], excluded);
      assert Fold(os) == Combine(Fold(os[..n - 1]), os[n - 1]);
    }
  }

  /** What the elimination step does to one member. */
  lemma EliminatedFacts(t: TileState, excluded: set<int>)
    requires WellFormed(t)
    ensures var e := Eliminated(t, excluded);
      && WellFormed(e) && (Coherent(t) ==> Coherent(e))
      && Extends(t, e) && e.possible <= t.possible
      && (StepOutcome(t, excluded) == Progress ==> t.value == 0 && e.value != 0)
      && (StepOutcome(t, excluded) == NoProgress ==> e.value == t.value && Settled(e))
  {
    if t.value == 0 && !t.blocked {
      RemovedOutcome(t, excluded);
    }
  }

  /** What elimination guarantees: values only get filled, candidates only shrink, Progress fills a member,
      NoProgress changes no value and leaves every member settled. */
  lemma EliminateFacts(ms: seq<TileState>, excluded: set<int>)
    requires AllWellFormed(ms)
    ensures var (r, p) := Eliminate(ms, excluded);
      && AllWellFormed(r)
      && (AllCoherent(ms) ==> AllCoherent(r))
      && (forall i :: 0 <= i < |ms| ==> Extends(ms[i], r[i]) && r[i].possible <= ms[i].possible)
      && (p == Progress ==> exists i :: 0 <= i < |ms| && ms[i].value == 0 && r[i].value != 0)
      && (p == NoProgress ==> forall i :: 0 <= i < |ms| ==> r[i].value == ms[i].value && Settled(r[i]))
  {
    var (r, p) := Eliminate(ms, excluded);
    EliminatePointwise(ms, excluded, |ms|);
    assert ms[..|ms|] == ms;
    var os := StepOutcomes(ms, excluded);
    FoldOutcome(os);
    forall i | 0 <= i < |ms| {
      EliminatedFacts(ms[i], excluded);
    }
    if p == Progress {
      var i :| 0 <= i < |os| && os[i] == Progress;
      assert ms[i].value == 0 && r[i].value != 0;
    }
  }

  /** Indices, in member order, of the empty members that still have `v` as a candidate. */
  function Holders(ms: seq<TileState>, v: int): (h: seq<int>)
    ensures forall k :: 0 <= k < |h| ==> 0 <= h[k] < |ms| && ms[h[k]].value == 0 && v in ms[h[k]].possible
    ensures forall i :: 0 <= i < |ms| && ms[i].value == 0 && v in ms[i].possible ==> i in h
  {
    if ms == [] then []
    else
      var front := ms[..|ms| - 1];
      var last := ms[|ms| - 1];
      assert forall i :: 0 <= i < |front| ==> front[i] == ms[i];
      Holders(front, v) + (if last.value == 0 && v in last.possible then [|ms| - 1] else [])
  }

  /** The single-position step from value v on: each value up to n that the rule lacks must have
      a holder (none: Failed at once); a value with exactly one holder is fixed there. */
  function SinglePositionFrom(ms: seq<TileState>, existing: set<int>, v: int, n: int, acc: SudokuProgress)
    : (r: (seq<TileState>, SudokuProgress))
    ensures |r.0| == |ms|
    decreases n - v + 1
  {
    if v > n then (ms, acc)
    else if v in existing then SinglePositionFrom(ms, existing, v + 1, n, acc)
    else
      var h := Holders(ms, v);
      if |h| == 0 then (ms, Failed)
      else if |h| == 1 then SinglePositionFrom(ms[h[0] := Fixed(ms[h[0]], v)], existing, v + 1, n, Progress)
      else SinglePositionFrom(ms, existing, v + 1, n, acc)
  }

  /** `r` comes from `ms` by filling empty members with one of their candidates (Fix), nothing else. */
  predicate Fills(ms: seq<TileState>, r: seq<TileState>)
  {
    |r| == |ms| &&
    forall i :: 0 <= i < |ms| ==>
      (r[i] == ms[i] || (ms[i].value == 0 && r[i].value in ms[i].possible && r[i] == Fixed(ms[i], r[i].value)))
  }

  lemma FillsTransitive(a: seq<TileState>, b: seq<TileState>, c: seq<TileState>)
    requires AllWellFormed(a) && Fills(a, b) && Fills(b, c)
    ensures Fills(a, c)
  {
    forall i | 0 <= i < |a| && b[i] != a[i]
      ensures c[i] == b[i]
    {
      FixedMeaning(a[i], b[i].value);
    }
  }

  /** Fixing one empty member to one of its candidates keeps every member well formed and coherent. */
  lemma FillOne(ms: seq<TileState>, k: int, v: int)
    requires AllWellFormed(ms) && 0 <= k < |ms| && ms[k].value == 0 && v in ms[k].possible
    ensures var ms' := ms[k := Fixed(ms[k], v)];
      && AllWellFormed(ms') && (AllCoherent(ms) ==> AllCoherent(ms')) && Fills(ms, ms')
      && ms'[k].value == v && v != 0
  {
    FixedMeaning(ms[k], v);
  }

  /** What the single-position step guarantees: members are only filled with their own candidates;
      NoProgress means nothing changed; a new Progress means an empty member was filled. */
  lemma {:induction false} SinglePositionFacts(ms: seq<TileState>, existing: set<int>, v: int, n: int, acc: SudokuProgress)
    requires AllWellFormed(ms)
    requires acc != Failed
    ensures var (r, p) := SinglePositionFrom(ms, existing, v, n, acc);
      && AllWellFormed(r)
      && (AllCoherent(ms) ==> AllCoherent(r))
      && Fills(ms, r)
      && (p == NoProgress ==> acc == NoProgress && r == ms)
      && (p == Progress && acc == NoProgress ==> exists i :: 0 <= i < |ms| && ms[i].value == 0 && r[i].value != 0)
    decreases n - v + 1
  {
    if v > n {
    } else if v in existing {
      SinglePositionFacts(ms, existing, v + 1, n, acc);
    } else {
      var h := Holders(ms, v);
      if |h| == 0 {
      } else if |h| == 1 {
        var k := h[0];
        var ms' := ms[k := Fixed(ms[k], v)];
        FillOne(ms, k, v);
        SinglePositionFacts(ms', existing, v + 1, n, Progress);
        var r := SinglePositionFrom(ms', existing, v + 1, n, Progress).0;
        FillsTransitive(ms, ms', r);
        assert r[k] == ms'[k];
      } else {
        SinglePositionFacts(ms, existing, v + 1, n, acc);
      }
    }
  }

  /** Member j is empty and still has w as a candidate. */
  predicate HolderAt(ms: seq<TileState>, j: int, w: int)
  {
    0 <= j < |ms| && ms[j].value == 0 && w in ms[j].possible
  }

  /** Holders lists its indices in strictly increasing order, so none twice. */
  lemma {:induction false} HoldersAscending(ms: seq<TileState>, v: int)
    ensures forall a, b :: 0 <= a < b < |Holders(ms, v)| ==> Holders(ms, v)[a] < Holders(ms, v)[b]
  {
    if ms != [] {
      var front := ms[..|ms| - 1];
      HoldersAscending(front, v);
    }
  }

  /** A value whose only holder is member i has Holders == [i]. */
  lemma HoldersSingle(ms: seq<TileState>, v: int, i: int)
    requires HolderAt(ms, i, v)
    requires forall j :: HolderAt(ms, j, v) ==> j == i
    ensures Holders(ms, v) == [i]
  {
    var h := Holders(ms, v);
    HoldersAscending(ms, v);
    assert i in h;
    if |h| > 1 {
      assert HolderAt(ms, h[0], v) && HolderAt(ms, h[1], v);
    }
  }

  /** Fixing member k to a value of 1.. takes it out of every value's holders and leaves the others as they were. */
  lemma HolderAfterFix(ms: seq<TileState>, k: int, v: int, w: int, j: int)
    requires 0 <= k < |ms| && 1 <= v
    ensures HolderAt(ms[k := Fixed(ms[k], v)], j, w) <==> j != k && HolderAt(ms, j, w)
  {
  }

  /** The single-position step at a lacking value v with one holder k fixes k and goes on with v + 1. */
  lemma SingleStep(ms: seq<TileState>, existing: set<int>, v: int, n: int, acc: SudokuProgress)
    requires v <= n && v !in existing && |Holders(ms, v)| == 1
    ensures var k := Holders(ms, v)[0];
      SinglePositionFrom(ms, existing, v, n, acc) == SinglePositionFrom(ms[k := Fixed(ms[k], v)], existing, v + 1, n, Progress)
  {
  }

  /** The single-position step passes over a value that is present or has several holders. */
  lemma PassStep(ms: seq<TileState>, existing: set<int>, v: int, n: int, acc: SudokuProgress)
    requires v <= n && (v in existing || |Holders(ms, v)| > 1)
    ensures SinglePositionFrom(ms, existing, v, n, acc) == SinglePositionFrom(ms, existing, v + 1, n, acc)
  {
  }

  /** The fixed member and the other members after one single-position fix, for value w. */
  lemma HoldersAfterFix(ms: seq<TileState>, ms': seq<TileState>, k: int, v: int, w: int, i: int)
    requires 0 <= k < |ms| && 1 <= v && ms' == ms[k := Fixed(ms[k], v)]
    requires forall j :: HolderAt(ms, j, w) ==> j == i
    ensures forall j :: HolderAt(ms', j, w) ==> j == i
    ensures k == i ==> forall j :: !HolderAt(ms', j, w)
    ensures k != i && HolderAt(ms, i, w) ==> HolderAt(ms', i, w)
  {
    forall j ensures HolderAt(ms', j, w) <==> j != k && HolderAt(ms, j, w) {
      HolderAfterFix(ms, k, v, w, j);
    }
  }

  /** A value the rule lacks that no empty member can take makes the single-position step fail. */
  lemma {:induction false} NoHolderFails(ms: seq<TileState>, existing: set<int>, v: int, n: int, acc: SudokuProgress, w: int)
    requires 1 <= v <= w <= n && w !in existing
    requires forall j :: !HolderAt(ms, j, w)
    ensures SinglePositionFrom(ms, existing, v, n, acc).1 == Failed
    decreases n - v + 1, 1
  {
    if v in existing {
      PassStep(ms, existing, v, n, acc);
      NoHolderFails(ms, existing, v + 1, n, acc, w);
    } else if |Holders(ms, v)| == 1 {
      NoHolderFailsLater(ms, existing, v, n, acc, w);
    } else if |Holders(ms, v)| > 1 {
      assert HolderAt(ms, Holders(ms, v)[0], v);
      PassStep(ms, existing, v, n, acc);
      NoHolderFails(ms, existing, v + 1, n, acc, w);
    }
  }

  /** NoHolderFails at a value v with a single holder: fixing it does not give w a holder. */
  lemma {:induction false} NoHolderFailsLater(ms: seq<TileState>, existing: set<int>, v: int, n: int, acc: SudokuProgress, w: int)
    requires 1 <= v <= w <= n && w !in existing && v !in existing && |Holders(ms, v)| == 1
    requires forall j :: !HolderAt(ms, j, w)
    ensures SinglePositionFrom(ms, existing, v, n, acc).1 == Failed
    decreases n - v + 1, 0
  {
    var k := Holders(ms, v)[0];
    assert HolderAt(ms, k, v);
    var ms' := ms[k := Fixed(ms[k], v)];
    SingleStep(ms, existing, v, n, acc);
    HoldersAfterFix(ms, ms', k, v, w, k);
    NoHolderFails(ms', existing, v + 1, n, Progress, w);
  }

  /** A value the rule lacks that exactly one empty member i can take is fixed there, unless the
      step fails. */
  lemma {:induction false} SingleHolderFixed(ms: seq<TileState>, existing: set<int>, v: int, n: int, acc: SudokuProgress,
                                             w: int, i: int)
    requires AllWellFormed(ms) && acc != Failed
    requires 1 <= v <= w <= n && w !in existing
    requires HolderAt(ms, i, w) && forall j :: HolderAt(ms, j, w) ==> j == i
    ensures var r := SinglePositionFrom(ms, existing, v, n, acc);
      r.1 != Failed ==> r.0[i].value == w
    decreases n - v + 1, 1
  {
    if v == w {
      FixedHere(ms, existing, n, acc, w, i);
    } else if v in existing || |Holders(ms, v)| > 1 {
      FixedPast(ms, existing, v, n, acc, w, i);
    } else if |Holders(ms, v)| == 1 {
      FixedLater(ms, existing, v, n, acc, w, i);
    }
  }

  /** SingleHolderFixed at a value v below w that the step passes over. */
  lemma {:induction false} FixedPast(ms: seq<TileState>, existing: set<int>, v: int, n: int, acc: SudokuProgress,
                                     w: int, i: int)
    requires AllWellFormed(ms) && acc != Failed
    requires 1 <= v < w <= n && w !in existing && (v in existing || |Holders(ms, v)| > 1)
    requires HolderAt(ms, i, w) && forall j :: HolderAt(ms, j, w) ==> j == i
    ensures var r := SinglePositionFrom(ms, existing, v, n, acc);
      r.1 != Failed ==> r.0[i].value == w
    decreases n - v + 1, 0
  {
    PassStep(ms, existing, v, n, acc);
    SingleHolderFixed(ms, existing, v + 1, n, acc, w, i);
  }

  /** The single-position step never changes a member that already has a value. */
  lemma {:induction false} FilledKept(ms: seq<TileState>, existing: set<int>, v: int, n: int, acc: SudokuProgress, i: int)
    requires 0 <= i < |ms| && ms[i].value != 0
    ensures SinglePositionFrom(ms, existing, v, n, acc).0[i] == ms[i]
    decreases n - v + 1, 1
  {
    if v > n {
    } else if v in existing || |Holders(ms, v)| > 1 {
      PassStep(ms, existing, v, n, acc);
      FilledKept(ms, existing, v + 1, n, acc, i);
    } else if |Holders(ms, v)| == 1 {
      FilledKeptFix(ms, existing, v, n, acc, i);
    }
  }

  /** FilledKept at a value with a single holder, which is empty and so is not member i. */
  lemma {:induction false} FilledKeptFix(ms: seq<TileState>, existing: set<int>, v: int, n: int, acc: SudokuProgress, i: int)
    requires 0 <= i < |ms| && ms[i].value != 0
    requires v <= n && v !in existing && |Holders(ms, v)| == 1
    ensures SinglePositionFrom(ms, existing, v, n, acc).0[i] == ms[i]
    decreases n - v + 1, 0
  {
    var k := Holders(ms, v)[0];
    var ms' := ms[k := Fixed(ms[k], v)];
    SingleStep(ms, existing, v, n, acc);
    FilledKept(ms', existing, v + 1, n, Progress, i);
  }

  /** SingleHolderFixed when the loop reaches w itself: member i is its only holder and is fixed to w,
      and the rest of the loop only fills empty members. */
  lemma FixedHere(ms: seq<TileState>, existing: set<int>, n: int, acc: SudokuProgress, w: int, i: int)
    requires AllWellFormed(ms) && acc != Failed
    requires 1 <= w <= n && w !in existing
    requires HolderAt(ms, i, w) && forall j :: HolderAt(ms, j, w) ==> j == i
    ensures var r := SinglePositionFrom(ms, existing, w, n, acc);
      r.1 != Failed ==> r.0[i].value == w
  {
    HoldersSingle(ms, w, i);
    var ms' := ms[i := Fixed(ms[i], w)];
    SingleStep(ms, existing, w, n, acc);
    FilledKept(ms', existing, w + 1, n, Progress, i);
  }

  /** SingleHolderFixed at a smaller value v with a single holder k: if k is i, w loses its last holder
      and the step fails; otherwise i is still w's only holder. */
  lemma {:induction false} FixedLater(ms: seq<TileState>, existing: set<int>, v: int, n: int, acc: SudokuProgress,
                                      w: int, i: int)
    requires AllWellFormed(ms) && acc != Failed
    requires 1 <= v < w <= n && w !in existing && v !in existing && |Holders(ms, v)| == 1
    requires HolderAt(ms, i, w) && forall j :: HolderAt(ms, j, w) ==> j == i
    ensures var r := SinglePositionFrom(ms, existing, v, n, acc);
      r.1 != Failed ==> r.0[i].value == w
    decreases n - v + 1, 0
  {
    var k := Holders(ms, v)[0];
    assert HolderAt(ms, k, v);
    var ms' := ms[k := Fixed(ms[k], v)];
    SingleStep(ms, existing, v, n, acc);
    FillOne(ms, k, v);
    HoldersAfterFix(ms, ms', k, v, w, i);
    if k == i {
      NoHolderFails(ms', existing, v + 1, n, Progress, w);
    } else {
      SingleHolderFixed(ms', existing, v + 1, n, Progress, w, i);
    }
  }

  /** Solve: elimination, then the single-position step over 1..|members|, outcomes combined. */
  function SolveSpec(ms: seq<TileState>): (r: (seq<TileState>, SudokuProgress))
    ensures |r.0| == |ms|
  {
    var (m1, p1) := Eliminate(ms, Present(ms));
    var (m2, p2) := SinglePositionFrom(m1, Present(m1), 1, |ms|, NoProgress);
    (m2, Combine(p1, p2))
  }

  /** What one rule's Solve guarantees about its members. */
  lemma SolveFacts(ms: seq<TileState>)
    requires AllWellFormed(ms)
    ensures var (r, p) := SolveSpec(ms);
      && AllWellFormed(r)
      && (AllCoherent(ms) ==> AllCoherent(r))
      && (forall i :: 0 <= i < |ms| ==> Extends(ms[i], r[i]) && r[i].possible <= ms[i].possible)
      && (p == Progress ==> exists i :: 0 <= i < |ms| && ms[i].value == 0 && r[i].value != 0)
      && (p == NoProgress ==> forall i :: 0 <= i < |ms| ==> r[i].value == ms[i].value && Settled(r[i]))
  {
    var (m1, p1) := Eliminate(ms, Present(ms));
    EliminateFacts(ms, Present(ms));
    SinglePositionFacts(m1, Present(m1), 1, |ms|, NoProgress);
    var (m2, p2) := SinglePositionFrom(m1, Present(m1), 1, |ms|, NoProgress);
    forall i | 0 <= i < |ms| ensures Extends(ms[i], m2[i]) && m2[i].possible <= ms[i].possible {
      if m2[i] != m1[i] {
        FixedMeaning(m1[i], m2[i].value);
      }
    }
    if Combine(p1, p2) == Progress && p1 != Progress {
      var i :| 0 <= i < |m1| && m1[i].value == 0 && m2[i].value != 0;
      assert ms[i].value == 0;
    }
  }

  // ---------------------------------------------------------------------------
  // The rule object over shared tiles.
  // ---------------------------------------------------------------------------

  class Rule {
    const description: string
    const tiles: seq<Tile>

    /** Membership is a set: no tile twice. */
    ghost predicate Valid()
    {
      NoDuplicates(tiles)
    }

    /** Duplicates collapse, as in the source's HashSet; the description is kept. */
    constructor (members: seq<Tile>, description: string)
      ensures tiles == Dedup(members) && this.description == description
      ensures Valid()
    {
      tiles := Dedup(members);
      this.description := description;
    }

    function States(): (ms: seq<TileState>)
      reads tiles
      ensures |ms| == |tiles| && forall i :: 0 <= i < |tiles| ==> ms[i] == tiles[i].State()
    {
      seq(|tiles|, i requires 0 <= i < |tiles| reads tiles => tiles[i].State())
    }

    ghost predicate TilesValid()
      reads tiles
    {
      forall i :: 0 <= i < |tiles| ==> tiles[i].Valid()
    }

    /** CheckValid holds iff no two members with a value share it. */
    function CheckValid(): (ok: bool)
      reads tiles
      ensures ok <==> NoRepeatedValue(States())
    {
      GroupsAreSingletonsIff(States());
      GroupsAreSingletons(States())
    }

    /** CheckComplete: every member has a value and CheckValid holds. */
    function CheckComplete(): (ok: bool)
      reads tiles
      ensures ok <==> (forall i :: 0 <= i < |tiles| ==> tiles[i].value != 0) && NoRepeatedValue(States())
    {
      (forall i :: 0 <= i < |tiles| ==> tiles[i].HasValue()) && CheckValid()
    }

    /** The elimination step applied to member i alone; filled members are skipped. */
    method EliminateAt(i: int, existingNumbers: set<int>) returns (q: SudokuProgress)
      requires Valid() && TilesValid() && 0 <= i < |tiles|
      modifies tiles[i]
      ensures TilesValid()
      ensures States() == old(States())[i := Eliminated(old(States())[i], existingNumbers)]
      ensures q == StepOutcome(old(States())[i], existingNumbers)
    {
      q := NoProgress;
      if !tiles[i].HasValue() {
        assert forall k :: 0 <= k < |tiles| && k != i ==> tiles[k] != tiles[i];
        q := tiles[i].RemovePossibles(existingNumbers);
      }
    }

    /** One iteration of the elimination loop: member i goes through the step, and the processed
        prefix grows by one. */
    method EliminateNext(i: int, existingNumbers: set<int>, ghost ms: seq<TileState>, ghost done: seq<TileState>,
                         p: SudokuProgress) returns (ghost done': seq<TileState>, p': SudokuProgress)
      requires Valid() && TilesValid() && 0 <= i < |tiles| && |ms| == |tiles| && |done| == i
      requires (done, p) == EliminatePrefix(ms, existingNumbers, i) && States() == done + ms[i..]
      modifies tiles[i]
      ensures TilesValid()
      ensures (done', p') == EliminatePrefix(ms, existingNumbers, i + 1) && States() == done' + ms[i + 1..]
    {
      ReplaceNext(done, ms, Eliminated(ms[i], existingNumbers));
      var q := EliminateAt(i, existingNumbers);
      p' := Combine(p, q);
      done' := done + [Eliminated(ms[i], existingNumbers)];
    }

    method RemovePossibles() returns (p: SudokuProgress)
      requires Valid() && TilesValid()
      modifies tiles
      ensures (States(), p) == Eliminate(old(States()), Present(old(States())))
      ensures TilesValid()
    {
      ghost var ms := States();
      var existingNumbers := Present(States());
      ghost var done: seq<TileState> := [];
      p := NoProgress;
      var i := 0;
      while i < |tiles|
        invariant 0 <= i <= |tiles| && |done| == i && |ms| == |tiles|
        invariant TilesValid()
        invariant (done, p) == EliminatePrefix(ms, existingNumbers, i)
        invariant States() == done + ms[i..]
      {
        done, p := EliminateNext(i, existingNumbers, ms, done, p);
        i := i + 1;
      }
      assert done + ms[i..] == done;
    }

    /** Fix applied to member k alone. */
    method FixMember(k: int, v: int)
      requires Valid() && TilesValid() && 0 <= k < |tiles| && 0 <= v <= tiles[k].maximumValue
      modifies tiles[k]
      ensures TilesValid()
      ensures States() == old(States())[k := Fixed(old(States())[k], v)]
    {
      assert forall j :: 0 <= j < |tiles| && j != k ==> tiles[j] != tiles[k];
      tiles[k].Fix(v);
    }

    /** One iteration of the single-position loop, for value v: a missing value without holders
        fails, one with a single holder is fixed there. */
    method SinglePositionNext(v: int, existingNumbers: set<int>, ghost cur: seq<TileState>, p: SudokuProgress)
      returns (ghost cur': seq<TileState>, p': SudokuProgress)
      requires Valid() && TilesValid() && 1 <= v <= |tiles| && p != Failed && States() == cur
      modifies tiles
      ensures TilesValid() && States() == cur'
      ensures p' != Failed ==>
        SinglePositionFrom(cur', existingNumbers, v + 1, |tiles|, p') == SinglePositionFrom(cur, existingNumbers, v, |tiles|, p)
      ensures p' == Failed ==> (cur', p') == SinglePositionFrom(cur, existingNumbers, v, |tiles|, p)
    {
      cur', p' := cur, p;
      if v !in existingNumbers {
        var possibles := Holders(States(), v);
        if |possibles| == 0 {
          p' := Failed;
        } else if |possibles| == 1 {
          var k := possibles[0];
          assert tiles[k].Valid() && v in cur[k].possible;
          FixMember(k, v);
          cur' := cur[k := Fixed(cur[k], v)];
          p' := Progress;
          assert SinglePositionFrom(cur, existingNumbers, v, |tiles|, p)
              == SinglePositionFrom(cur', existingNumbers, v + 1, |tiles|, p');
        } else {
          assert SinglePositionFrom(cur, existingNumbers, v, |tiles|, p)
              == SinglePositionFrom(cur, existingNumbers, v + 1, |tiles|, p);
        }
      }
    }

    /** The single-position step over the values 1..|members|. */
    method CheckForOnlyOnePossibility() returns (p: SudokuProgress)
      requires Valid() && TilesValid()
      modifies tiles
      ensures (States(), p) == SinglePositionFrom(old(States()), Present(old(States())), 1, |tiles|, NoProgress)
      ensures TilesValid()
    {
      ghost var ms := States();
      ghost var cur := ms;
      var existingNumbers := Present(States());
      p := NoProgress;
      var v := 1;
      while v <= |tiles|
        invariant 1 <= v <= |tiles| + 1
        invariant TilesValid() && p != Failed && States() == cur
        invariant SinglePositionFrom(cur, existingNumbers, v, |tiles|, p)
               == SinglePositionFrom(ms, existingNumbers, 1, |tiles|, NoProgress)
      {
        cur, p := SinglePositionNext(v, existingNumbers, cur, p);
        if p == Failed {
          return;
        }
        v := v + 1;
      }
    }

    /** Solve: both steps in order, outcomes combined. */
    method Solve() returns (p: SudokuProgress)
      requires Valid() && TilesValid()
      modifies tiles
      ensures (States(), p) == SolveSpec(old(States()))
      ensures TilesValid()
    {
      var result1 := RemovePossibles();
      var result2 := CheckForOnlyOnePossibility();
      p := Combine(result1, result2);
    }
  }
}
