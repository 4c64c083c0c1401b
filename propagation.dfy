/** The board's propagation pass on values: every rule's Solve in turn over the shared tiles. */
module Propagation {
  import opened Signal
  import opened Tiles
  import opened Seqs
  import opened Rules

  /** The states of a board's tiles, by tile. */
  type Snapshot = map<Tile, TileState>

  /** Every member of `ts` has a state in `snap`. */
  predicate Covers(snap: Snapshot, ts: seq<Tile>)
  {
    forall k :: 0 <= k < |ts| ==> ts[k] in snap
  }

  /** Every rule's members have a state in `snap`, and no rule lists a tile twice. */
  ghost predicate RulesOver(snap: Snapshot, rs: seq<seq<Tile>>)
  {
    forall i :: 0 <= i < |rs| ==> Covers(snap, rs[i]) && NoDuplicates(rs[i])
  }

  ghost predicate SnapWellFormed(snap: Snapshot)
  {
    forall t :: t in snap ==> WellFormed(snap[t])
  }

  ghost predicate SnapCoherent(snap: Snapshot)
  {
    forall t :: t in snap ==> Coherent(snap[t])
  }

  /** The states of a rule's members, in member order (what the rule reads). */
  function Gather(snap: Snapshot, ts: seq<Tile>): (ms: seq<TileState>)
    requires Covers(snap, ts)
    ensures |ms| == |ts| && forall k :: 0 <= k < |ts| ==> ms[k] == snap[ts[k]]
  {
    seq(|ts|, k requires 0 <= k < |ts| && Covers(snap, ts) => snap[ts[k]])
  }

  /** The snapshot after member ts[k] takes the state ms[k], for every k (what the rule writes). */
  function Scatter(snap: Snapshot, ts: seq<Tile>, ms: seq<TileState>): (r: Snapshot)
    requires |ms| == |ts| && Covers(snap, ts)
    ensures r.Keys == snap.Keys
    ensures forall t :: t in snap && t !in ts ==> r[t] == snap[t]
    decreases |ts|
  {
    if ts == [] then snap
    else
      var n := |ts| - 1;
      assert forall k :: 0 <= k < n ==> ts[..n][k] == ts[k];
      Scatter(snap, ts[..n], ms[..n])[ts[n] := ms[n]]
  }

  /** With members that are distinct tiles, each member receives its own new state. */
  lemma ScatterAt(snap: Snapshot, ts: seq<Tile>, ms: seq<TileState>)
    requires |ms| == |ts| && Covers(snap, ts) && NoDuplicates(ts)
    ensures forall k :: 0 <= k < |ts| ==> Scatter(snap, ts, ms)[ts[k]] == ms[k]
  {
    forall k | 0 <= k < |ts| ensures Scatter(snap, ts, ms)[ts[k]] == ms[k] {
      ScatterOne(snap, ts, ms, k);
    }
  }

  /** Member k receives its new state when no later member is the same tile. */
  lemma {:induction false} ScatterOne(snap: Snapshot, ts: seq<Tile>, ms: seq<TileState>, k: int)
    requires |ms| == |ts| && Covers(snap, ts) && 0 <= k < |ts|
    requires forall j :: k < j < |ts| ==> ts[j] != ts[k]
    ensures Scatter(snap, ts, ms)[ts[k]] == ms[k]
    decreases |ts|
  {
    var n := |ts| - 1;
    if k < n {
      var front, rest := ts[..n], ms[..n];
      assert forall j :: k < j < n ==> front[j] == ts[j];
      ScatterOne(snap, front, rest, k);
      assert front[k] == ts[k] && rest[k] == ms[k];
    }
  }

  /** One rule's Solve on the shared tiles: read its members, solve, write them back. */
  function StepRule(snap: Snapshot, ts: seq<Tile>): (r: (Snapshot, SudokuProgress))
    requires Covers(snap, ts)
    ensures r.0.Keys == snap.Keys
  {
    var (ms, p) := SolveSpec(Gather(snap, ts));
    (Scatter(snap, ts, ms), p)
  }

  /** The fold of Simplify over the rules in order, outcomes combined from NoProgress. */
  function SimplifyRules(snap: Snapshot, rs: seq<seq<Tile>>): (r: (Snapshot, SudokuProgress))
    requires forall i :: 0 <= i < |rs| ==> Covers(snap, rs[i])
    ensures r.0.Keys == snap.Keys
    decreases |rs|
  {
    if rs == [] then (snap, NoProgress)
    else
      var n := |rs| - 1;
      assert forall i :: 0 <= i < n ==> rs[..n][i] == rs[i];
      var (mid, p) := SimplifyRules(snap, rs[..n]);
      assert Covers(mid, rs[n]) by {
        assert Covers(snap, rs[n]);
        forall k | 0 <= k < |rs[n]| ensures rs[n][k] in mid {
          assert rs[n][k] in snap && rs[n][k] in snap.Keys;
        }
      }
      var (last, q) := StepRule(mid, rs[n]);
      (last, Combine(p, q))
  }

  /** The fold over one more rule is the fold so far followed by that rule's step. */
  lemma SimplifyRulesNext(snap: Snapshot, rs: seq<seq<Tile>>, i: int, mid: Snapshot, p: SudokuProgress)
    requires 0 <= i < |rs| && forall j :: 0 <= j < |rs| ==> Covers(snap, rs[j])
    requires (mid, p) == SimplifyRules(snap, rs[..i])
    ensures Covers(mid, rs[i])
    ensures var (last, q) := StepRule(mid, rs[i]);
      SimplifyRules(snap, rs[..i + 1]) == (last, Combine(p, q))
  {
    assert rs[..i + 1][..i] == rs[..i] && rs[..i + 1][i] == rs[i];
  }

  /** CheckValid over all rules: no rule repeats a value. */
  ghost predicate RulesValid(snap: Snapshot, rs: seq<seq<Tile>>)
    requires forall i :: 0 <= i < |rs| ==> Covers(snap, rs[i])
  {
    forall i :: 0 <= i < |rs| ==> NoRepeatedValue(Gather(snap, rs[i]))
  }

  /** Simplify: Failed at once when some rule already repeats a value, else the fold over the rules. */
  ghost function SimplifySpec(snap: Snapshot, rs: seq<seq<Tile>>): (r: (Snapshot, SudokuProgress))
    requires forall i :: 0 <= i < |rs| ==> Covers(snap, rs[i])
    ensures r.0.Keys == snap.Keys
  {
    if !RulesValid(snap, rs) then (snap, Failed) else SimplifyRules(snap, rs)
  }

  /** ResetSolutions: every tile's candidates reset. */
  function ResetAll(snap: Snapshot): (r: Snapshot)
    ensures r.Keys == snap.Keys
  {
    map t | t in snap :: Reset(snap[t])
  }

  // ---------------------------------------------------------------------------
  // What the pass guarantees.
  // ---------------------------------------------------------------------------

  /** Tile by tile, `after` extends `before` and has no new candidates. */
  ghost predicate SnapExtends(before: Snapshot, after: Snapshot)
  {
    before.Keys == after.Keys &&
    forall t :: t in before ==> Extends(before[t], after[t]) && after[t].possible <= before[t].possible
  }

  /** Some tile that was empty in `before` is filled in `after`. */
  ghost predicate SomeFilled(before: Snapshot, after: Snapshot)
  {
    exists t :: t in before && t in after && before[t].value == 0 && after[t].value != 0
  }

  /** No tile's value differs. */
  ghost predicate SameValues(before: Snapshot, after: Snapshot)
  {
    before.Keys == after.Keys && forall t :: t in before ==> after[t].value == before[t].value
  }

  /** Values that survive a step keeping them and a step extending them survive both. */
  lemma ValuesKept(a: Snapshot, b: Snapshot, c: Snapshot)
    requires SameValues(a, b) && SnapExtends(b, c)
    ensures forall t :: t in a && a[t].value != 0 ==> c[t].value == a[t].value
  {
  }

  /** Every member of every rule is settled. */
  ghost predicate MembersSettled(snap: Snapshot, rs: seq<seq<Tile>>)
  {
    forall i, k :: 0 <= i < |rs| && 0 <= k < |rs[i]| && rs[i][k] in snap ==> Settled(snap[rs[i][k]])
  }

  lemma SnapExtendsTransitive(a: Snapshot, b: Snapshot, c: Snapshot)
    requires SnapExtends(a, b) && SnapExtends(b, c)
    ensures SnapExtends(a, c)
  {
  }

  /** Resetting keeps values and blocked flags and leaves every tile well formed and coherent. */
  lemma ResetAllFacts(snap: Snapshot)
    requires SnapWellFormed(snap)
    ensures SnapWellFormed(ResetAll(snap)) && SnapCoherent(ResetAll(snap))
    ensures SameValues(snap, ResetAll(snap))
    ensures forall t :: t in snap ==> ResetAll(snap)[t].blocked == snap[t].blocked
  {
    forall t | t in snap
      ensures WellFormed(ResetAll(snap)[t]) && Coherent(ResetAll(snap)[t])
    {
      ResetCandidates(snap[t]);
    }
  }

  /** One rule's step: members change as the rule's Solve promises, other tiles not at all. */
  lemma StepRuleFacts(snap: Snapshot, ts: seq<Tile>)
    requires Covers(snap, ts) && NoDuplicates(ts) && SnapWellFormed(snap)
    ensures var (r, p) := StepRule(snap, ts);
      && SnapWellFormed(r)
      && (SnapCoherent(snap) ==> SnapCoherent(r))
      && SnapExtends(snap, r)
      && (p == Progress ==> SomeFilled(snap, r))
      && (p == NoProgress ==> SameValues(snap, r) && forall k :: 0 <= k < |ts| ==> Settled(r[ts[k]]))
  {
    var ms := Gather(snap, ts);
    var (r, p) := StepRule(snap, ts);
    var (out, q) := SolveSpec(ms);
    ScatterAt(snap, ts, out);
    assert AllWellFormed(ms);
    SolveFacts(ms);
    forall t | t in snap
      ensures WellFormed(r[t]) && Extends(snap[t], r[t]) && r[t].possible <= snap[t].possible
      ensures Coherent(snap[t]) && AllCoherent(ms) ==> Coherent(r[t])
    {
      if t in ts {
        var k :| 0 <= k < |ts| && ts[k] == t;
        assert r[t] == out[k];
      }
    }
    if p == Progress {
      var k :| 0 <= k < |ms| && ms[k].value == 0 && out[k].value != 0;
      assert r[ts[k]] == out[k];
    }
    if p == NoProgress {
      forall t | t in snap ensures r[t].value == snap[t].value {
        if t in ts {
          var k :| 0 <= k < |ts| && ts[k] == t;
          assert r[t] == out[k];
        }
      }
    }
  }

  /** Simplify's fold: tiles only get filled, candidates only shrink, Progress fills some tile,
      and NoProgress changes no value and leaves every member of every rule settled. */
  lemma SimplifyRulesFacts(snap: Snapshot, rs: seq<seq<Tile>>)
    requires RulesOver(snap, rs) && SnapWellFormed(snap)
    ensures var (r, p) := SimplifyRules(snap, rs);
      && SnapWellFormed(r)
      && (SnapCoherent(snap) ==> SnapCoherent(r))
      && SnapExtends(snap, r)
      && (p == Progress ==> SomeFilled(snap, r))
      && (p == NoProgress ==> SameValues(snap, r) && MembersSettled(r, rs))
  {
    SimplifyRulesGrow(snap, rs);
    SimplifyRulesSettle(snap, rs);
  }

  /** The fold keeps tiles well formed (and coherent), only fills values and shrinks candidates,
      and Progress fills some tile. */
  lemma {:induction false} SimplifyRulesGrow(snap: Snapshot, rs: seq<seq<Tile>>)
    requires RulesOver(snap, rs) && SnapWellFormed(snap)
    ensures var (r, p) := SimplifyRules(snap, rs);
      && SnapWellFormed(r)
      && (SnapCoherent(snap) ==> SnapCoherent(r))
      && SnapExtends(snap, r)
      && (p == Progress ==> SomeFilled(snap, r))
    decreases |rs|
  {
    if rs != [] {
      var n := |rs| - 1;
      var front := rs[..n];
      assert forall i :: 0 <= i < n ==> front[i] == rs[i];
      SimplifyRulesGrow(snap, front);
      var (mid, p) := SimplifyRules(snap, front);
      StepRuleFacts(mid, rs[n]);
      var (last, q) := StepRule(mid, rs[n]);
      assert SimplifyRules(snap, rs) == (last, Combine(p, q));
      SnapExtendsTransitive(snap, mid, last);
      if Combine(p, q) == Progress {
        ProgressCarries(snap, mid, last, p, q);
      }
    }
  }

  /** A fold that ends in NoProgress changes no value and leaves every member of every rule settled. */
  lemma {:induction false} SimplifyRulesSettle(snap: Snapshot, rs: seq<seq<Tile>>)
    requires RulesOver(snap, rs) && SnapWellFormed(snap)
    ensures var (r, p) := SimplifyRules(snap, rs);
      p == NoProgress ==> SameValues(snap, r) && MembersSettled(r, rs)
    decreases |rs|
  {
    if rs != [] {
      var n := |rs| - 1;
      var front := rs[..n];
      assert forall i :: 0 <= i < n ==> front[i] == rs[i];
      var (mid, p) := SimplifyRules(snap, front);
      var (last, q) := StepRule(mid, rs[n]);
      assert SimplifyRules(snap, rs) == (last, Combine(p, q));
      if Combine(p, q) == NoProgress {
        assert p == NoProgress && q == NoProgress;
        SimplifyRulesSettle(snap, front);
        SimplifyRulesGrow(snap, front);
        StepRuleFacts(mid, rs[n]);
        SettledCarries(mid, last, rs, rs[n]);
      }
    }
  }

  lemma ProgressCarries(snap: Snapshot, mid: Snapshot, last: Snapshot, p: SudokuProgress, q: SudokuProgress)
    requires SnapExtends(snap, mid) && SnapExtends(mid, last) && Combine(p, q) == Progress
    requires p == Progress ==> SomeFilled(snap, mid)
    requires q == Progress ==> SomeFilled(mid, last)
    ensures SomeFilled(snap, last)
  {
    if p == Progress {
      var t :| t in snap && t in mid && snap[t].value == 0 && mid[t].value != 0;
      assert last[t].value != 0;
    } else {
      var t :| t in mid && t in last && mid[t].value == 0 && last[t].value != 0;
      assert snap[t].value == 0;
    }
  }

  /** A last rule that fills nothing keeps the earlier rules' members settled and settles its own. */
  lemma SettledCarries(mid: Snapshot, last: Snapshot, rs: seq<seq<Tile>>, ts: seq<Tile>)
    requires |rs| > 0 && ts == rs[|rs| - 1]
    requires MembersSettled(mid, rs[..|rs| - 1])
    requires mid.Keys == last.Keys
    requires forall t :: t in mid && t !in ts ==> last[t] == mid[t]
    requires forall k :: 0 <= k < |ts| && ts[k] in last ==> Settled(last[ts[k]])
    ensures MembersSettled(last, rs)
  {
    var n := |rs| - 1;
    forall i, k | 0 <= i < |rs| && 0 <= k < |rs[i]| && rs[i][k] in last
      ensures Settled(last[rs[i][k]])
    {
      var t := rs[i][k];
      if t !in rs[n] {
        assert rs[..n][i][k] == t;
      } else {
        var j :| 0 <= j < |rs[n]| && rs[n][j] == t;
      }
    }
  }

  /** Simplify: an invalid start fails and changes nothing; otherwise the fold's guarantees hold, and
      NoProgress leaves a board on which every rule is still valid. */
  lemma SimplifyFacts(snap: Snapshot, rs: seq<seq<Tile>>)
    requires RulesOver(snap, rs) && SnapWellFormed(snap)
    ensures var (r, p) := SimplifySpec(snap, rs);
      && (!RulesValid(snap, rs) ==> p == Failed && r == snap)
      && SnapWellFormed(r)
      && (SnapCoherent(snap) ==> SnapCoherent(r))
      && SnapExtends(snap, r)
      && (p == Progress ==> SomeFilled(snap, r))
      && (p == NoProgress ==> SameValues(snap, r) && MembersSettled(r, rs) && RulesValid(r, rs))
  {
    if RulesValid(snap, rs) {
      SimplifyRulesFacts(snap, rs);
      var (r, p) := SimplifyRules(snap, rs);
      if p == NoProgress {
        forall i | 0 <= i < |rs| ensures NoRepeatedValue(Gather(r, rs[i])) {
          var before, after := Gather(snap, rs[i]), Gather(r, rs[i]);
          assert forall k :: 0 <= k < |after| ==> after[k].value == before[k].value;
        }
      }
    }
  }

  /** The tiles still empty. */
  ghost function Empties(snap: Snapshot): set<Tile>
  {
    set t | t in snap && snap[t].value == 0
  }

  /** Simplify's loop measure: the number of empty tiles. */
  ghost function EmptyCount(snap: Snapshot): nat
  {
    |Empties(snap)|
  }

  /** Filling never adds an empty tile, and filling one removes one. */
  lemma EmptyCountShrinks(before: Snapshot, after: Snapshot)
    requires SnapExtends(before, after)
    ensures EmptyCount(after) <= EmptyCount(before)
    ensures SomeFilled(before, after) ==> EmptyCount(after) < EmptyCount(before)
  {
    var a, b := Empties(after), Empties(before);
    assert a <= b;
    assert b == a + (b - a);
    assert a * (b - a) == {};
    if SomeFilled(before, after) {
      var t :| t in before && t in after && before[t].value == 0 && after[t].value != 0;
      assert t in b - a;
    }
  }
}
