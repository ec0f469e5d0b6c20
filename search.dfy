/**
 * The state of the backward plan search (solve_goals) and what a returned
 * plan guarantees. A plan is one selection of action indices per action
 * level, lowest level first. The search works on one level at a time:
 * `goals` and `remaining` are propositions of level `lvl + 1` that the
 * actions selected at action level `lvl` must achieve, and `newGoals`
 * collects, at proposition level `lvl`, the preconditions of those actions.
 */
module Search {
  import opened Wrappers
  import opened Lists
  import opened Graph
  import opened Extraction

  /** Every action of the level reads propositions of a level of `n` nodes. */
  predicate PrecsBelow(acts: seq<ActionNode>, n: nat) {
    forall i :: 0 <= i < |acts| ==> IndicesBelow(acts[i].precs, n)
  }

  /** The links the search follows point inside the arena. */
  predicate ArenaIndexed(P: seq<seq<PropNode>>, A: seq<seq<ActionNode>>) {
    && |P| == |A| + 1
    && (forall l :: 0 <= l < |A| ==> AddsBelow(A[l], |P[l + 1]|) && PrecsBelow(A[l], |P[l]|) && AddersIn(P[l + 1], A[l]))
  }

  /** The facts about a well-formed graph that the search relies on. */
  ghost predicate Searchable(P: seq<seq<PropNode>>, A: seq<seq<ActionNode>>) {
    && ArenaIndexed(P, A)
    && (forall l, i :: 0 <= l < |P| && 0 <= i < |P[l]| ==> P[l][i].level == l)
    && (forall l, i, k :: 1 <= l < |P| && 0 <= i < |P[l]| && 0 <= k < |P[l][i].adders| ==>
          i in A[l - 1][P[l][i].adders[k]].adds)
  }

  lemma GraphSearchable(P: seq<seq<PropNode>>, A: seq<seq<ActionNode>>)
    requires GraphOk(P, A)
    ensures Searchable(P, A)
  {
    forall l | 0 <= l < |A|
      ensures AddsBelow(A[l], |P[l + 1]|) && PrecsBelow(A[l], |P[l]|) && AddersIn(P[l + 1], A[l])
    {
      assert ActionLevelOk(l, A[l], |P[l]|, |P[l + 1]|);
      assert PropLevelOk(l + 1, P[l + 1], Below(A, l + 1), Above(A, l + 1));
      forall i | 0 <= i < |A[l]|
        ensures ActionIndexed(A[l][i], |P[l]|, |P[l + 1]|)
      {
        assert ActionOk(l, i, A[l][i], |A[l]|, |P[l]|, |P[l + 1]|);
      }
      var next := P[l + 1];
      forall i | 0 <= i < |next|
        ensures IndicesBelow(next[i].adders, |A[l]|)
      {
        assert PropNodeOk(l + 1, i, next[i], Below(A, l + 1), Above(A, l + 1), |next|);
      }
    }
    forall l, i, k | 1 <= l < |P| && 0 <= i < |P[l]| && 0 <= k < |P[l][i].adders|
      ensures i in A[l - 1][P[l][i].adders[k]].adds
    {
      assert PropLevelOk(l, P[l], Below(A, l), Above(A, l));
      assert PropNodeOk(l, i, P[l][i], Below(A, l), Above(A, l), |P[l]|);
    }
    forall l, i | 0 <= l < |P| && 0 <= i < |P[l]|
      ensures P[l][i].level == l
    {
      assert PropLevelOk(l, P[l], Below(A, l), Above(A, l));
      assert PropNodeOk(l, i, P[l][i], Below(A, l), Above(A, l), |P[l]|);
    }
  }

  /**
   * What a solve_goals call ends in: a plan, no plan (None in the
   * source), or the IndexError raised when the level advance finds no
   * goals collected for the level below.
   */
  datatype Outcome = Solution(plan: seq<seq<nat>>) | Failure | NoGoals

  /** Some action of the graph has no preconditions. */
  ghost predicate PreconditionFree(A: seq<seq<ActionNode>>) {
    exists l, i :: 0 <= l < |A| && 0 <= i < |A[l]| && A[l][i].precs == []
  }

  // ---------------------------------------------------------------------
  // Selections and plans

  /** safeIndex found no earlier selected action that lists a later one among its excludes. */
  predicate Compatible(acts: seq<ActionNode>, sel: seq<nat>)
    requires IndicesBelow(sel, |acts|)
  {
    forall i, j :: 0 <= i < j < |sel| ==> sel[j] !in acts[sel[i]].excludes
  }

  /** A selection of actions of action level `k`. */
  predicate LayerOk(A: seq<seq<ActionNode>>, k: nat, sel: seq<nat>) {
    k < |A| && IndicesBelow(sel, |A[k]|) && Compatible(A[k], sel)
  }

  /** Every precondition of the actions `sel` of level `k` is achieved by the selection `belowSel` one level down. */
  predicate Supported(P: seq<seq<PropNode>>, A: seq<seq<ActionNode>>, k: nat, sel: seq<nat>, belowSel: seq<nat>)
    requires ArenaIndexed(P, A) && 1 <= k < |A| && IndicesBelow(sel, |A[k]|) && IndicesBelow(belowSel, |A[k - 1]|)
  {
    forall i, p :: 0 <= i < |sel| && 0 <= p < |A[k][sel[i]].precs| ==>
      Achieves(P[k], A[k - 1], belowSel, A[k][sel[i]].precs[p])
  }

  /**
   * A plan for `goals` (propositions of level |plan|): one compatible
   * selection per action level, each level's preconditions achieved by
   * the level below, and the goals achieved by the last level. Every
   * layer is minimal for the goals it was chosen for: the goals at the
   * top, below that the preconditions the layer above collects.
   */
  ghost predicate PlanOk(P: seq<seq<PropNode>>, A: seq<seq<ActionNode>>, plan: seq<seq<nat>>, goals: seq<nat>)
    requires ArenaIndexed(P, A)
  {
    && 0 < |plan| < |P|
    && IndicesBelow(goals, |P[|plan|]|)
    && (forall k :: 0 <= k < |plan| ==> LayerOk(A, k, plan[k]))
    && (forall k :: 1 <= k < |plan| ==> Supported(P, A, k, plan[k], plan[k - 1]))
    && AchievesAll(P[|plan|], A[|plan| - 1], plan[|plan| - 1], goals)
    && (forall k :: 0 <= k < |plan| - 1 ==> Minimal(P[k + 1], A[k], LayerPrecs(P[k + 1], A[k + 1], plan[k + 1]), plan[k]))
    && Minimal(P[|plan|], A[|plan| - 1], goals, plan[|plan| - 1])
  }

  // ---------------------------------------------------------------------
  // The search state

  /** The preconditions of the selected actions are all among `newGoals` (by propnum). */
  predicate PrecsListed(nodes: seq<PropNode>, acts: seq<ActionNode>, sel: seq<nat>, newGoals: seq<nat>)
    requires IndicesBelow(sel, |acts|) && PrecsBelow(acts, |nodes|) && IndicesBelow(newGoals, |nodes|)
  {
    forall i, p :: 0 <= i < |sel| && 0 <= p < |acts[sel[i]].precs| ==> NumIn(nodes, acts[sel[i]].precs[p], newGoals)
  }

  /**
   * The goals solve_goals collects for the level below while it selects
   * `sel` in order: each action appends those of its preconditions whose
   * propnum is not yet listed.
   */
  function LayerPrecs(nodes: seq<PropNode>, acts: seq<ActionNode>, sel: seq<nat>): (r: seq<nat>)
    requires IndicesBelow(sel, |acts|) && PrecsBelow(acts, |nodes|)
    ensures IndicesBelow(r, |nodes|) && PrecsListed(nodes, acts, sel, r)
    decreases |sel|
  {
    if sel == [] then []
    else
      var init := sel[..|sel| - 1];
      assert sel == init + [sel[|sel| - 1]];
      var listed := LayerPrecs(nodes, acts, init);
      PickPrecsListed(nodes, acts, init, sel[|sel| - 1], listed);
      listed + Remove(nodes, acts[sel[|sel| - 1]].precs, listed)
  }

  /** A selection with an empty goal list for the level below consists of actions without preconditions. */
  lemma {:induction false} NoPrecsListed(nodes: seq<PropNode>, acts: seq<ActionNode>, sel: seq<nat>, i: nat)
    requires IndicesBelow(sel, |acts|) && PrecsBelow(acts, |nodes|) && i < |sel|
    requires LayerPrecs(nodes, acts, sel) == []
    ensures acts[sel[i]].precs == []
    decreases |sel|
  {
    var init := sel[..|sel| - 1];
    assert forall j :: 0 <= j < |init| ==> init[j] == sel[j];
    RemoveNothing(nodes, acts[sel[|sel| - 1]].precs);
    if i < |sel| - 1 {
      NoPrecsListed(nodes, acts, init, i);
    }
  }

  /** Minimality is about which goals there are, not their order. */
  lemma MinimalPermuted(nodes: seq<PropNode>, acts: seq<ActionNode>, goals: seq<nat>, other: seq<nat>, sel: seq<nat>)
    requires IndicesBelow(goals, |nodes|) && IndicesBelow(other, |nodes|) && IndicesBelow(sel, |acts|) && AddsBelow(acts, |nodes|)
    requires multiset(goals) == multiset(other) && Minimal(nodes, acts, goals, sel)
    ensures Minimal(nodes, acts, other, sel)
  {
    forall i | 0 <= i < |sel|
      ensures !Redundant(nodes, acts, other, sel, i)
    {
      WithoutBelow(sel, sel[i], |acts|);
      var reduced := Without(sel, sel[i]);
      assert !Redundant(nodes, acts, goals, sel, i);
      if AchievesAll(nodes, acts, reduced, other) {
        AchievesAllPermuted(nodes, acts, reduced, other, goals);
      }
    }
  }

  /** Every goal is still pending or already achieved by the selection. */
  predicate GoalsAccounted(nodes: seq<PropNode>, acts: seq<ActionNode>, sel: seq<nat>, goals: seq<nat>, remaining: seq<nat>)
    requires IndicesBelow(goals, |nodes|) && IndicesBelow(remaining, |nodes|)
    requires IndicesBelow(sel, |acts|) && AddsBelow(acts, |nodes|)
  {
    forall k :: 0 <= k < |goals| ==> NumIn(nodes, goals[k], remaining) || Achieves(nodes, acts, sel, goals[k])
  }

  /** What holds of the arguments of every solve_goals call. */
  ghost predicate SearchState(P: seq<seq<PropNode>>, A: seq<seq<ActionNode>>, goals: seq<nat>, remaining: seq<nat>,
                              newGoals: seq<nat>, selected: seq<seq<nat>>, lvl: nat)
  {
    && Searchable(P, A)
    && lvl + |selected| < |P|
    && IndicesBelow(newGoals, |P[lvl]|)
    && (selected != [] ==> LayerOk(A, lvl, selected[0]) && newGoals == LayerPrecs(P[lvl], A[lvl], selected[0]))
    && (selected != [] && remaining == [] ==> selected[0] != [])
    && (remaining != [] ==>
          && selected != []
          && IndicesBelow(goals, |P[lvl + 1]|) && IndicesBelow(remaining, |P[lvl + 1]|)
          && GoalsAccounted(P[lvl + 1], A[lvl], selected[0], goals, remaining))
  }

  /**
   * What a plan returned by a solve_goals call guarantees: the levels
   * below the current one are finished, sound and minimal, the levels
   * above are the ones already selected, and the current level achieves
   * the goals and is minimal for them.
   */
  ghost predicate Found(P: seq<seq<PropNode>>, A: seq<seq<ActionNode>>, goals: seq<nat>, remaining: seq<nat>,
                        newGoals: seq<nat>, selected: seq<seq<nat>>, lvl: nat, plan: seq<seq<nat>>)
    requires SearchState(P, A, goals, remaining, newGoals, selected, lvl)
  {
    && |plan| == lvl + |selected|
    && (forall k :: 0 <= k <= lvl && k < |plan| ==> LayerOk(A, k, plan[k]))
    && (forall k :: 1 <= k <= lvl && k < |plan| ==> Supported(P, A, k, plan[k], plan[k - 1]))
    && (remaining == [] ==> plan[lvl..] == selected)
    && (remaining != [] ==>
          && plan[lvl + 1..] == selected[1..]
          && selected[0] <= plan[lvl]
          && AchievesAll(P[lvl + 1], A[lvl], plan[lvl], goals)
          && Minimal(P[lvl + 1], A[lvl], goals, plan[lvl]))
    && (remaining == [] && lvl > 0 ==> AchievesAll(P[lvl], A[lvl - 1], plan[lvl - 1], newGoals))
    && (forall k :: 0 <= k < lvl && k + 1 < |plan| ==> Minimal(P[k + 1], A[k], LayerPrecs(P[k + 1], A[k + 1], plan[k + 1]), plan[k]))
    && (remaining == [] && 0 < lvl == |plan| ==> Minimal(P[lvl], A[lvl - 1], newGoals, plan[lvl - 1]))
  }

  // ---------------------------------------------------------------------
  // One step of the search at a time

  /** Achievement is about propnums: a node with the same propnum is achieved too. */
  lemma AchievesByNum(nodes: seq<PropNode>, acts: seq<ActionNode>, sel: seq<nat>, x: nat, y: nat)
    requires x < |nodes| && y < |nodes| && IndicesBelow(sel, |acts|) && AddsBelow(acts, |nodes|)
    requires nodes[x].prop.num == nodes[y].prop.num && Achieves(nodes, acts, sel, x)
    ensures Achieves(nodes, acts, sel, y)
  {
  }

  /** Goals achieved one by one are achieved for any list of the same nodes. */
  lemma AchievesAllPermuted(nodes: seq<PropNode>, acts: seq<ActionNode>, sel: seq<nat>, goals: seq<nat>, other: seq<nat>)
    requires IndicesBelow(goals, |nodes|) && IndicesBelow(other, |nodes|) && IndicesBelow(sel, |acts|) && AddsBelow(acts, |nodes|)
    requires multiset(goals) == multiset(other) && AchievesAll(nodes, acts, sel, goals)
    ensures AchievesAll(nodes, acts, sel, other)
  {
    forall k | 0 <= k < |other|
      ensures Achieves(nodes, acts, sel, other[k])
    {
      assert other[k] in multiset(goals);
      var m :| 0 <= m < |goals| && goals[m] == other[k];
    }
  }

  /** Reaching level 0 ends the search with the selection made so far. */
  lemma BaseFound(P: seq<seq<PropNode>>, A: seq<seq<ActionNode>>, goals: seq<nat>, newGoals: seq<nat>, selected: seq<seq<nat>>)
    requires SearchState(P, A, goals, [], newGoals, selected, 0)
    ensures Found(P, A, goals, [], newGoals, selected, 0, selected)
  {
  }

  /** Descending a level: the sorted goal list is a proper search state one level down. */
  lemma AdvanceState(P: seq<seq<PropNode>>, A: seq<seq<ActionNode>>, goals: seq<nat>, newGoals: seq<nat>,
                     selected: seq<seq<nat>>, lvl: nat)
    requires SearchState(P, A, goals, [], newGoals, selected, lvl) && lvl > 0 && newGoals != []
    ensures var s := SortByNum(P[lvl], newGoals);
            SearchState(P, A, s, s, [], [[]] + selected, lvl - 1)
  {
    var s := SortByNum(P[lvl], newGoals);
    PermutationBelow(newGoals, s, |P[lvl]|);
    assert |s| == |multiset(s)| == |multiset(newGoals)| == |newGoals|;
    var sel := [[]] + selected;
    assert sel[0] == [];
    forall k | 0 <= k < |s|
      ensures NumIn(P[lvl], s[k], s)
    {
      assert P[lvl][s[k]].prop.num == P[lvl][s[k]].prop.num;
    }
  }

  /** Preconditions listed among goals that the selection below achieves are achieved themselves. */
  lemma ListedAchieved(nodes: seq<PropNode>, acts: seq<ActionNode>, below: seq<ActionNode>, sel: seq<nat>,
                       belowSel: seq<nat>, newGoals: seq<nat>)
    requires IndicesBelow(sel, |acts|) && PrecsBelow(acts, |nodes|) && IndicesBelow(newGoals, |nodes|)
    requires IndicesBelow(belowSel, |below|) && AddsBelow(below, |nodes|)
    requires PrecsListed(nodes, acts, sel, newGoals) && AchievesAll(nodes, below, belowSel, newGoals)
    ensures forall i, p :: 0 <= i < |sel| && 0 <= p < |acts[sel[i]].precs| ==>
              Achieves(nodes, below, belowSel, acts[sel[i]].precs[p])
  {
  }

  /** A plan found one level down is a plan for the goals collected at this level. */
  lemma AdvanceFound(P: seq<seq<PropNode>>, A: seq<seq<ActionNode>>, goals: seq<nat>, newGoals: seq<nat>,
                     selected: seq<seq<nat>>, lvl: nat, plan: seq<seq<nat>>)
    requires SearchState(P, A, goals, [], newGoals, selected, lvl) && lvl > 0 && newGoals != []
    requires SearchState(P, A, SortByNum(P[lvl], newGoals), SortByNum(P[lvl], newGoals), [], [[]] + selected, lvl - 1)
    requires Found(P, A, SortByNum(P[lvl], newGoals), SortByNum(P[lvl], newGoals), [], [[]] + selected, lvl - 1, plan)
    ensures Found(P, A, goals, [], newGoals, selected, lvl, plan)
  {
    var s := SortByNum(P[lvl], newGoals);
    var sel := [[]] + selected;
    assert plan[lvl..] == sel[1..] == selected;
    AchievesAllPermuted(P[lvl], A[lvl - 1], plan[lvl - 1], s, newGoals);
    MinimalPermuted(P[lvl], A[lvl - 1], s, newGoals, plan[lvl - 1]);
    if lvl < |plan| {
      assert plan[lvl] == selected[0];
      ListedAchieved(P[lvl], A[lvl], A[lvl - 1], plan[lvl], plan[lvl - 1], newGoals);
    }
  }

  /** The goal list after selecting `a`: every goal `a` adds is struck off. */
  function NextRemaining(P: seq<seq<PropNode>>, A: seq<seq<ActionNode>>, remaining: seq<nat>, lvl: nat, a: nat): seq<nat>
    requires ArenaIndexed(P, A) && lvl < |A| && a < |A[lvl]| && IndicesBelow(remaining, |P[lvl + 1]|)
  {
    Remove(P[lvl + 1], remaining, A[lvl][a].adds)
  }

  /** The next level's goals after selecting `a`: its preconditions not already listed are appended. */
  function NextNewGoals(P: seq<seq<PropNode>>, A: seq<seq<ActionNode>>, newGoals: seq<nat>, lvl: nat, a: nat): seq<nat>
    requires ArenaIndexed(P, A) && lvl < |A| && a < |A[lvl]| && IndicesBelow(newGoals, |P[lvl]|)
  {
    newGoals + Remove(P[lvl], A[lvl][a].precs, newGoals)
  }

  /** Selecting an achiever of the first pending goal that no selected action excludes. */
  ghost predicate CanPick(P: seq<seq<PropNode>>, A: seq<seq<ActionNode>>, goals: seq<nat>, remaining: seq<nat>,
                          newGoals: seq<nat>, selected: seq<seq<nat>>, lvl: nat, a: nat)
  {
    && SearchState(P, A, goals, remaining, newGoals, selected, lvl)
    && remaining != []
    && a in P[lvl + 1][remaining[0]].adders
    && (forall t :: 0 <= t < |selected[0]| ==> a !in A[lvl][selected[0][t]].excludes)
  }

  /**
   * `a` passed every test of solve_goals' loop: no selected action
   * excludes it, forward_cutoff as written does not fire on the pending
   * goals after the first, and the extended selection stays minimal.
   */
  ghost predicate Chosen(P: seq<seq<PropNode>>, A: seq<seq<ActionNode>>, goals: seq<nat>, remaining: seq<nat>,
                         newGoals: seq<nat>, selected: seq<seq<nat>>, lvl: nat, a: nat)
  {
    && CanPick(P, A, goals, remaining, newGoals, selected, lvl, a)
    && a < |A[lvl]|
    && !CutOffAsWritten(P[lvl + 1], A[lvl], remaining[1..], selected[0] + [a])
    && Minimal(P[lvl + 1], A[lvl], goals, selected[0] + [a])
  }

  /** Appending the preconditions of `a` not yet listed keeps every selected action's preconditions listed. */
  lemma PickPrecsListed(nodes: seq<PropNode>, acts: seq<ActionNode>, sel: seq<nat>, a: nat, newGoals: seq<nat>)
    requires IndicesBelow(sel, |acts|) && a < |acts| && PrecsBelow(acts, |nodes|) && IndicesBelow(newGoals, |nodes|)
    requires PrecsListed(nodes, acts, sel, newGoals)
    ensures IndicesBelow(sel + [a], |acts|)
    ensures IndicesBelow(newGoals + Remove(nodes, acts[a].precs, newGoals), |nodes|)
    ensures PrecsListed(nodes, acts, sel + [a], newGoals + Remove(nodes, acts[a].precs, newGoals))
  {
    var added := Remove(nodes, acts[a].precs, newGoals);
    var nn := newGoals + added;
    var sel0 := sel + [a];
    forall i, p | 0 <= i < |sel0| && 0 <= p < |acts[sel0[i]].precs|
      ensures NumIn(nodes, acts[sel0[i]].precs[p], nn)
    {
      var q := acts[sel0[i]].precs[p];
      if i < |sel| || NumIn(nodes, q, newGoals) {
        assert i < |sel| ==> sel0[i] == sel[i];
        var m :| 0 <= m < |newGoals| && nodes[newGoals[m]].prop.num == nodes[q].prop.num;
        assert nn[m] == newGoals[m];
      } else {
        assert q in added;
        var m :| 0 <= m < |added| && added[m] == q;
        assert nn[|newGoals| + m] == q;
      }
    }
  }

  /** Striking off the goals `a` adds keeps every goal pending or achieved once `a` is selected. */
  lemma PickAccounted(nodes: seq<PropNode>, acts: seq<ActionNode>, sel: seq<nat>, a: nat, goals: seq<nat>, remaining: seq<nat>)
    requires IndicesBelow(goals, |nodes|) && IndicesBelow(remaining, |nodes|)
    requires IndicesBelow(sel, |acts|) && a < |acts| && AddsBelow(acts, |nodes|)
    requires GoalsAccounted(nodes, acts, sel, goals, remaining)
    ensures IndicesBelow(sel + [a], |acts|)
    ensures GoalsAccounted(nodes, acts, sel + [a], goals, Remove(nodes, remaining, acts[a].adds))
  {
    var nr := Remove(nodes, remaining, acts[a].adds);
    var sel0 := sel + [a];
    forall g | 0 <= g < |goals|
      ensures NumIn(nodes, goals[g], nr) || Achieves(nodes, acts, sel0, goals[g])
    {
      if Achieves(nodes, acts, sel, goals[g]) {
        var j :| 0 <= j < |sel| && NumIn(nodes, goals[g], acts[sel[j]].adds);
        assert sel0[j] == sel[j];
      } else {
        var m :| 0 <= m < |remaining| && nodes[remaining[m]].prop.num == nodes[goals[g]].prop.num;
        if NumIn(nodes, remaining[m], acts[a].adds) {
          NumInTransfer(nodes, remaining[m], goals[g], acts[a].adds);
          assert sel0[|sel0| - 1] == a;
        } else {
          assert remaining[m] in nr;
          var m' :| 0 <= m' < |nr| && nr[m'] == remaining[m];
        }
      }
    }
  }

  /** After selecting `a` the search is in a proper state with fewer pending goals. */
  lemma PickState(P: seq<seq<PropNode>>, A: seq<seq<ActionNode>>, goals: seq<nat>, remaining: seq<nat>,
                  newGoals: seq<nat>, selected: seq<seq<nat>>, lvl: nat, a: nat)
    requires CanPick(P, A, goals, remaining, newGoals, selected, lvl, a)
    ensures a < |A[lvl]|
    ensures SearchState(P, A, goals, NextRemaining(P, A, remaining, lvl, a), NextNewGoals(P, A, newGoals, lvl, a),
                        [selected[0] + [a]] + selected[1..], lvl)
    ensures |NextRemaining(P, A, remaining, lvl, a)| < |remaining|
    ensures GoalsAccounted(P[lvl + 1], A[lvl], selected[0] + [a], goals, NextRemaining(P, A, remaining, lvl, a))
  {
    var nodes, acts := P[lvl + 1], A[lvl];
    var k :| 0 <= k < |nodes[remaining[0]].adders| && nodes[remaining[0]].adders[k] == a;
    assert remaining[0] in acts[a].adds;
    var sel0 := selected[0] + [a];
    var ns := [sel0] + selected[1..];
    assert ns[0] == sel0;
    // the first pending goal is struck off
    var w :| 0 <= w < |acts[a].adds| && acts[a].adds[w] == remaining[0];
    assert NumIn(nodes, remaining[0], acts[a].adds);
    assert sel0[..|sel0| - 1] == selected[0];
    PickAccounted(nodes, acts, selected[0], a, goals, remaining);
  }

  /** A plan found after selecting an admissible `a` is a plan for the state before. */
  lemma PickFound(P: seq<seq<PropNode>>, A: seq<seq<ActionNode>>, goals: seq<nat>, remaining: seq<nat>,
                  newGoals: seq<nat>, selected: seq<seq<nat>>, lvl: nat, a: nat, plan: seq<seq<nat>>)
    requires Chosen(P, A, goals, remaining, newGoals, selected, lvl, a)
    requires SearchState(P, A, goals, NextRemaining(P, A, remaining, lvl, a), NextNewGoals(P, A, newGoals, lvl, a),
                         [selected[0] + [a]] + selected[1..], lvl)
    requires Found(P, A, goals, NextRemaining(P, A, remaining, lvl, a), NextNewGoals(P, A, newGoals, lvl, a),
                   [selected[0] + [a]] + selected[1..], lvl, plan)
    ensures Found(P, A, goals, remaining, newGoals, selected, lvl, plan)
  {
    var nr := NextRemaining(P, A, remaining, lvl, a);
    var sel0 := selected[0] + [a];
    var ns := [sel0] + selected[1..];
    assert ns[0] == sel0 && ns[1..] == selected[1..];
    PickState(P, A, goals, remaining, newGoals, selected, lvl, a);
    if nr == [] {
      assert plan[lvl..] == ns;
      assert plan[lvl] == sel0 && plan[lvl + 1..] == selected[1..];
      forall g | 0 <= g < |goals|
        ensures Achieves(P[lvl + 1], A[lvl], plan[lvl], goals[g])
      {
        assert !NumIn(P[lvl + 1], goals[g], nr);
        assert Achieves(P[lvl + 1], A[lvl], ns[0], goals[g]);
      }
    }
  }

  /** A plan found from the top call of the search is a plan for the goals. */
  lemma TopFound(P: seq<seq<PropNode>>, A: seq<seq<ActionNode>>, goals: seq<nat>, plan: seq<seq<nat>>)
    requires SearchState(P, A, goals, [], goals, [], |A|) && |A| > 0
    requires Found(P, A, goals, [], goals, [], |A|, plan)
    ensures PlanOk(P, A, plan, goals)
  {
  }
}
