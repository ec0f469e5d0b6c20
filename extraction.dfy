/**
 * The helpers the backward plan search uses on one level of the graph:
 * goal-list filtering, the sorted memo key, and the three pruning tests
 * (mutually_exclusive, forward_cutoff, minimal_action_set). Goals and
 * selected actions are indices into a proposition level `nodes` and an
 * action level `acts`; proposition nodes compare by propnum (`NumIn`).
 */
module Extraction {
  import opened Wrappers
  import opened Lists
  import opened Terms
  import opened Graph

  /** Every action of the level adds propositions of a level of `n` nodes. */
  predicate AddsBelow(acts: seq<ActionNode>, n: nat) {
    forall i :: 0 <= i < |acts| ==> IndicesBelow(acts[i].adds, n)
  }

  // ---------------------------------------------------------------------
  // Goal lists

  /** The goals of `gs`, in order, whose propnum no node of `adds` carries (proposition nodes compare by propnum). */
  function Remove(nodes: seq<PropNode>, gs: seq<nat>, adds: seq<nat>): (r: seq<nat>)
    requires IndicesBelow(gs, |nodes|) && IndicesBelow(adds, |nodes|)
    ensures IndicesBelow(r, |nodes|) && |r| <= |gs|
    ensures forall k :: 0 <= k < |r| ==> r[k] in gs && !NumIn(nodes, r[k], adds)
    ensures forall k :: 0 <= k < |gs| && !NumIn(nodes, gs[k], adds) ==> gs[k] in r
    ensures (exists k :: 0 <= k < |gs| && NumIn(nodes, gs[k], adds)) ==> |r| < |gs|
    decreases |gs|
  {
    if gs == [] then []
    else
      var init := gs[..|gs| - 1];
      var rest := Remove(nodes, init, adds);
      assert forall k :: 0 <= k < |gs| - 1 ==> gs[k] == init[k];
      if NumIn(nodes, gs[|gs| - 1], adds) then rest else rest + [gs[|gs| - 1]]
  }

  /** Striking off nothing keeps every goal. */
  lemma {:induction false} RemoveNothing(nodes: seq<PropNode>, gs: seq<nat>)
    requires IndicesBelow(gs, |nodes|)
    ensures Remove(nodes, gs, []) == gs
    decreases |gs|
  {
    if gs != [] {
      RemoveNothing(nodes, gs[..|gs| - 1]);
      assert gs == gs[..|gs| - 1] + [gs[|gs| - 1]];
    }
  }

  /** A node is `in` a list that contains a node with its propnum. */
  lemma NumInTransfer(nodes: seq<PropNode>, x: nat, y: nat, list: seq<nat>)
    requires x < |nodes| && y < |nodes| && IndicesBelow(list, |nodes|)
    requires nodes[x].prop.num == nodes[y].prop.num && NumIn(nodes, x, list)
    ensures NumIn(nodes, y, list)
  {
  }

  // ---------------------------------------------------------------------
  // The memo key: goals sorted by propnum

  /** The propnum a node is sorted by (every node of a planning graph has one). */
  function Key(nodes: seq<PropNode>, i: nat): nat {
    if i < |nodes| && nodes[i].prop.num.Some? then nodes[i].prop.num.value else 0
  }

  /** The goals are in ascending propnum order. */
  predicate SortedByNum(nodes: seq<PropNode>, s: seq<nat>) {
    forall i, j :: 0 <= i < j < |s| ==> Key(nodes, s[i]) <= Key(nodes, s[j])
  }

  /** Insert `x` after every element whose propnum is not larger (keeps the sort stable). */
  function Insert(nodes: seq<PropNode>, x: nat, s: seq<nat>): seq<nat> {
    if s == [] then [x]
    else if Key(nodes, x) < Key(nodes, s[0]) then [x] + s
    else [s[0]] + Insert(nodes, x, s[1..])
  }

  lemma {:induction false} InsertPermutes(nodes: seq<PropNode>, x: nat, s: seq<nat>)
    ensures multiset(Insert(nodes, x, s)) == multiset(s) + multiset{x}
  {
    if s != [] && Key(nodes, x) >= Key(nodes, s[0]) {
      InsertPermutes(nodes, x, s[1..]);
      assert s == [s[0]] + s[1..];
    }
  }

  lemma {:induction false} InsertSorted(nodes: seq<PropNode>, x: nat, s: seq<nat>)
    requires SortedByNum(nodes, s)
    ensures SortedByNum(nodes, Insert(nodes, x, s))
  {
    if s != [] && Key(nodes, x) >= Key(nodes, s[0]) {
      var tail := Insert(nodes, x, s[1..]);
      InsertSorted(nodes, x, s[1..]);
      InsertPermutes(nodes, x, s[1..]);
      forall k | 0 <= k < |tail|
        ensures Key(nodes, s[0]) <= Key(nodes, tail[k])
      {
        assert tail[k] in multiset(tail);
        if tail[k] != x {
          assert tail[k] in multiset(s[1..]);
          var m :| 0 <= m < |s[1..]| && s[1..][m] == tail[k];
          assert s[m + 1] == tail[k];
        }
      }
    }
  }

  /** new_goals.sort(): a stable sort by propnum. */
  function SortByNum(nodes: seq<PropNode>, s: seq<nat>): (r: seq<nat>)
    ensures SortedByNum(nodes, r)
    ensures multiset(r) == multiset(s)
    decreases |s|
  {
    if s == [] then []
    else
      var init := s[..|s| - 1];
      assert s == init + [s[|s| - 1]];
      var sortedInit := SortByNum(nodes, init);
      InsertSorted(nodes, s[|s| - 1], sortedInit);
      InsertPermutes(nodes, s[|s| - 1], sortedInit);
      Insert(nodes, s[|s| - 1], sortedInit)
  }

  /** A rearrangement of valid indices is made of valid indices. */
  lemma PermutationBelow(s: seq<nat>, t: seq<nat>, n: nat)
    requires multiset(s) == multiset(t) && IndicesBelow(s, n)
    ensures IndicesBelow(t, n)
  {
    forall k | 0 <= k < |t|
      ensures t[k] < n
    {
      assert t[k] in multiset(s);
    }
  }

  /** The propnums of a goal list, in order. */
  function Nums(nodes: seq<PropNode>, s: seq<nat>): (r: seq<nat>)
    ensures |r| == |s|
  {
    if s == [] then [] else [Key(nodes, s[0])] + Nums(nodes, s[1..])
  }

  /**
   * The memo key of a goal set: the tuple of its nodes after sorting,
   * where tuple equality compares nodes by propnum.
   */
  function GoalKey(nodes: seq<PropNode>, goals: seq<nat>): seq<nat> {
    Nums(nodes, SortByNum(nodes, goals))
  }

  predicate Ascending(s: seq<nat>) {
    forall i, j :: 0 <= i < j < |s| ==> s[i] <= s[j]
  }

  lemma {:induction false} NumsAppend(nodes: seq<PropNode>, s: seq<nat>, x: nat)
    ensures Nums(nodes, s + [x]) == Nums(nodes, s) + [Key(nodes, x)]
    decreases |s|
  {
    if s != [] {
      assert (s + [x])[1..] == s[1..] + [x];
      NumsAppend(nodes, s[1..], x);
    }
  }

  lemma {:induction false} NumsIndexed(nodes: seq<PropNode>, s: seq<nat>)
    ensures forall k :: 0 <= k < |s| ==> Nums(nodes, s)[k] == Key(nodes, s[k])
    decreases |s|
  {
    if s != [] {
      NumsIndexed(nodes, s[1..]);
    }
  }

  lemma {:induction false} NumsInsert(nodes: seq<PropNode>, x: nat, s: seq<nat>)
    ensures multiset(Nums(nodes, Insert(nodes, x, s))) == multiset(Nums(nodes, s)) + multiset{Key(nodes, x)}
  {
    if s != [] && Key(nodes, x) >= Key(nodes, s[0]) {
      NumsInsert(nodes, x, s[1..]);
    }
  }

  lemma {:induction false} NumsSort(nodes: seq<PropNode>, s: seq<nat>)
    ensures multiset(Nums(nodes, SortByNum(nodes, s))) == multiset(Nums(nodes, s))
    decreases |s|
  {
    if s != [] {
      var init, x := s[..|s| - 1], s[|s| - 1];
      var sortedInit := SortByNum(nodes, init);
      assert SortByNum(nodes, s) == Insert(nodes, x, sortedInit);
      assert s == init + [x];
      calc {
        multiset(Nums(nodes, SortByNum(nodes, s)));
        { NumsInsert(nodes, x, sortedInit); }
        multiset(Nums(nodes, sortedInit)) + multiset{Key(nodes, x)};
        { NumsSort(nodes, init); }
        multiset(Nums(nodes, init)) + multiset{Key(nodes, x)};
        multiset(Nums(nodes, init) + [Key(nodes, x)]);
        { NumsAppend(nodes, init, x); }
        multiset(Nums(nodes, s));
      }
    }
  }

  lemma SortedNumsAscending(nodes: seq<PropNode>, s: seq<nat>)
    requires SortedByNum(nodes, s)
    ensures Ascending(Nums(nodes, s))
  {
    NumsIndexed(nodes, s);
  }

  /** The smallest element of an ascending sequence is its first. */
  lemma AscendingFirst(s: seq<nat>, x: nat)
    requires Ascending(s) && x in s
    ensures s[0] <= x
  {
  }

  /** Two ascending sequences with the same elements are equal. */
  lemma {:induction false} AscendingUnique(s: seq<nat>, t: seq<nat>)
    requires Ascending(s) && Ascending(t) && multiset(s) == multiset(t)
    ensures s == t
    decreases |s|
  {
    assert |s| == |multiset(s)| == |multiset(t)| == |t|;
    if s != [] {
      AscendingHeads(s, t);
      MultisetTail(s);
      MultisetTail(t);
      AscendingTail(s);
      AscendingTail(t);
      AscendingUnique(s[1..], t[1..]);
      assert s == [s[0]] + s[1..] && t == [t[0]] + t[1..];
    }
  }

  lemma AscendingHeads(s: seq<nat>, t: seq<nat>)
    requires Ascending(s) && Ascending(t) && multiset(s) == multiset(t) && s != [] && t != []
    ensures s[0] == t[0]
  {
    assert s[0] in multiset(t) && t[0] in multiset(s);
    AscendingFirst(t, s[0]);
    AscendingFirst(s, t[0]);
  }

  lemma MultisetTail(s: seq<nat>)
    requires s != []
    ensures multiset(s[1..]) == multiset(s) - multiset{s[0]}
  {
    assert s == [s[0]] + s[1..];
  }

  lemma AscendingTail(s: seq<nat>)
    requires Ascending(s) && s != []
    ensures Ascending(s[1..])
  {
    forall i, j | 0 <= i < j < |s[1..]|
      ensures s[1..][i] <= s[1..][j]
    {
      assert s[1..][i] == s[i + 1] && s[1..][j] == s[j + 1];
    }
  }

  /**
   * Goal lists that are equal as multisets of propositions (PropNode
   * equality) have the same memo key, whatever their order.
   */
  lemma GoalKeyOrderFree(nodes: seq<PropNode>, g1: seq<nat>, g2: seq<nat>)
    requires multiset(Nums(nodes, g1)) == multiset(Nums(nodes, g2))
    ensures GoalKey(nodes, g1) == GoalKey(nodes, g2)
  {
    NumsSort(nodes, g1);
    NumsSort(nodes, g2);
    SortedNumsAscending(nodes, SortByNum(nodes, g1));
    SortedNumsAscending(nodes, SortByNum(nodes, g2));
    AscendingUnique(GoalKey(nodes, g1), GoalKey(nodes, g2));
  }

  /** The memo key lists the goals' propnums in ascending order. */
  lemma GoalKeySorted(nodes: seq<PropNode>, goals: seq<nat>)
    ensures Ascending(GoalKey(nodes, goals))
    ensures multiset(GoalKey(nodes, goals)) == multiset(Nums(nodes, goals))
  {
    NumsSort(nodes, goals);
    SortedNumsAscending(nodes, SortByNum(nodes, goals));
  }

  // ---------------------------------------------------------------------
  // mutually_exclusive

  /** Some goal lists a later goal among its excludes. */
  predicate GoalsMutex(nodes: seq<PropNode>, goals: seq<nat>)
    requires ExcludesIndexed(nodes) && IndicesBelow(goals, |nodes|)
  {
    exists i, j :: 0 <= i < j < |goals| && NumIn(nodes, goals[j], nodes[goals[i]].excludes)
  }

  /** PlanningProblem.mutually_exclusive. */
  method MutuallyExclusive(nodes: seq<PropNode>, goals: seq<nat>) returns (r: bool)
    requires ExcludesIndexed(nodes) && IndicesBelow(goals, |nodes|)
    ensures r <==> GoalsMutex(nodes, goals)
  {
    for i := 0 to |goals|
      invariant forall i', j :: 0 <= i' < i && i' < j < |goals| ==> !NumIn(nodes, goals[j], nodes[goals[i']].excludes)
    {
      for j := i + 1 to |goals|
        invariant forall j' :: i < j' < j ==> !NumIn(nodes, goals[j'], nodes[goals[i]].excludes)
      {
        if NumIn(nodes, goals[j], nodes[goals[i]].excludes) {
          return true;
        }
      }
    }
    return false;
  }

  /** A goal set with a mutex pair keeps it when more goals are added. */
  lemma GoalsMutexExtends(nodes: seq<PropNode>, goals: seq<nat>, more: seq<nat>)
    requires ExcludesIndexed(nodes) && IndicesBelow(goals, |nodes|) && IndicesBelow(more, |nodes|)
    requires GoalsMutex(nodes, goals)
    ensures GoalsMutex(nodes, goals + more) && GoalsMutex(nodes, more + goals)
  {
    var i, j :| 0 <= i < j < |goals| && NumIn(nodes, goals[j], nodes[goals[i]].excludes);
    assert (goals + more)[i] == goals[i] && (goals + more)[j] == goals[j];
    assert (more + goals)[|more| + i] == goals[i] && (more + goals)[|more| + j] == goals[j];
  }

  // ---------------------------------------------------------------------
  // forward_cutoff

  /** The achievers in `pa` that are not in their own excludes list: forward_cutoff's filter tests each achiever against itself. */
  function SelfKept(acts: seq<ActionNode>, pa: seq<nat>): (r: seq<nat>)
    requires IndicesBelow(pa, |acts|)
    ensures IndicesBelow(r, |acts|) && |r| <= |pa|
    decreases |pa|
  {
    if pa == [] then []
    else
      var rest := SelfKept(acts, pa[..|pa| - 1]);
      var a := pa[|pa| - 1];
      if a in acts[a].excludes then rest else rest + [a]
  }

  /** No action excludes itself. */
  predicate Irreflexive(acts: seq<ActionNode>) {
    forall i :: 0 <= i < |acts| ==> i !in acts[i].excludes
  }

  /** Every adder of a proposition of the level is an action of `acts`. */
  predicate AddersIn(nodes: seq<PropNode>, acts: seq<ActionNode>) {
    forall i :: 0 <= i < |nodes| ==> IndicesBelow(nodes[i].adders, |acts|)
  }

  /** What forward_cutoff computes: some goal's achievers vanish under the filter, once any action is selected. */
  predicate CutOffAsWritten(nodes: seq<PropNode>, acts: seq<ActionNode>, goals: seq<nat>, actions: seq<nat>)
    requires IndicesBelow(goals, |nodes|) && AddersIn(nodes, acts)
  {
    |actions| > 0 && exists k :: 0 <= k < |goals| && SelfKept(acts, nodes[goals[k]].adders) == []
  }

  /** What forward_cutoff's documentation promises: every achiever of some goal is excluded by a selected action. */
  predicate CutOffIntended(nodes: seq<PropNode>, acts: seq<ActionNode>, goals: seq<nat>, actions: seq<nat>)
    requires IndicesBelow(goals, |nodes|) && AddersIn(nodes, acts) && IndicesBelow(actions, |acts|)
  {
    exists k :: 0 <= k < |goals| &&
      forall j :: 0 <= j < |nodes[goals[k]].adders| ==>
        exists s :: 0 <= s < |actions| && nodes[goals[k]].adders[j] in acts[actions[s]].excludes
  }

  lemma {:induction false} SelfKeptIdempotent(acts: seq<ActionNode>, pa: seq<nat>)
    requires IndicesBelow(pa, |acts|)
    ensures SelfKept(acts, SelfKept(acts, pa)) == SelfKept(acts, pa)
    decreases |pa|
  {
    if pa != [] {
      var init := pa[..|pa| - 1];
      var a := pa[|pa| - 1];
      SelfKeptIdempotent(acts, init);
      var rest := SelfKept(acts, init);
      if a !in acts[a].excludes {
        assert (rest + [a])[..|rest + [a]| - 1] == rest;
      }
    }
  }

  lemma {:induction false} SelfKeptIrreflexive(acts: seq<ActionNode>, pa: seq<nat>)
    requires IndicesBelow(pa, |acts|) && Irreflexive(acts)
    ensures SelfKept(acts, pa) == pa
    decreases |pa|
  {
    if pa != [] {
      SelfKeptIrreflexive(acts, pa[..|pa| - 1]);
      assert pa == pa[..|pa| - 1] + [pa[|pa| - 1]];
    }
  }

  /** PlanningProblem.forward_cutoff, as written. */
  method ForwardCutoff(nodes: seq<PropNode>, acts: seq<ActionNode>, goals: seq<nat>, actions: seq<nat>) returns (r: bool)
    requires IndicesBelow(goals, |nodes|) && AddersIn(nodes, acts)
    ensures r <==> CutOffAsWritten(nodes, acts, goals, actions)
  {
    for i := 0 to |goals|
      invariant |actions| > 0 ==> forall k :: 0 <= k < i ==> SelfKept(acts, nodes[goals[k]].adders) != []
    {
      var achievers := nodes[goals[i]].adders;
      for j := 0 to |actions|
        invariant j == 0 ==> achievers == nodes[goals[i]].adders
        invariant j > 0 ==> achievers == SelfKept(acts, nodes[goals[i]].adders) && achievers != []
      {
        SelfKeptIdempotent(acts, nodes[goals[i]].adders);
        achievers := SelfKept(acts, achievers);
        if |achievers| == 0 {
          return true;
        }
      }
    }
    return false;
  }

  /**
   * With irreflexive action mutex the test ignores which actions are
   * selected: it fires exactly when something is selected and some
   * remaining goal has no achiever at all.
   */
  lemma ForwardCutoffIgnoresSelection(nodes: seq<PropNode>, acts: seq<ActionNode>, goals: seq<nat>, actions: seq<nat>)
    requires IndicesBelow(goals, |nodes|) && AddersIn(nodes, acts) && Irreflexive(acts)
    ensures CutOffAsWritten(nodes, acts, goals, actions) <==>
            |actions| > 0 && exists k :: 0 <= k < |goals| && nodes[goals[k]].adders == []
  {
  }

  /** Whenever the test as written fires, the documented cutoff condition holds too: it prunes nothing it should keep. */
  lemma ForwardCutoffSound(nodes: seq<PropNode>, acts: seq<ActionNode>, goals: seq<nat>, actions: seq<nat>)
    requires IndicesBelow(goals, |nodes|) && AddersIn(nodes, acts) && Irreflexive(acts) && IndicesBelow(actions, |acts|)
    requires CutOffAsWritten(nodes, acts, goals, actions)
    ensures CutOffIntended(nodes, acts, goals, actions)
  {
  }

  /**
   * The converse fails: a goal whose only achiever is excluded by the
   * selected action is not cut off.
   */
  lemma ForwardCutoffMissesExcludedAchiever()
    ensures CutOffIntended([OneProp()], TwoActs(), [0], [1]) && !CutOffAsWritten([OneProp()], TwoActs(), [0], [1])
  {
    var nodes, acts, goals, actions := [OneProp()], TwoActs(), [0], [1];
    assert nodes[goals[0]].adders == [0];
    assert acts[actions[0]].excludes == [0];
    assert nodes[goals[0]].adders[0] in acts[actions[0]].excludes;
    assert 0 !in acts[0].excludes;
    assert SelfKept(acts, [0]) == [0];
  }

  /** A proposition with the single achiever 0. */
  function OneProp(): PropNode {
    PropNode(Prop(Atom("at", [], true), Some(1)), 1, [0], [], [], [])
  }

  /** Two mutually exclusive actions; action 0 adds proposition 0. */
  function TwoActs(): seq<ActionNode> {
    [ActionNode("move", 0, map[], [0], [0], [], [1]), ActionNode("stay", 0, map[], [0], [], [], [0])]
  }

  // ---------------------------------------------------------------------
  // minimal_action_set

  /** The selection without every occurrence of action `a`; action nodes compare by identity. */
  function Without(sel: seq<nat>, a: nat): (r: seq<nat>)
    ensures forall x :: x in r <==> x in sel && x != a
    ensures |r| <= |sel|
    decreases |sel|
  {
    if sel == [] then []
    else
      var rest := Without(sel[..|sel| - 1], a);
      assert sel == sel[..|sel| - 1] + [sel[|sel| - 1]];
      if sel[|sel| - 1] == a then rest else rest + [sel[|sel| - 1]]
  }

  lemma WithoutBelow(sel: seq<nat>, a: nat, n: nat)
    requires IndicesBelow(sel, n)
    ensures IndicesBelow(Without(sel, a), n)
  {
    var r := Without(sel, a);
    forall k | 0 <= k < |r|
      ensures r[k] < n
    {
      assert r[k] in sel;
    }
  }

  /** Some selected action adds a proposition with the propnum of `g`. */
  predicate Achieves(nodes: seq<PropNode>, acts: seq<ActionNode>, sel: seq<nat>, g: nat)
    requires g < |nodes| && IndicesBelow(sel, |acts|) && AddsBelow(acts, |nodes|)
  {
    exists j :: 0 <= j < |sel| && NumIn(nodes, g, acts[sel[j]].adds)
  }

  predicate AchievesAll(nodes: seq<PropNode>, acts: seq<ActionNode>, sel: seq<nat>, goals: seq<nat>)
    requires IndicesBelow(goals, |nodes|) && IndicesBelow(sel, |acts|) && AddsBelow(acts, |nodes|)
  {
    forall k :: 0 <= k < |goals| ==> Achieves(nodes, acts, sel, goals[k])
  }

  /** The goals left after removing what each selected action adds, in turn. */
  function Uncovered(nodes: seq<PropNode>, acts: seq<ActionNode>, goals: seq<nat>, sel: seq<nat>): (r: seq<nat>)
    requires IndicesBelow(goals, |nodes|) && IndicesBelow(sel, |acts|) && AddsBelow(acts, |nodes|)
    ensures IndicesBelow(r, |nodes|)
    ensures forall k :: 0 <= k < |r| ==> r[k] in goals && !Achieves(nodes, acts, sel, r[k])
    ensures forall k :: 0 <= k < |goals| && !Achieves(nodes, acts, sel, goals[k]) ==> goals[k] in r
    decreases |sel|
  {
    if sel == [] then goals
    else
      var init := sel[..|sel| - 1];
      assert forall j :: 0 <= j < |init| ==> init[j] == sel[j];
      Remove(nodes, Uncovered(nodes, acts, goals, init), acts[sel[|sel| - 1]].adds)
  }

  /** Dropping the action at position `i` still leaves some action, and those achieve every goal. */
  predicate Redundant(nodes: seq<PropNode>, acts: seq<ActionNode>, goals: seq<nat>, actions: seq<nat>, i: nat)
    requires IndicesBelow(goals, |nodes|) && IndicesBelow(actions, |acts|) && AddsBelow(acts, |nodes|)
    requires i < |actions|
  {
    WithoutBelow(actions, actions[i], |acts|);
    var reduced := Without(actions, actions[i]);
    reduced != [] && AchievesAll(nodes, acts, reduced, goals)
  }

  /** No selected action can be dropped with the goals still achieved. */
  predicate Minimal(nodes: seq<PropNode>, acts: seq<ActionNode>, goals: seq<nat>, actions: seq<nat>)
    requires IndicesBelow(goals, |nodes|) && IndicesBelow(actions, |acts|) && AddsBelow(acts, |nodes|)
  {
    forall i :: 0 <= i < |actions| ==> !Redundant(nodes, acts, goals, actions, i)
  }

  /** PlanningProblem.minimal_action_set. */
  method MinimalActionSet(nodes: seq<PropNode>, acts: seq<ActionNode>, goals: seq<nat>, actions: seq<nat>) returns (r: bool)
    requires IndicesBelow(goals, |nodes|) && IndicesBelow(actions, |acts|) && AddsBelow(acts, |nodes|)
    ensures r <==> forall i :: 0 <= i < |actions| ==> !Redundant(nodes, acts, goals, actions, i)
  {
    for i := 0 to |actions|
      invariant forall i' :: 0 <= i' < i ==> !Redundant(nodes, acts, goals, actions, i')
    {
      var reduced := Without(actions, actions[i]);
      WithoutBelow(actions, actions[i], |acts|);
      var covered := CoveredWithout(nodes, acts, goals, reduced);
      if covered {
        assert Redundant(nodes, acts, goals, actions, i);
        return false;
      }
    }
    return true;
  }

  /**
   * The inner loop of minimal_action_set: strike off what each remaining
   * action adds, answering as soon as no goal is left.
   */
  method CoveredWithout(nodes: seq<PropNode>, acts: seq<ActionNode>, goals: seq<nat>, reduced: seq<nat>) returns (covered: bool)
    requires IndicesBelow(goals, |nodes|) && IndicesBelow(reduced, |acts|) && AddsBelow(acts, |nodes|)
    ensures covered <==> reduced != [] && AchievesAll(nodes, acts, reduced, goals)
  {
    var toBeAchieved := goals;
    for j := 0 to |reduced|
      invariant toBeAchieved == Uncovered(nodes, acts, goals, reduced[..j])
      invariant j > 0 ==> toBeAchieved != []
    {
      assert reduced[..j + 1][..j] == reduced[..j];
      toBeAchieved := Remove(nodes, toBeAchieved, acts[reduced[j]].adds);
      if |toBeAchieved| == 0 {
        AchievesPrefix(nodes, acts, goals, reduced, j + 1);
        return true;
      }
    }
    assert reduced[..|reduced|] == reduced;
    if reduced != [] {
      assert toBeAchieved[0] in goals;
    }
    return false;
  }

  /** Goals achieved by a prefix of the selection are achieved by the selection. */
  lemma AchievesPrefix(nodes: seq<PropNode>, acts: seq<ActionNode>, goals: seq<nat>, sel: seq<nat>, n: nat)
    requires IndicesBelow(goals, |nodes|) && IndicesBelow(sel, |acts|) && AddsBelow(acts, |nodes|) && n <= |sel|
    requires Uncovered(nodes, acts, goals, sel[..n]) == []
    ensures AchievesAll(nodes, acts, sel, goals)
  {
  }
}
