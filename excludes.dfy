/**
 * The mutex links extend_graph_level records on a new level, as functions
 * of the level before any link is added: generate_action_excludes_links
 * visits every ordered pair of actions and records a mutex pair in both
 * directions; generate_proposition_excludes_links visits every ordered pair
 * of propositions and appends to the first one's excludes only.
 */
module ExcludeLinks {
  import opened Lists
  import opened Graph
  import opened Extraction
  import opened GraphEdits

  // ---------------------------------------------------------------------
  // Action excludes

  /** The links of an action level point into the proposition levels around it. */
  predicate LevelIndexed(cur: seq<PropNode>, next: seq<PropNode>, acts: seq<ActionNode>) {
    ExcludesIndexed(cur) && forall k :: 0 <= k < |acts| ==> ActionIndexed(acts[k], |cur|, |next|)
  }

  /** Visiting the ordered pair (k, x) of distinct actions finds them mutex. */
  predicate MutexTest(cur: seq<PropNode>, next: seq<PropNode>, acts: seq<ActionNode>, k: nat, x: nat)
    requires LevelIndexed(cur, next, acts)
  {
    k < |acts| && x < |acts| && k != x && ActionMutex(cur, next, acts[k], acts[x])
  }

  /** Actions `k` and `x` of the level are mutex: the test succeeds in one direction or the other. */
  predicate Mutex(cur: seq<PropNode>, next: seq<PropNode>, acts: seq<ActionNode>, k: nat, x: nat)
    requires LevelIndexed(cur, next, acts)
  {
    MutexTest(cur, next, acts, k, x) || MutexTest(cur, next, acts, x, k)
  }

  /** The nested loops visit the pair (k, x) before the pair (i, j). */
  predicate Before(k: nat, x: nat, i: nat, j: nat) {
    k < i || (k == i && x < j)
  }

  /**
   * The action level once the pairs before (i, j) are visited: only the
   * excludes of `acts0` changed, each without duplicates, and each holds
   * exactly the partners of the visited pairs found mutex.
   */
  ghost predicate ActionExcludesUpTo(cur: seq<PropNode>, next: seq<PropNode>, acts0: seq<ActionNode>, acts: seq<ActionNode>, i: nat, j: nat)
    requires LevelIndexed(cur, next, acts0)
  {
    && |acts| == |acts0|
    && (forall k :: 0 <= k < |acts| ==> acts[k] == acts0[k].(excludes := acts[k].excludes) && NoDup(acts[k].excludes))
    && (forall k, x :: 0 <= k < |acts| ==>
          (x in acts[k].excludes <==>
             (Before(k, x, i, j) && MutexTest(cur, next, acts0, k, x)) || (Before(x, k, i, j) && MutexTest(cur, next, acts0, x, k))))
  }

  /** The links of every action level of a well-formed graph point where they should. */
  lemma GraphLevelIndexed(P: seq<seq<PropNode>>, A: seq<seq<ActionNode>>, l: nat)
    requires GraphOk(P, A) && l < |A|
    ensures LevelIndexed(P[l], P[l + 1], A[l])
  {
    LevelExcludesIndexed(P, A, l);
    assert ActionLevelOk(l, A[l], |P[l]|, |P[l + 1]|);
    forall k | 0 <= k < |A[l]|
      ensures ActionIndexed(A[l][k], |P[l]|, |P[l + 1]|)
    {
      assert ActionOk(l, k, A[l][k], |A[l]|, |P[l]|, |P[l + 1]|);
    }
  }

  /** The test of one ordered pair in generate_action_excludes_links: deletes_addition, deletes_precondition or competing_needs. */
  method MutexPair(cur: seq<PropNode>, next: seq<PropNode>, a: ActionNode, b: ActionNode) returns (r: bool)
    requires ExcludesIndexed(cur) && ActionIndexed(a, |cur|, |next|) && ActionIndexed(b, |cur|, |next|)
    ensures r <==> ActionMutex(cur, next, a, b)
  {
    r := DeletesAddition(next, a, b);
    if !r {
      r := DeletesPrecondition(cur, next, a, b);
    }
    if !r {
      r := CompetingNeeds(cur, a, b);
    }
  }

  /**
   * Mutex reads neither the actions' excludes nor the next level's
   * excludes: links added to those leave it unchanged.
   */
  lemma MutexSame(cur: seq<PropNode>, next: seq<PropNode>, next': seq<PropNode>, acts: seq<ActionNode>, acts': seq<ActionNode>)
    requires LevelIndexed(cur, next, acts)
    requires |next'| == |next| && forall i :: 0 <= i < |next| ==> next'[i].prop == next[i].prop
    requires |acts'| == |acts| && forall k :: 0 <= k < |acts| ==> acts'[k] == acts[k].(excludes := acts'[k].excludes)
    ensures LevelIndexed(cur, next', acts')
    ensures forall k, x :: Mutex(cur, next, acts, k, x) <==> Mutex(cur, next', acts', k, x)
  {
    assert LevelIndexed(cur, next', acts') by {
      forall k | 0 <= k < |acts'|
        ensures ActionIndexed(acts'[k], |cur|, |next'|)
      {
        assert acts'[k].precs == acts[k].precs && acts'[k].adds == acts[k].adds && acts'[k].deletes == acts[k].deletes;
      }
    }
    forall k: nat, x: nat | k < |acts| && x < |acts|
      ensures ActionMutex(cur, next, acts[k], acts[x]) <==> ActionMutex(cur, next', acts'[k], acts'[x])
    {
      var a, b, a', b' := acts[k], acts[x], acts'[k], acts'[x];
      assert a'.precs == a.precs && a'.adds == a.adds && a'.deletes == a.deletes;
      assert b'.precs == b.precs && b'.adds == b.adds && b'.deletes == b.deletes;
      assert InconsistentEffects(next, a, b) <==> InconsistentEffects(next', a', b') by {
        forall i, j | 0 <= i < |a.deletes| && 0 <= j < |b.adds|
          ensures next[b.adds[j]].prop.num == next'[b.adds[j]].prop.num && next[a.deletes[i]].prop.num == next'[a.deletes[i]].prop.num
        {
        }
      }
      assert Interference(cur, next, a, b) <==> Interference(cur, next', a', b') by {
        forall i | 0 <= i < |a.deletes|
          ensures next[a.deletes[i]].prop.atom == next'[a.deletes[i]].prop.atom
        {
        }
      }
    }
  }

  /** No action of the level has an exclusion link yet. */
  predicate NoActionExcludes(acts: seq<ActionNode>) {
    forall k :: 0 <= k < |acts| ==> acts[k].excludes == []
  }

  /** Before any pair is visited, a level without excludes is as described. */
  lemma ActionExcludesStart(cur: seq<PropNode>, next: seq<PropNode>, acts: seq<ActionNode>)
    requires LevelIndexed(cur, next, acts) && NoActionExcludes(acts)
    ensures ActionExcludesUpTo(cur, next, acts, acts, 0, 0)
  {
  }

  /** AddMutex appends only what is missing, so the lists stay duplicate-free. */
  lemma AddMutexNoDup(acts: seq<ActionNode>, i: nat, j: nat)
    requires i < |acts| && j < |acts| && i != j
    requires forall k :: 0 <= k < |acts| ==> NoDup(acts[k].excludes)
    ensures forall k :: 0 <= k < |acts| ==> NoDup(AddMutex(acts, i, j)[k].excludes)
  {
    var acts' := if j in acts[i].excludes then acts else acts[i := acts[i].(excludes := acts[i].excludes + [j])];
    assert NoDup(acts'[i].excludes);
    assert forall k :: 0 <= k < |acts| ==> NoDup(acts'[k].excludes);
    var r := if i in acts'[j].excludes then acts' else acts'[j := acts'[j].(excludes := acts'[j].excludes + [i])];
    assert NoDup(r[j].excludes);
    assert r == AddMutex(acts, i, j);
  }

  /** Visiting the pair (i, j): a mutex pair is recorded in both directions. */
  lemma ActionExcludesPair(cur: seq<PropNode>, next: seq<PropNode>, acts0: seq<ActionNode>, acts: seq<ActionNode>, i: nat, j: nat)
    requires LevelIndexed(cur, next, acts0) && ActionExcludesUpTo(cur, next, acts0, acts, i, j)
    requires i < |acts0| && j < |acts0|
    ensures MutexTest(cur, next, acts0, i, j) ==> ActionExcludesUpTo(cur, next, acts0, AddMutex(acts, i, j), i, j + 1)
    ensures !MutexTest(cur, next, acts0, i, j) ==> ActionExcludesUpTo(cur, next, acts0, acts, i, j + 1)
  {
    if MutexTest(cur, next, acts0, i, j) {
      AddMutexNoDup(acts, i, j);
    }
  }

  /** Finishing a row of pairs is starting the next one. */
  lemma ActionExcludesRow(cur: seq<PropNode>, next: seq<PropNode>, acts0: seq<ActionNode>, acts: seq<ActionNode>, i: nat)
    requires LevelIndexed(cur, next, acts0) && ActionExcludesUpTo(cur, next, acts0, acts, i, |acts0|)
    ensures ActionExcludesUpTo(cur, next, acts0, acts, i + 1, 0)
  {
  }

  /**
   * After every pair is visited, `x` is among the excludes of `k` exactly
   * when the two are mutex; so the relation is symmetric and irreflexive.
   */
  lemma ActionExcludesDone(cur: seq<PropNode>, next: seq<PropNode>, acts0: seq<ActionNode>, acts: seq<ActionNode>)
    requires LevelIndexed(cur, next, acts0) && ActionExcludesUpTo(cur, next, acts0, acts, |acts0|, 0)
    ensures forall k, x :: 0 <= k < |acts| ==> (x in acts[k].excludes <==> Mutex(cur, next, acts0, k, x))
    ensures forall k, x :: 0 <= k < |acts| && 0 <= x < |acts| ==> (x in acts[k].excludes <==> k in acts[x].excludes)
    ensures forall k :: 0 <= k < |acts| ==> k !in acts[k].excludes
  {
  }

  /** Every action of the level excludes exactly the actions it is mutex with. */
  ghost predicate ActionExcludesComplete(cur: seq<PropNode>, next: seq<PropNode>, acts: seq<ActionNode>) {
    && LevelIndexed(cur, next, acts)
    && forall k, x :: 0 <= k < |acts| ==> (x in acts[k].excludes <==> Mutex(cur, next, acts, k, x))
  }

  /**
   * The action pass complete, and the proposition level above changed in
   * its excludes only: the links still record exactly the mutex pairs.
   */
  lemma ActionExcludesFinal(cur: seq<PropNode>, next: seq<PropNode>, next': seq<PropNode>, acts0: seq<ActionNode>, acts: seq<ActionNode>)
    requires LevelIndexed(cur, next, acts0) && ActionExcludesUpTo(cur, next, acts0, acts, |acts0|, 0)
    requires |next'| == |next| && forall i :: 0 <= i < |next| ==> next'[i].prop == next[i].prop
    ensures ActionExcludesComplete(cur, next', acts)
  {
    ActionExcludesDone(cur, next, acts0, acts);
    MutexSame(cur, next, next', acts0, acts);
  }

  // ---------------------------------------------------------------------
  // Proposition excludes

  /** generate_proposition_excludes_links lists `q` for `p`: their propnums differ and excludes_prop holds. */
  predicate PropMutex(nodes: seq<PropNode>, acts: seq<ActionNode>, p: nat, q: nat)
    requires AddersIn(nodes, acts)
  {
    p < |nodes| && q < |nodes| && nodes[p].prop.num != nodes[q].prop.num && AddersExcluded(acts, nodes[p], nodes[q])
  }

  /** The excludes of node `p` once the inner loop has visited the first `m` nodes. */
  function PropExcludes(nodes: seq<PropNode>, acts: seq<ActionNode>, p: nat, m: nat): seq<nat>
    requires AddersIn(nodes, acts) && m <= |nodes|
  {
    if m == 0 then []
    else PropExcludes(nodes, acts, p, m - 1) + if PropMutex(nodes, acts, p, m - 1) then [m - 1] else []
  }

  /** The excludes of `p` list, in increasing order and once each, the visited nodes mutex with it. */
  lemma {:induction false} PropExcludesMembers(nodes: seq<PropNode>, acts: seq<ActionNode>, p: nat, m: nat)
    requires AddersIn(nodes, acts) && m <= |nodes|
    ensures forall q: nat :: q in PropExcludes(nodes, acts, p, m) <==> q < m && PropMutex(nodes, acts, p, q)
    ensures forall a, b :: 0 <= a < b < |PropExcludes(nodes, acts, p, m)| ==>
              PropExcludes(nodes, acts, p, m)[a] < PropExcludes(nodes, acts, p, m)[b]
  {
    if m > 0 {
      PropExcludesMembers(nodes, acts, p, m - 1);
      var prev := PropExcludes(nodes, acts, p, m - 1);
      var r := PropExcludes(nodes, acts, p, m);
      assert r == prev + if PropMutex(nodes, acts, p, m - 1) then [m - 1] else [];
      forall a | 0 <= a < |prev|
        ensures prev[a] < m - 1
      {
        assert prev[a] in prev;
      }
    }
  }

  /** No node of the level has an exclusion link yet. */
  predicate NoPropExcludes(nodes: seq<PropNode>) {
    forall k :: 0 <= k < |nodes| ==> nodes[k].excludes == []
  }

  /**
   * The level once the outer loop has visited the first `i` nodes: those
   * hold their full excludes lists, the others none yet.
   */
  predicate PropRowsDone(nodes: seq<PropNode>, acts: seq<ActionNode>, row: seq<PropNode>, i: nat)
    requires AddersIn(nodes, acts)
  {
    |row| == |nodes| &&
    forall k :: 0 <= k < |nodes| ==> row[k] == nodes[k].(excludes := PropExcludes(nodes, acts, k, if k < i then |nodes| else 0))
  }

  lemma PropRowsStart(nodes: seq<PropNode>, acts: seq<ActionNode>)
    requires AddersIn(nodes, acts) && NoPropExcludes(nodes)
    ensures PropRowsDone(nodes, acts, nodes, 0)
  {
  }

  /** Row `i` starts out as the node itself with an empty excludes list. */
  lemma PropRowEntry(nodes: seq<PropNode>, acts: seq<ActionNode>, row: seq<PropNode>, i: nat)
    requires AddersIn(nodes, acts) && PropRowsDone(nodes, acts, row, i) && i < |nodes|
    ensures row == row[i := nodes[i].(excludes := PropExcludes(nodes, acts, i, 0))]
  {
  }

  lemma PropRowsStep(nodes: seq<PropNode>, acts: seq<ActionNode>, row: seq<PropNode>, i: nat)
    requires AddersIn(nodes, acts) && PropRowsDone(nodes, acts, row, i) && i < |nodes|
    ensures PropRowsDone(nodes, acts, row[i := nodes[i].(excludes := PropExcludes(nodes, acts, i, |nodes|))], i + 1)
  {
  }

  /** Visiting node `j` in row `i`: it is appended exactly when the two are mutex. */
  lemma PropRowNext(nodes: seq<PropNode>, acts: seq<ActionNode>, row: seq<PropNode>, cur: seq<PropNode>, i: nat, j: nat, m: bool)
    requires AddersIn(nodes, acts) && |row| == |nodes| && i < |nodes| && j < |nodes|
    requires cur == row[i := nodes[i].(excludes := PropExcludes(nodes, acts, i, j))]
    requires m <==> nodes[i].prop.num != nodes[j].prop.num && AddersExcluded(acts, nodes[i], nodes[j])
    ensures (if m then cur[i := WithExclude(cur[i], j)] else cur) == row[i := nodes[i].(excludes := PropExcludes(nodes, acts, i, j + 1))]
  {
    var prev := PropExcludes(nodes, acts, i, j);
    if m {
      assert PropExcludes(nodes, acts, i, j + 1) == prev + [j];
    } else {
      assert PropExcludes(nodes, acts, i, j + 1) == prev + [];
      assert prev + [] == prev;
    }
  }

  /** After generate_proposition_excludes_links: only the excludes changed, to the full PropExcludes lists. */
  predicate PropExcludesLinked(nodes: seq<PropNode>, acts: seq<ActionNode>, after: seq<PropNode>)
    requires AddersIn(nodes, acts)
  {
    PropRowsDone(nodes, acts, after, |nodes|)
  }

  /** PropExcludes reads neither the nodes' excludes nor anything but their propnums and adders. */
  lemma {:induction false} PropExcludesSame(nodes: seq<PropNode>, nodes': seq<PropNode>, acts: seq<ActionNode>, p: nat, m: nat)
    requires AddersIn(nodes, acts) && m <= |nodes| && |nodes'| == |nodes|
    requires forall i :: 0 <= i < |nodes| ==> nodes'[i].prop == nodes[i].prop && nodes'[i].adders == nodes[i].adders
    ensures AddersIn(nodes', acts) && PropExcludes(nodes', acts, p, m) == PropExcludes(nodes, acts, p, m)
  {
    assert AddersIn(nodes', acts) by {
      forall i | 0 <= i < |nodes'|
        ensures IndicesBelow(nodes'[i].adders, |acts|)
      {
        assert nodes'[i].adders == nodes[i].adders;
      }
    }
    if m > 0 {
      PropExcludesSame(nodes, nodes', acts, p, m - 1);
      if p < |nodes| {
        assert nodes'[p].adders == nodes[p].adders && nodes'[m - 1].adders == nodes[m - 1].adders;
        assert PropMutex(nodes, acts, p, m - 1) == PropMutex(nodes', acts, p, m - 1);
      }
    }
  }

  /** Every node of the level holds the full PropExcludes list of the level itself. */
  predicate PropExcludesComplete(nodes: seq<PropNode>, acts: seq<ActionNode>) {
    && AddersIn(nodes, acts)
    && forall p :: 0 <= p < |nodes| ==> nodes[p].excludes == PropExcludes(nodes, acts, p, |nodes|)
  }

  /** After the proposition pass the level describes its own mutex pairs. */
  lemma PropExcludesFinal(nodes: seq<PropNode>, acts: seq<ActionNode>, after: seq<PropNode>)
    requires AddersIn(nodes, acts) && PropExcludesLinked(nodes, acts, after)
    ensures |after| == |nodes| && forall i :: 0 <= i < |nodes| ==> after[i] == nodes[i].(excludes := after[i].excludes)
    ensures PropExcludesComplete(after, acts)
  {
    PropExcludesSame(nodes, after, acts, 0, 0);
    forall p | 0 <= p < |after|
      ensures after[p].excludes == PropExcludes(after, acts, p, |after|)
    {
      PropExcludesSame(nodes, after, acts, p, |nodes|);
    }
  }

  /** On a complete level, node `q` is in node `p`'s excludes exactly when the two are mutex. */
  lemma PropExcludesMeaning(nodes: seq<PropNode>, acts: seq<ActionNode>, p: nat)
    requires PropExcludesComplete(nodes, acts) && p < |nodes|
    ensures forall q: nat :: q in nodes[p].excludes <==> PropMutex(nodes, acts, p, q)
  {
    PropExcludesMembers(nodes, acts, p, |nodes|);
  }

  // ---------------------------------------------------------------------
  // Leveling off

  /** The number of exclusion links of a level: the sum of its nodes' excludes lengths. */
  function ExcludeCount(nodes: seq<PropNode>): nat {
    if nodes == [] then 0 else ExcludeCount(nodes[..|nodes| - 1]) + |nodes[|nodes| - 1].excludes|
  }

  /** A level counts no exclusion link exactly when no node has one. */
  lemma {:induction false} ExcludeCountZero(nodes: seq<PropNode>)
    ensures ExcludeCount(nodes) == 0 <==> forall i :: 0 <= i < |nodes| ==> nodes[i].excludes == []
  {
    if nodes != [] {
      var init := nodes[..|nodes| - 1];
      ExcludeCountZero(init);
      assert forall i :: 0 <= i < |init| ==> init[i] == nodes[i];
    }
  }

  /** The summing loop of leveled_off. */
  method CountExcludes(nodes: seq<PropNode>) returns (n: nat)
    ensures n == ExcludeCount(nodes)
  {
    n := 0;
    for i := 0 to |nodes|
      invariant n == ExcludeCount(nodes[..i])
    {
      assert nodes[..i + 1][..i] == nodes[..i];
      n := n + |nodes[i].excludes|;
    }
    assert nodes[..|nodes|] == nodes;
  }

  /**
   * leveled_off: at least two proposition levels, the last two of the
   * same size and with the same number of exclusion links.
   */
  predicate LevelsMatch(P: seq<seq<PropNode>>) {
    |P| >= 2 && |P[|P| - 1]| == |P[|P| - 2]| && ExcludeCount(P[|P| - 1]) == ExcludeCount(P[|P| - 2])
  }

  /** With action mutex recorded symmetrically, proposition mutex is symmetric. */
  lemma PropMutexSymmetric(nodes: seq<PropNode>, acts: seq<ActionNode>, p: nat, q: nat)
    requires AddersIn(nodes, acts)
    requires forall i, j :: 0 <= i < |acts| && 0 <= j < |acts| && j in acts[i].excludes ==> i in acts[j].excludes
    ensures PropMutex(nodes, acts, p, q) <==> PropMutex(nodes, acts, q, p)
  {
    if p < |nodes| && q < |nodes| {
      AddersExcludedSymmetric(acts, nodes[p], nodes[q]);
    }
  }
}
