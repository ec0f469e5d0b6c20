/**
 * The edits the graph builder makes, one node or one link at a time, each
 * shown to keep the arena well formed.
 */
module GraphEdits {
  import opened Wrappers
  import opened Lists
  import opened Terms
  import opened Graph

  /** Replacing a proposition level by a well-formed one that is at least as long. */
  lemma ReplacePropLevel(P: seq<seq<PropNode>>, A: seq<seq<ActionNode>>, l: nat, nodes: seq<PropNode>)
    requires GraphOk(P, A) && l < |P| && |nodes| >= |P[l]|
    requires PropLevelOk(l, nodes, Below(A, l), Above(A, l))
    requires l == 0 ==> forall i :: 0 <= i < |nodes| ==> nodes[i].excludes == []
    ensures GraphOk(P[l := nodes], A)
  {
    var P' := P[l := nodes];
    forall m | 0 <= m < |A|
      ensures ActionLevelOk(m, A[m], |P'[m]|, |P'[m + 1]|)
    {
      assert ActionLevelOk(m, A[m], |P[m]|, |P[m + 1]|);
      forall i | 0 <= i < |A[m]|
        ensures ActionOk(m, i, A[m][i], |A[m]|, |P'[m]|, |P'[m + 1]|)
      {
        assert ActionOk(m, i, A[m][i], |A[m]|, |P[m]|, |P[m + 1]|);
      }
    }
    forall m | 0 <= m < |P'|
      ensures PropLevelOk(m, P'[m], Below(A, m), Above(A, m))
    {
      if m != l {
        assert P'[m] == P[m];
      }
    }
  }

  /** Replacing an action level by a well-formed one that is at least as long and keeps the old actions' additions. */
  lemma ReplaceActionLevel(P: seq<seq<PropNode>>, A: seq<seq<ActionNode>>, l: nat, acts: seq<ActionNode>)
    requires GraphOk(P, A) && l < |A| && |acts| >= |A[l]|
    requires ActionLevelOk(l, acts, |P[l]|, |P[l + 1]|)
    requires forall i :: 0 <= i < |A[l]| ==> acts[i].adds == A[l][i].adds
    ensures GraphOk(P, A[l := acts])
  {
    var A' := A[l := acts];
    forall m | 0 <= m < |P|
      ensures PropLevelOk(m, P[m], Below(A', m), Above(A', m))
    {
      assert PropLevelOk(m, P[m], Below(A, m), Above(A, m));
      forall i | 0 <= i < |P[m]|
        ensures PropNodeOk(m, i, P[m][i], Below(A', m), Above(A', m), |P[m]|)
      {
        assert PropNodeOk(m, i, P[m][i], Below(A, m), Above(A, m), |P[m]|);
        if m == l + 1 {
          forall k | 0 <= k < |P[m][i].adders|
            ensures i in acts[P[m][i].adders[k]].adds
          {
            assert i in A[l][P[m][i].adders[k]].adds;
          }
        }
      }
    }
    forall m | 0 <= m < |A'|
      ensures ActionLevelOk(m, A'[m], |P[m]|, |P[m + 1]|)
    {
      if m != l {
        assert A'[m] == A[m];
      }
    }
  }

  /** get_propnode's new node: a fresh node with no links. */
  lemma AppendPropNode(P: seq<seq<PropNode>>, A: seq<seq<ActionNode>>, l: nat, prop: Prop)
    requires GraphOk(P, A) && l < |P| && prop.num.Some?
    ensures GraphOk(P[l := P[l] + [PropNode(prop, l, [], [], [], [])]], A)
  {
    var nodes := P[l] + [PropNode(prop, l, [], [], [], [])];
    assert PropLevelOk(l, P[l], Below(A, l), Above(A, l));
    forall i | 0 <= i < |nodes|
      ensures PropNodeOk(l, i, nodes[i], Below(A, l), Above(A, l), |nodes|)
    {
      if i < |P[l]| {
        assert PropNodeOk(l, i, P[l][i], Below(A, l), Above(A, l), |P[l]|);
      }
    }
    if l == 0 {
      forall i | 0 <= i < |nodes|
        ensures nodes[i].excludes == []
      {
        if i < |P[l]| {
          assert nodes[i] == P[0][i];
        }
      }
    }
    ReplacePropLevel(P, A, l, nodes);
  }

  /** One node of a proposition level with a new link appended. */
  function WithUser(n: PropNode, a: nat): PropNode { n.(users := n.users + [a]) }
  function WithAdder(n: PropNode, a: nat): PropNode { n.(adders := n.adders + [a]) }
  function WithDeleter(n: PropNode, a: nat): PropNode { n.(deleters := n.deleters + [a]) }
  function WithExclude(n: PropNode, q: nat): PropNode { n.(excludes := n.excludes + [q]) }

  /** Changing one node of level `l` to one that is well formed in its place. */
  lemma ReplacePropNode(P: seq<seq<PropNode>>, A: seq<seq<ActionNode>>, l: nat, i: nat, n: PropNode)
    requires GraphOk(P, A) && l < |P| && i < |P[l]|
    requires PropNodeOk(l, i, n, Below(A, l), Above(A, l), |P[l]|)
    requires l == 0 ==> n.excludes == []
    ensures GraphOk(P[l := P[l][i := n]], A)
  {
    var nodes := P[l][i := n];
    assert PropLevelOk(l, P[l], Below(A, l), Above(A, l));
    forall j | 0 <= j < |nodes|
      ensures PropNodeOk(l, j, nodes[j], Below(A, l), Above(A, l), |nodes|)
    {
      if j != i {
        assert PropNodeOk(l, j, P[l][j], Below(A, l), Above(A, l), |P[l]|);
      }
    }
    if l == 0 {
      forall j | 0 <= j < |nodes|
        ensures nodes[j].excludes == []
      {
        if j != i {
          assert nodes[j] == P[0][j];
        }
      }
    }
    ReplacePropLevel(P, A, l, nodes);
  }

  /** A proposition node gains an action of its own level as a user. */
  lemma AppendUser(P: seq<seq<PropNode>>, A: seq<seq<ActionNode>>, l: nat, i: nat, a: nat)
    requires GraphOk(P, A) && l < |A| && i < |P[l]| && a < |A[l]|
    ensures GraphOk(P[l := P[l][i := WithUser(P[l][i], a)]], A)
  {
    assert PropLevelOk(l, P[l], Below(A, l), Above(A, l));
    assert PropNodeOk(l, i, P[l][i], Below(A, l), Above(A, l), |P[l]|);
    ReplacePropNode(P, A, l, i, WithUser(P[l][i], a));
  }

  /** A proposition node gains as an adder an action of the level below that adds it. */
  lemma AppendAdder(P: seq<seq<PropNode>>, A: seq<seq<ActionNode>>, l: nat, i: nat, a: nat)
    requires GraphOk(P, A) && 1 <= l < |P| && i < |P[l]| && a < |A[l - 1]| && i in A[l - 1][a].adds
    ensures GraphOk(P[l := P[l][i := WithAdder(P[l][i], a)]], A)
  {
    assert PropLevelOk(l, P[l], Below(A, l), Above(A, l));
    assert PropNodeOk(l, i, P[l][i], Below(A, l), Above(A, l), |P[l]|);
    ReplacePropNode(P, A, l, i, WithAdder(P[l][i], a));
  }

  /** A proposition node gains an action of the level below as a deleter. */
  lemma AppendDeleter(P: seq<seq<PropNode>>, A: seq<seq<ActionNode>>, l: nat, i: nat, a: nat)
    requires GraphOk(P, A) && 1 <= l < |P| && i < |P[l]| && a < |A[l - 1]|
    ensures GraphOk(P[l := P[l][i := WithDeleter(P[l][i], a)]], A)
  {
    assert PropLevelOk(l, P[l], Below(A, l), Above(A, l));
    assert PropNodeOk(l, i, P[l][i], Below(A, l), Above(A, l), |P[l]|);
    ReplacePropNode(P, A, l, i, WithDeleter(P[l][i], a));
  }

  /** A proposition node above level 0 gains another node of its level as an excluded node. */
  lemma AppendPropExclude(P: seq<seq<PropNode>>, A: seq<seq<ActionNode>>, l: nat, i: nat, q: nat)
    requires GraphOk(P, A) && 1 <= l < |P| && i < |P[l]| && q < |P[l]|
    ensures GraphOk(P[l := P[l][i := WithExclude(P[l][i], q)]], A)
  {
    assert PropLevelOk(l, P[l], Below(A, l), Above(A, l));
    assert PropNodeOk(l, i, P[l][i], Below(A, l), Above(A, l), |P[l]|);
    ReplacePropNode(P, A, l, i, WithExclude(P[l][i], q));
  }

  /** A new action node, not yet linked from any proposition and with no excludes. */
  lemma AppendActionNode(P: seq<seq<PropNode>>, A: seq<seq<ActionNode>>, l: nat, a: ActionNode)
    requires GraphOk(P, A) && l < |A|
    requires a.level == l && ActionIndexed(a, |P[l]|, |P[l + 1]|) && a.excludes == []
    ensures GraphOk(P, A[l := A[l] + [a]])
  {
    var acts := A[l] + [a];
    assert ActionLevelOk(l, A[l], |P[l]|, |P[l + 1]|);
    forall i | 0 <= i < |acts|
      ensures ActionOk(l, i, acts[i], |acts|, |P[l]|, |P[l + 1]|)
    {
      if i < |A[l]| {
        assert ActionOk(l, i, A[l][i], |A[l]|, |P[l]|, |P[l + 1]|);
      }
    }
    forall i, j | 0 <= i < |acts| && 0 <= j < |acts| && j in acts[i].excludes
      ensures i in acts[j].excludes
    {
      assert ActionOk(l, i, A[l][i], |A[l]|, |P[l]|, |P[l + 1]|);
    }
    ReplaceActionLevel(P, A, l, acts);
  }

  /** Record `i` and `j` as mutex in both directions (each only if not yet recorded). */
  function AddMutex(acts: seq<ActionNode>, i: nat, j: nat): (r: seq<ActionNode>)
    requires i < |acts| && j < |acts|
    ensures |r| == |acts|
    ensures forall k :: 0 <= k < |acts| ==> r[k] == acts[k].(excludes := r[k].excludes)
    ensures forall k, x :: 0 <= k < |acts| ==>
              (x in r[k].excludes <==> x in acts[k].excludes || (k == i && x == j) || (k == j && x == i))
  {
    var acts' := if j in acts[i].excludes then acts else acts[i := acts[i].(excludes := acts[i].excludes + [j])];
    if i in acts'[j].excludes then acts' else acts'[j := acts'[j].(excludes := acts'[j].excludes + [i])]
  }

  lemma AddMutexLevel(l: nat, acts: seq<ActionNode>, precCount: nat, effectCount: nat, i: nat, j: nat)
    requires ActionLevelOk(l, acts, precCount, effectCount) && i < |acts| && j < |acts| && i != j
    ensures ActionLevelOk(l, AddMutex(acts, i, j), precCount, effectCount)
  {
    var r := AddMutex(acts, i, j);
    forall k | 0 <= k < |r|
      ensures ActionOk(l, k, r[k], |r|, precCount, effectCount)
    {
      assert ActionOk(l, k, acts[k], |acts|, precCount, effectCount);
      forall m | 0 <= m < |r[k].excludes|
        ensures r[k].excludes[m] < |r|
      {
        assert r[k].excludes[m] in r[k].excludes;
        if r[k].excludes[m] in acts[k].excludes {
          var n :| 0 <= n < |acts[k].excludes| && acts[k].excludes[n] == r[k].excludes[m];
        }
      }
    }
    forall x, y | 0 <= x < |r| && 0 <= y < |r| && y in r[x].excludes
      ensures x in r[y].excludes
    {
      if y in acts[x].excludes {
        assert x in acts[y].excludes;
      }
    }
  }

  lemma AddMutexKeeps(P: seq<seq<PropNode>>, A: seq<seq<ActionNode>>, l: nat, i: nat, j: nat)
    requires GraphOk(P, A) && l < |A| && i < |A[l]| && j < |A[l]| && i != j
    ensures GraphOk(P, A[l := AddMutex(A[l], i, j)])
  {
    assert ActionLevelOk(l, A[l], |P[l]|, |P[l + 1]|);
    AddMutexLevel(l, A[l], |P[l]|, |P[l + 1]|, i, j);
    ReplaceActionLevel(P, A, l, AddMutex(A[l], i, j));
  }

  /** extend_graph_level's first step: an empty action level and an empty proposition level on top. */
  lemma AppendLevel(P: seq<seq<PropNode>>, A: seq<seq<ActionNode>>)
    requires GraphOk(P, A)
    ensures GraphOk(P + [[]], A + [[]])
  {
    var P', A' := P + [[]], A + [[]];
    var top := |A|;
    assert PropLevelOk(top, P[top], Below(A, top), Above(A, top));
    forall m | 0 <= m < |P'|
      ensures PropLevelOk(m, P'[m], Below(A', m), Above(A', m))
    {
      if m < |P| {
        assert PropLevelOk(m, P[m], Below(A, m), Above(A, m));
        assert Below(A', m) == Below(A, m);
        forall i | 0 <= i < |P[m]|
          ensures PropNodeOk(m, i, P[m][i], Below(A', m), Above(A', m), |P[m]|)
        {
          assert PropNodeOk(m, i, P[m][i], Below(A, m), Above(A, m), |P[m]|);
        }
      }
    }
    forall m | 0 <= m < |A'|
      ensures ActionLevelOk(m, A'[m], |P'[m]|, |P'[m + 1]|)
    {
      if m < |A| {
        assert ActionLevelOk(m, A[m], |P[m]|, |P[m + 1]|);
      }
    }
  }

  /**
   * One persistence action: node `i` of level `l` gains the noop as a
   * user, the noop is appended to action level `l`, and a copy of the node
   * with the noop as its adder is appended to level `l + 1`.
   */
  lemma AppendNoop(P: seq<seq<PropNode>>, A: seq<seq<ActionNode>>, l: nat, i: nat)
    requires GraphOk(P, A) && l < |A| && i < |P[l]| && |A[l]| == i && |P[l + 1]| == i
    ensures GraphOk(P[l := P[l][i := WithUser(P[l][i], i)]][l + 1 := P[l + 1] + [PropNode(P[l][i].prop, l + 1, [i], [], [], [])]],
                    A[l := A[l] + [ActionNode(NOOP, l, map[], [i], [i], [], [])]])
  {
    var n := P[l][i];
    var copy := PropNode(n.prop, l + 1, [], [], [], []);
    var noop := ActionNode(NOOP, l, map[], [i], [i], [], []);
    var P1 := P[l + 1 := P[l + 1] + [copy]];
    assert PropLevelOk(l, P[l], Below(A, l), Above(A, l));
    assert PropNodeOk(l, i, n, Below(A, l), Above(A, l), |P[l]|);
    AppendPropNode(P, A, l + 1, n.prop);
    var A1 := A[l := A[l] + [noop]];
    AppendActionNode(P1, A, l, noop);
    var P2 := P1[l := P1[l][i := WithUser(P1[l][i], i)]];
    AppendUser(P1, A1, l, i, i);
    var P3 := P2[l + 1 := P2[l + 1][i := WithAdder(P2[l + 1][i], i)]];
    AppendAdder(P2, A1, l + 1, i, i);
    var target := P[l := P[l][i := WithUser(n, i)]][l + 1 := P[l + 1] + [PropNode(n.prop, l + 1, [i], [], [], [])]];
    assert P3[l] == target[l];
    assert P2[l + 1] == P[l + 1] + [copy];
    assert [] + [i] == [i];
    assert WithAdder(copy, i) == PropNode(n.prop, l + 1, [i], [], [], []);
    assert (P[l + 1] + [copy])[i := WithAdder(copy, i)] == P[l + 1] + [WithAdder(copy, i)];
    assert P3[l + 1] == target[l + 1];
    assert P3 == target;
  }

  /** The persistence action carrying proposition `i` of level `l` to the next level. */
  function Noop(l: nat, i: nat): ActionNode {
    ActionNode(NOOP, l, map[], [i], [i], [], [])
  }

  /** The first `n` persistence actions of level `l`, in order. */
  function Noops(l: nat, n: nat): (r: seq<ActionNode>)
    ensures |r| == n && forall i :: 0 <= i < n ==> r[i] == Noop(l, i)
  {
    seq(n, i requires 0 <= i < n => Noop(l, i))
  }

  /** The nodes of a level after the first `n` have gained their persistence action as user. */
  function Used(nodes: seq<PropNode>, n: nat): (r: seq<PropNode>)
    ensures |r| == |nodes|
    ensures forall i :: 0 <= i < |nodes| ==> r[i] == if i < n then WithUser(nodes[i], i) else nodes[i]
  {
    seq(|nodes|, i requires 0 <= i < |nodes| => if i < n then WithUser(nodes[i], i) else nodes[i])
  }

  /** Copies at level `l` of the first `n` nodes, each added by its persistence action. */
  function Persisted(nodes: seq<PropNode>, l: nat, n: nat): (r: seq<PropNode>)
    requires n <= |nodes|
    ensures |r| == n
    ensures forall i :: 0 <= i < n ==> r[i] == PropNode(nodes[i].prop, l, [i], [], [], [])
  {
    seq(n, i requires 0 <= i < n => PropNode(nodes[i].prop, l, [i], [], [], []))
  }

  lemma NoopsStep(cur: seq<PropNode>, l: nat, i: nat)
    requires i < |cur|
    ensures Noops(l, i + 1) == Noops(l, i) + [Noop(l, i)]
    ensures Used(cur, i + 1) == Used(cur, i)[i := WithUser(Used(cur, i)[i], i)]
    ensures Persisted(cur, l + 1, i + 1) == Persisted(cur, l + 1, i) + [PropNode(cur[i].prop, l + 1, [i], [], [], [])]
  {
    assert Used(cur, i + 1)[i] == WithUser(Used(cur, i)[i], i);
  }

  /** The noops of a whole level, appended one by one, keep the graph well formed. */
  lemma {:induction false} NoopsOk(P: seq<seq<PropNode>>, A: seq<seq<ActionNode>>, l: nat, n: nat)
    requires GraphOk(P, A) && l < |A| && A[l] == [] && P[l + 1] == [] && n <= |P[l]|
    ensures GraphOk(P[l := Used(P[l], n)][l + 1 := Persisted(P[l], l + 1, n)], A[l := Noops(l, n)])
  {
    if n == 0 {
      assert Used(P[l], 0) == P[l];
      assert P[l := P[l]][l + 1 := []] == P;
      assert A[l := []] == A;
    } else {
      var i := n - 1;
      NoopsOk(P, A, l, i);
      var P' := P[l := Used(P[l], i)][l + 1 := Persisted(P[l], l + 1, i)];
      var A' := A[l := Noops(l, i)];
      AppendNoop(P', A', l, i);
      NoopsStep(P[l], l, i);
      assert P'[l][i].prop == P[l][i].prop;
      assert P'[l := P'[l][i := WithUser(P'[l][i], i)]][l + 1 := P'[l + 1] + [PropNode(P'[l][i].prop, l + 1, [i], [], [], [])]]
          == P[l := Used(P[l], n)][l + 1 := Persisted(P[l], l + 1, n)];
      assert A'[l := A'[l] + [ActionNode(NOOP, l, map[], [i], [i], [], [])]] == A[l := Noops(l, n)];
    }
  }

  /** Excludes point into their own level. */
  lemma LevelExcludesIndexed(P: seq<seq<PropNode>>, A: seq<seq<ActionNode>>, l: nat)
    requires GraphOk(P, A) && l < |P|
    ensures ExcludesIndexed(P[l])
  {
    forall i | 0 <= i < |P[l]|
      ensures IndicesBelow(P[l][i].excludes, |P[l]|)
    {
      assert PropLevelOk(l, P[l], Below(A, l), Above(A, l));
      assert PropNodeOk(l, i, P[l][i], Below(A, l), Above(A, l), |P[l]|);
    }
  }
}
