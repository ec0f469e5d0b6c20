/**
 * The planning graph as an arena: proposition levels and action levels are
 * sequences of node values, and every link between nodes (adders,
 * deleters, users, excludes, precs, adds, deletes) is an index into the
 * level it points to. PropNode equality in the original compares propnums,
 * so "p in list" between proposition nodes is `NumIn`; ActionNode has no
 * equality of its own, so action nodes are compared by index.
 */
module Graph {
  import opened Wrappers
  import opened Lists
  import opened Terms

  /** A proposition node: its literal, level and links. */
  datatype PropNode = PropNode(
    prop: Prop,
    level: nat,
    adders: seq<nat>,    // actions of the level below
    deleters: seq<nat>,  // actions of the level below
    users: seq<nat>,     // actions of the same level
    excludes: seq<nat>)  // propositions of the same level

  /** An action node: a ground operator instance or a persistence action. */
  datatype ActionNode = ActionNode(
    name: string,
    level: nat,
    binds: Binding,
    precs: seq<nat>,     // propositions of the same level
    adds: seq<nat>,      // propositions of the next level
    deletes: seq<nat>,   // propositions of the next level
    excludes: seq<nat>)  // actions of the same level

  /** Some node listed in `list` has the propnum of node `x`: membership of proposition nodes compares propnums. */
  predicate NumIn(nodes: seq<PropNode>, x: nat, list: seq<nat>)
    requires x < |nodes| && IndicesBelow(list, |nodes|)
  {
    exists k :: 0 <= k < |list| && nodes[list[k]].prop.num == nodes[x].prop.num
  }

  /** An action's proposition links point into the levels around it. */
  predicate ActionIndexed(a: ActionNode, precCount: nat, effectCount: nat) {
    IndicesBelow(a.precs, precCount) && IndicesBelow(a.adds, effectCount) && IndicesBelow(a.deletes, effectCount)
  }

  /** Every node's excludes point into its own level. */
  predicate ExcludesIndexed(nodes: seq<PropNode>) {
    forall i :: 0 <= i < |nodes| ==> IndicesBelow(nodes[i].excludes, |nodes|)
  }

  // ---------------------------------------------------------------------
  // Well-formedness of the arena

  /** A proposition node at index `i` of level `l`. */
  ghost predicate PropNodeOk(l: nat, i: nat, n: PropNode, below: seq<ActionNode>, above: nat, size: nat) {
    && n.level == l
    && n.prop.num.Some?
    && IndicesBelow(n.adders, |below|)
    && IndicesBelow(n.deleters, |below|)
    && IndicesBelow(n.users, above)
    && IndicesBelow(n.excludes, size)
    && (forall k :: 0 <= k < |n.adders| ==> i in below[n.adders[k]].adds)
  }

  /**
   * Proposition level `l` given the action level below it (empty for level
   * 0) and the number of actions above it (0 for the last level).
   */
  ghost predicate PropLevelOk(l: nat, nodes: seq<PropNode>, below: seq<ActionNode>, above: nat) {
    forall i {:trigger PropNodeOk(l, i, nodes[i], below, above, |nodes|)} :: 0 <= i < |nodes| ==> PropNodeOk(l, i, nodes[i], below, above, |nodes|)
  }

  /** An action node at index `i` of level `l`. */
  ghost predicate ActionOk(l: nat, i: nat, a: ActionNode, size: nat, precCount: nat, effectCount: nat) {
    && a.level == l
    && ActionIndexed(a, precCount, effectCount)
    && IndicesBelow(a.excludes, size)
    && i !in a.excludes
  }

  /** Action level `l`, between proposition levels of the given sizes; mutex is symmetric. */
  ghost predicate ActionLevelOk(l: nat, acts: seq<ActionNode>, precCount: nat, effectCount: nat) {
    && (forall i {:trigger ActionOk(l, i, acts[i], |acts|, precCount, effectCount)} :: 0 <= i < |acts| ==> ActionOk(l, i, acts[i], |acts|, precCount, effectCount))
    && (forall i, j :: 0 <= i < |acts| && 0 <= j < |acts| && j in acts[i].excludes ==> i in acts[j].excludes)
  }

  function Below(A: seq<seq<ActionNode>>, l: nat): seq<ActionNode> {
    if 0 < l <= |A| then A[l - 1] else []
  }

  function Above(A: seq<seq<ActionNode>>, l: nat): nat {
    if l < |A| then |A[l]| else 0
  }

  /** The whole arena: levels alternate, links are in range, level 0 has no excludes. */
  ghost predicate GraphOk(P: seq<seq<PropNode>>, A: seq<seq<ActionNode>>) {
    && |P| == |A| + 1
    && (forall l {:trigger PropLevelOk(l, P[l], Below(A, l), Above(A, l))} :: 0 <= l < |P| ==> PropLevelOk(l, P[l], Below(A, l), Above(A, l)))
    && (forall l {:trigger ActionLevelOk(l, A[l], |P[l]|, |P[l + 1]|)} :: 0 <= l < |A| ==> ActionLevelOk(l, A[l], |P[l]|, |P[l + 1]|))
    && (forall i :: 0 <= i < |P[0]| ==> P[0][i].excludes == [])
  }

  // ---------------------------------------------------------------------
  // Finding a proposition node by its literal

  /** The first node of a level whose literal is structurally equal to `a`. */
  function FirstMatch(nodes: seq<PropNode>, a: Atom): (r: Option<nat>)
    ensures r.Some? ==> r.value < |nodes| && nodes[r.value].prop.atom == a
    ensures r.Some? ==> forall j :: 0 <= j < r.value ==> nodes[j].prop.atom != a
    ensures r.None? <==> forall j :: 0 <= j < |nodes| ==> nodes[j].prop.atom != a
  {
    if nodes == [] then None
    else if nodes[0].prop.atom == a then Some(0)
    else match FirstMatch(nodes[1..], a)
      case None => None
      case Some(i) => Some(i + 1)
  }

  /**
   * No two nodes of the level carry the same literal, stated node by node
   * as the level is built: each node's literal is not found among the
   * nodes before it.
   */
  predicate DistinctLiterals(nodes: seq<PropNode>)
    decreases |nodes|
  {
    nodes == [] ||
    (DistinctLiterals(nodes[..|nodes| - 1]) && FirstMatch(nodes[..|nodes| - 1], nodes[|nodes| - 1].prop.atom).None?)
  }

  /** Node-by-node distinctness is pairwise distinctness. */
  lemma {:induction false} DistinctLiteralsPairwise(nodes: seq<PropNode>)
    ensures DistinctLiterals(nodes) <==>
            forall i, j :: 0 <= i < j < |nodes| ==> nodes[i].prop.atom != nodes[j].prop.atom
  {
    if nodes != [] {
      var init, last := nodes[..|nodes| - 1], nodes[|nodes| - 1];
      DistinctLiteralsPairwise(init);
      assert forall i :: 0 <= i < |init| ==> init[i] == nodes[i];
    }
  }

  /** A node whose literal the level does not hold yet keeps the literals distinct. */
  lemma DistinctAppend(nodes: seq<PropNode>, n: PropNode)
    requires DistinctLiterals(nodes) && FirstMatch(nodes, n.prop.atom).None?
    ensures DistinctLiterals(nodes + [n])
  {
  }

  /** Two versions of a level that agree on every literal and every excludes list. */
  predicate SameLiterals(n1: seq<PropNode>, n2: seq<PropNode>) {
    |n1| == |n2| && forall i :: 0 <= i < |n1| ==> n1[i].prop == n2[i].prop && n1[i].excludes == n2[i].excludes
  }

  /** Finding a node by its literal looks at literals only. */
  lemma FirstMatchSame(n1: seq<PropNode>, n2: seq<PropNode>, a: Atom)
    requires SameLiterals(n1, n2)
    ensures FirstMatch(n1, a) == FirstMatch(n2, a)
  {
  }

  /** get_existing_propnode over one level. */
  method GetExistingPropnode(nodes: seq<PropNode>, a: Atom) returns (r: Option<nat>)
    ensures r == FirstMatch(nodes, a)
  {
    var i := 0;
    while i < |nodes|
      invariant 0 <= i <= |nodes|
      invariant forall j :: 0 <= j < i ==> nodes[j].prop.atom != a
    {
      if nodes[i].prop.atom == a {
        return Some(i);
      }
      i := i + 1;
    }
    return None;
  }

  // ---------------------------------------------------------------------
  // Mutual exclusion between actions of one level

  /** deletes_addition: something `a` deletes has the propnum of something `b` adds. */
  predicate InconsistentEffects(next: seq<PropNode>, a: ActionNode, b: ActionNode)
    requires IndicesBelow(a.deletes, |next|) && IndicesBelow(b.adds, |next|)
  {
    exists i :: 0 <= i < |a.deletes| && NumIn(next, a.deletes[i], b.adds)
  }

  /**
   * deletes_precondition: a literal `a` deletes at the next level is
   * structurally equal to a precondition literal of `b` at this level.
   */
  predicate Interference(cur: seq<PropNode>, next: seq<PropNode>, a: ActionNode, b: ActionNode)
    requires IndicesBelow(a.deletes, |next|) && IndicesBelow(b.precs, |cur|)
  {
    exists i, j :: 0 <= i < |a.deletes| && 0 <= j < |b.precs| &&
      next[a.deletes[i]].prop.atom == cur[b.precs[j]].prop.atom
  }

  /** competing_needs: a precondition of `b` is among the excludes of a precondition of `a`. */
  predicate NeedsCompete(cur: seq<PropNode>, a: ActionNode, b: ActionNode)
    requires ExcludesIndexed(cur) && IndicesBelow(a.precs, |cur|) && IndicesBelow(b.precs, |cur|)
  {
    exists i, j :: 0 <= i < |a.precs| && 0 <= j < |b.precs| &&
      NumIn(cur, b.precs[j], cur[a.precs[i]].excludes)
  }

  /** The condition under which the action level records `a` and `b` as mutex (one direction). */
  predicate ActionMutex(cur: seq<PropNode>, next: seq<PropNode>, a: ActionNode, b: ActionNode)
    requires ExcludesIndexed(cur)
    requires ActionIndexed(a, |cur|, |next|) && ActionIndexed(b, |cur|, |next|)
  {
    InconsistentEffects(next, a, b) || Interference(cur, next, a, b) || NeedsCompete(cur, a, b)
  }

  /** ActionNode.deletes_addition. */
  method DeletesAddition(next: seq<PropNode>, a: ActionNode, b: ActionNode) returns (r: bool)
    requires IndicesBelow(a.deletes, |next|) && IndicesBelow(b.adds, |next|)
    ensures r <==> InconsistentEffects(next, a, b)
  {
    var intersection: seq<nat> := [];
    var i := 0;
    while i < |a.deletes|
      invariant 0 <= i <= |a.deletes|
      invariant forall k :: 0 <= k < |intersection| ==> intersection[k] in a.deletes[..i]
      invariant (exists k :: 0 <= k < i && NumIn(next, a.deletes[k], b.adds)) ==> |intersection| > 0
      invariant |intersection| > 0 ==> exists k :: 0 <= k < i && NumIn(next, a.deletes[k], b.adds)
    {
      if NumIn(next, a.deletes[i], b.adds) {
        intersection := intersection + [a.deletes[i]];
      }
      i := i + 1;
    }
    r := |intersection| > 0;
  }

  /** ActionNode.deletes_precondition. */
  method DeletesPrecondition(cur: seq<PropNode>, next: seq<PropNode>, a: ActionNode, b: ActionNode) returns (r: bool)
    requires IndicesBelow(a.deletes, |next|) && IndicesBelow(b.precs, |cur|)
    ensures r <==> Interference(cur, next, a, b)
  {
    var i := 0;
    while i < |a.deletes|
      invariant 0 <= i <= |a.deletes|
      invariant forall i', j :: 0 <= i' < i && 0 <= j < |b.precs| ==>
                  next[a.deletes[i']].prop.atom != cur[b.precs[j]].prop.atom
    {
      var j := 0;
      while j < |b.precs|
        invariant 0 <= j <= |b.precs|
        invariant forall j' :: 0 <= j' < j ==> next[a.deletes[i]].prop.atom != cur[b.precs[j']].prop.atom
      {
        if next[a.deletes[i]].prop.atom == cur[b.precs[j]].prop.atom {
          return true;
        }
        j := j + 1;
      }
      i := i + 1;
    }
    return false;
  }

  /** ActionNode.competing_needs. */
  method CompetingNeeds(cur: seq<PropNode>, a: ActionNode, b: ActionNode) returns (r: bool)
    requires ExcludesIndexed(cur) && IndicesBelow(a.precs, |cur|) && IndicesBelow(b.precs, |cur|)
    ensures r <==> NeedsCompete(cur, a, b)
  {
    var i := 0;
    while i < |a.precs|
      invariant 0 <= i <= |a.precs|
      invariant forall i', j :: 0 <= i' < i && 0 <= j < |b.precs| ==>
                  !NumIn(cur, b.precs[j], cur[a.precs[i']].excludes)
    {
      var j := 0;
      while j < |b.precs|
        invariant 0 <= j <= |b.precs|
        invariant forall j' :: 0 <= j' < j ==> !NumIn(cur, b.precs[j'], cur[a.precs[i]].excludes)
      {
        if NumIn(cur, b.precs[j], cur[a.precs[i]].excludes) {
          return true;
        }
        j := j + 1;
      }
      i := i + 1;
    }
    return false;
  }

  // ---------------------------------------------------------------------
  // Mutual exclusion between propositions of one level

  /** Every adder of `p` has every adder of `q` among its excludes (vacuous without adders). */
  predicate AddersExcluded(acts: seq<ActionNode>, p: PropNode, q: PropNode)
    requires IndicesBelow(p.adders, |acts|) && IndicesBelow(q.adders, |acts|)
  {
    forall i, j :: 0 <= i < |p.adders| && 0 <= j < |q.adders| ==> q.adders[j] in acts[p.adders[i]].excludes
  }

  /** PropNode.excludes_prop. */
  method ExcludesProp(acts: seq<ActionNode>, p: PropNode, q: PropNode) returns (r: bool)
    requires IndicesBelow(p.adders, |acts|) && IndicesBelow(q.adders, |acts|)
    ensures r <==> AddersExcluded(acts, p, q)
  {
    var i := 0;
    while i < |p.adders|
      invariant 0 <= i <= |p.adders|
      invariant forall i', j :: 0 <= i' < i && 0 <= j < |q.adders| ==> q.adders[j] in acts[p.adders[i']].excludes
    {
      var j := 0;
      while j < |q.adders|
        invariant 0 <= j <= |q.adders|
        invariant forall j' :: 0 <= j' < j ==> q.adders[j'] in acts[p.adders[i]].excludes
      {
        if q.adders[j] !in acts[p.adders[i]].excludes {
          return false;
        }
        j := j + 1;
      }
      i := i + 1;
    }
    return true;
  }

  /**
   * When action mutex is recorded symmetrically, proposition mutex is
   * symmetric too.
   */
  lemma AddersExcludedSymmetric(acts: seq<ActionNode>, p: PropNode, q: PropNode)
    requires IndicesBelow(p.adders, |acts|) && IndicesBelow(q.adders, |acts|)
    requires forall i, j :: 0 <= i < |acts| && 0 <= j < |acts| && j in acts[i].excludes ==> i in acts[j].excludes
    ensures AddersExcluded(acts, p, q) <==> AddersExcluded(acts, q, p)
  {
  }
}
