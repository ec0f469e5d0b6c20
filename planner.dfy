/**
 * The planning problem: it owns the planning graph (alternating
 * proposition and action levels), extends it one level at a time, and
 * searches it backwards for a plan. The graph is an arena of node values
 * (see module Graph); the problem object updates its levels in place.
 */
module Planner {
  import opened Wrappers
  import opened Lists
  import opened Terms
  import opened Interning
  import opened Grounding
  import opened Graph
  import opened Binder
  import opened Extraction
  import opened Search
  import opened GraphEdits
  import opened ExcludeLinks

  /** The instantiated literals of a list of templates. */
  function Instances(templates: seq<Atom>, b: Binding): (r: seq<Atom>)
    ensures |r| == |templates|
  {
    seq(|templates|, k requires 0 <= k < |templates| => Subst(templates[k], b))
  }

  /** `a` once for every occurrence of `i` in `s`: the links one node gets from one action. */
  function Occurrences(s: seq<nat>, i: nat, a: nat): seq<nat>
    decreases |s|
  {
    if s == [] then []
    else Occurrences(s[..|s| - 1], i, a) + if s[|s| - 1] == i then [a] else []
  }

  lemma OccurrencesStep(s: seq<nat>, k: nat, i: nat, a: nat)
    requires k < |s|
    ensures Occurrences(s[..k + 1], i, a) == Occurrences(s[..k], i, a) + if s[k] == i then [a] else []
  {
    assert s[..k + 1][..k] == s[..k];
  }

  /** Nodes keep their literals; later nodes may follow. */
  predicate PropsKept(before: seq<PropNode>, after: seq<PropNode>) {
    |before| <= |after| && forall i :: 0 <= i < |before| ==> after[i].prop == before[i].prop
  }

  /** A node found by its literal stays the first match while literals are kept. */
  lemma FirstMatchKept(before: seq<PropNode>, after: seq<PropNode>, a: Atom)
    requires PropsKept(before, after) && FirstMatch(before, a).Some?
    ensures FirstMatch(after, a) == FirstMatch(before, a)
  {
  }

  /** A literal missing from a level is first found in the node appended for it. */
  lemma FirstMatchAppend(nodes: seq<PropNode>, n: PropNode, a: Atom)
    requires FirstMatch(nodes, a).None? && n.prop.atom == a
    ensures FirstMatch(nodes + [n], a) == Some(|nodes|)
  {
    assert (nodes + [n])[|nodes|].prop.atom == a;
  }

  /** Each of the first `|ns|` literals of `atoms` is first found at the matching index of `ns`. */
  predicate FoundAt(nodes: seq<PropNode>, atoms: seq<Atom>, ns: seq<nat>) {
    |ns| <= |atoms| && forall j :: 0 <= j < |ns| ==> FirstMatch(nodes, atoms[j]) == Some(ns[j])
  }

  lemma FoundAtStep(before: seq<PropNode>, after: seq<PropNode>, atoms: seq<Atom>, ns: seq<nat>, idx: nat)
    requires FoundAt(before, atoms, ns) && PropsKept(before, after) && |ns| < |atoms|
    requires FirstMatch(after, atoms[|ns|]) == Some(idx)
    ensures FoundAt(after, atoms, ns + [idx])
  {
    var ns' := ns + [idx];
    forall j | 0 <= j < |ns'|
      ensures FirstMatch(after, atoms[j]) == Some(ns'[j])
    {
      if j < |ns| {
        FirstMatchKept(before, after, atoms[j]);
      }
    }
  }

  /**
   * The action node generate_action_node builds for operator `op` and
   * bindprop `bp` at level `l`: its supporting nodes are the bindprop's,
   * and each effect is the first node of the next level carrying the
   * instantiated effect literal.
   */
  ghost predicate ActionFor(next: seq<PropNode>, op: Operator, bp: BindProp, a: ActionNode, l: nat) {
    && a.name == op.name && a.level == l && a.binds == bp.bindings && a.precs == bp.propnodes
    && |a.adds| == |op.adds| && |a.deletes| == |op.deletes|
    && (forall k :: 0 <= k < |a.adds| ==> FirstMatch(next, Subst(op.adds[k], bp.bindings)) == Some(a.adds[k]))
    && (forall k :: 0 <= k < |a.deletes| ==> FirstMatch(next, Subst(op.deletes[k], bp.bindings)) == Some(a.deletes[k]))
  }

  lemma ActionForKept(before: seq<PropNode>, after: seq<PropNode>, op: Operator, bp: BindProp, a: ActionNode, l: nat)
    requires ActionFor(before, op, bp, a, l) && PropsKept(before, after)
    ensures ActionFor(after, op, bp, a, l)
  {
    forall k | 0 <= k < |a.adds|
      ensures FirstMatch(after, Subst(op.adds[k], bp.bindings)) == Some(a.adds[k])
    {
      FirstMatchKept(before, after, Subst(op.adds[k], bp.bindings));
    }
    forall k | 0 <= k < |a.deletes|
      ensures FirstMatch(after, Subst(op.deletes[k], bp.bindings)) == Some(a.deletes[k])
    {
      FirstMatchKept(before, after, Subst(op.deletes[k], bp.bindings));
    }
  }

  /**
   * The actions from index `start` of `acts` are, in order, the action
   * nodes for the bindprops `bps` of operator `op`, none excluded yet.
   */
  ghost predicate ActionsFor(next: seq<PropNode>, op: Operator, bps: seq<BindProp>, acts: seq<ActionNode>, start: nat, l: nat) {
    && start + |bps| <= |acts|
    && forall k :: 0 <= k < |bps| ==> ActionFor(next, op, bps[k], acts[start + k], l) && acts[start + k].excludes == []
  }

  lemma ActionsForKept(next: seq<PropNode>, after: seq<PropNode>, op: Operator, bps: seq<BindProp>,
                       acts: seq<ActionNode>, start: nat, l: nat)
    requires ActionsFor(next, op, bps, acts, start, l) && PropsKept(next, after)
    ensures ActionsFor(after, op, bps, acts, start, l)
  {
    forall j | 0 <= j < |bps|
      ensures ActionFor(after, op, bps[j], acts[start + j], l)
    {
      ActionForKept(next, after, op, bps[j], acts[start + j], l);
    }
  }

  lemma ActionsForAppend(next: seq<PropNode>, op: Operator, bps: seq<BindProp>, bp: BindProp,
                         acts: seq<ActionNode>, a: ActionNode, start: nat, l: nat)
    requires ActionsFor(next, op, bps, acts, start, l) && |acts| == start + |bps|
    requires ActionFor(next, op, bp, a, l) && a.excludes == []
    ensures ActionsFor(next, op, bps + [bp], acts + [a], start, l)
  {
  }

  lemma ActionsForStep(next: seq<PropNode>, after: seq<PropNode>, op: Operator, bps: seq<BindProp>, k: nat,
                       acts: seq<ActionNode>, a: ActionNode, start: nat, l: nat)
    requires k < |bps| && ActionsFor(next, op, bps[..k], acts, start, l) && |acts| == start + k
    requires PropsKept(next, after) && ActionFor(after, op, bps[k], a, l) && a.excludes == []
    ensures ActionsFor(after, op, bps[..k + 1], acts + [a], start, l)
  {
    ActionsForKept(next, after, op, bps[..k], acts, start, l);
    ActionsForAppend(after, op, bps[..k], bps[k], acts, a, start, l);
    assert bps[..k + 1] == bps[..k] + [bps[k]];
  }

  /** `after` extends `before` by fresh nodes of level `l` whose literals are among `atoms`. */
  predicate GrownBy(before: seq<PropNode>, after: seq<PropNode>, l: nat, atoms: seq<Atom>) {
    && before <= after
    && forall i :: |before| <= i < |after| ==>
         after[i] == PropNode(after[i].prop, l, [], [], [], []) && after[i].prop.atom in atoms
  }

  lemma GrownByStep(start: seq<PropNode>, mid: seq<PropNode>, after: seq<PropNode>, l: nat, atoms: seq<Atom>)
    requires GrownBy(start, mid, l, atoms)
    requires after == mid || (exists p: Prop :: p.atom in atoms && after == mid + [PropNode(p, l, [], [], [], [])])
    ensures GrownBy(start, after, l, atoms)
  {
  }

  lemma GrownByJoin(start: seq<PropNode>, mid: seq<PropNode>, after: seq<PropNode>, l: nat, xs: seq<Atom>, ys: seq<Atom>)
    requires GrownBy(start, mid, l, xs) && GrownBy(mid, after, l, ys)
    ensures GrownBy(start, after, l, xs + ys)
  {
  }

  /** Growing a level and then linking an action's effects gives EffectLinked, with literals kept. */
  lemma LinkedAfterGrowth(start: seq<PropNode>, grown: seq<PropNode>, after: seq<PropNode>, l: nat,
                          adds: seq<nat>, dels: seq<nat>, a: nat)
    requires start <= grown
    requires forall i :: |start| <= i < |grown| ==> grown[i] == PropNode(grown[i].prop, l, [], [], [], [])
    requires |after| == |grown|
    requires forall i :: 0 <= i < |grown| ==>
               after[i] == grown[i].(adders := grown[i].adders + Occurrences(adds, i, a),
                                     deleters := grown[i].deleters + Occurrences(dels, i, a))
    ensures EffectLinked(start, after, l, adds, dels, a)
  {
  }

  /** Linking one more action keeps SameButEffectLinks and the literals. */
  lemma EffectLinksStep(start: seq<PropNode>, mid: seq<PropNode>, after: seq<PropNode>, l: nat,
                        adds: seq<nat>, dels: seq<nat>, a: nat)
    requires SameButEffectLinks(start, mid, l) && EffectLinked(mid, after, l, adds, dels, a)
    ensures SameButEffectLinks(start, after, l) && PropsKept(mid, after)
  {
  }

  /** Changing only effect links keeps the literals. */
  lemma EffectLinksKeepProps(before: seq<PropNode>, after: seq<PropNode>, l: nat)
    requires SameButEffectLinks(before, after, l)
    ensures PropsKept(before, after)
  {
  }

  lemma SameButEffectLinksTrans(start: seq<PropNode>, mid: seq<PropNode>, after: seq<PropNode>, l: nat)
    requires SameButEffectLinks(start, mid, l) && SameButEffectLinks(mid, after, l)
    ensures SameButEffectLinks(start, after, l)
  {
  }

  lemma SameButUsersTrans(start: seq<PropNode>, mid: seq<PropNode>, after: seq<PropNode>)
    requires SameButUsers(start, mid) && SameButUsers(mid, after)
    ensures SameButUsers(start, after)
  {
  }

  /** Nodes that only gained adders and deleters, and new bare nodes, have no excludes. */
  lemma EffectLinksNoExcludes(before: seq<PropNode>, after: seq<PropNode>, l: nat)
    requires NoPropExcludes(before) && SameButEffectLinks(before, after, l)
    ensures NoPropExcludes(after)
  {
  }

  /** Appending freshly generated action nodes adds no exclusion link. */
  lemma ActionsNoExcludes(before: seq<ActionNode>, after: seq<ActionNode>, next: seq<PropNode>, op: Operator,
                          kept: seq<BindProp>, l: nat)
    requires NoActionExcludes(before) && before <= after && |after| == |before| + |kept|
    requires ActionsFor(next, op, kept, after, |before|, l)
    ensures NoActionExcludes(after)
  {
    forall k | 0 <= k < |after|
      ensures after[k].excludes == []
    {
      if k < |before| {
        assert after[k] == before[k];
      } else {
        var j := k - |before|;
        assert ActionFor(next, op, kept[j], after[|before| + j], l) && after[|before| + j].excludes == [];
      }
    }
  }

  /**
   * From index `start` to index `end`, `acts` holds, operator by operator
   * in the order of `ops`, the action nodes for the bindprops `blocks[o]`
   * of operator `ops[o]`.
   */
  ghost predicate OperatorBlocks(next: seq<PropNode>, ops: seq<Operator>, blocks: seq<seq<BindProp>>,
                                 acts: seq<ActionNode>, start: nat, end: nat, l: nat)
    decreases |blocks|
  {
    && |blocks| <= |ops|
    && if blocks == [] then end == start
       else
         var n := |blocks| - 1;
         && start + |blocks[n]| <= end
         && OperatorBlocks(next, ops, blocks[..n], acts, start, end - |blocks[n]|, l)
         && ActionsFor(next, ops[n], blocks[n], acts, end - |blocks[n]|, l)
  }

  /** The bindprops of each operator, in order, that generate_operator_actions turns into action nodes over `nodes`. */
  ghost predicate KeptBindprops(blocks: seq<seq<BindProp>>, ops: seq<Operator>, nodes: seq<PropNode>, table: InstanceTable) {
    && |blocks| <= |ops| && ExcludesIndexed(nodes)
    && forall o :: 0 <= o < |blocks| ==> OperatorOk(ops[o], table) && blocks[o] == ActionBindProps(ops[o], nodes, table)
  }

  /** The bindprops of the next operator, taken over a version of the level that differs only in users. */
  lemma KeptBindpropsAppend(blocks: seq<seq<BindProp>>, ops: seq<Operator>, nodes: seq<PropNode>, cur: seq<PropNode>,
                            table: InstanceTable, kept: seq<BindProp>)
    requires KeptBindprops(blocks, ops, nodes, table) && |blocks| < |ops| && OperatorOk(ops[|blocks|], table)
    requires SameButUsers(nodes, cur) && ExcludesIndexed(cur) && kept == ActionBindProps(ops[|blocks|], cur, table)
    ensures KeptBindprops(blocks + [kept], ops, nodes, table)
  {
    ActionBindPropsSame(ops[|blocks|], nodes, cur, table);
    var extended := blocks + [kept];
    forall o | 0 <= o < |extended|
      ensures OperatorOk(ops[o], table) && extended[o] == ActionBindProps(ops[o], nodes, table)
    {
      if o < |blocks| {
        assert extended[o] == blocks[o];
      }
    }
  }

  /** A block of action nodes stays in place when the level grows. */
  lemma ActionsForPrefix(next: seq<PropNode>, op: Operator, bps: seq<BindProp>, acts: seq<ActionNode>,
                         longer: seq<ActionNode>, start: nat, l: nat)
    requires ActionsFor(next, op, bps, acts, start, l) && acts <= longer
    ensures ActionsFor(next, op, bps, longer, start, l)
  {
  }

  /** The operator blocks survive later edits that keep the next level's literals and only append actions. */
  lemma {:induction false} OperatorBlocksKept(next: seq<PropNode>, after: seq<PropNode>, ops: seq<Operator>,
                                              blocks: seq<seq<BindProp>>, acts: seq<ActionNode>, longer: seq<ActionNode>,
                                              start: nat, end: nat, l: nat)
    requires OperatorBlocks(next, ops, blocks, acts, start, end, l)
    requires PropsKept(next, after) && acts <= longer
    ensures OperatorBlocks(after, ops, blocks, longer, start, end, l)
    ensures start <= end
    decreases |blocks|
  {
    if blocks != [] {
      var n := |blocks| - 1;
      var mid := end - |blocks[n]|;
      OperatorBlocksKept(next, after, ops, blocks[..n], acts, longer, start, mid, l);
      ActionsForKept(next, after, ops[n], blocks[n], acts, mid, l);
      ActionsForPrefix(after, ops[n], blocks[n], acts, longer, mid, l);
    }
  }

  /** One more operator: its block follows the blocks of the operators before it. */
  lemma OperatorBlocksStep(next: seq<PropNode>, after: seq<PropNode>, ops: seq<Operator>, blocks: seq<seq<BindProp>>,
                           acts: seq<ActionNode>, longer: seq<ActionNode>, start: nat, kept: seq<BindProp>, l: nat)
    requires |blocks| < |ops| && OperatorBlocks(next, ops, blocks, acts, start, |acts|, l)
    requires PropsKept(next, after) && acts <= longer && |longer| == |acts| + |kept|
    requires ActionsFor(after, ops[|blocks|], kept, longer, |acts|, l)
    ensures OperatorBlocks(after, ops, blocks + [kept], longer, start, |longer|, l)
  {
    OperatorBlocksKept(next, after, ops, blocks, acts, longer, start, |acts|, l);
    var extended := blocks + [kept];
    assert extended[..|extended| - 1] == blocks && extended[|extended| - 1] == kept;
    assert |longer| - |kept| == |acts|;
  }

  /**
   * The state of extend_graph_level's operator loop once the operators
   * with a block in `blocks` are done: from the levels `P1`, `A1` before
   * the loop to `P`, `A`, only levels `l` and `l + 1` changed; the new
   * action level grew by the blocks' actions, in order; the lower
   * proposition level gained users only; the upper one gained effect
   * links only and still has no mutex links.
   */
  ghost predicate OperatorsDone(P1: seq<seq<PropNode>>, A1: seq<seq<ActionNode>>, P: seq<seq<PropNode>>,
                                A: seq<seq<ActionNode>>, l: nat, ops: seq<Operator>, blocks: seq<seq<BindProp>>,
                                table: InstanceTable)
  {
    && l + 1 < |P1| && |P| == |P1| && l < |A1| && |A| == |A1|
    && A == A1[l := A[l]] && A1[l] <= A[l]
    && P == P1[l := P[l]][l + 1 := P[l + 1]]
    && NoActionExcludes(A[l]) && NoPropExcludes(P[l + 1])
    && SameButUsers(P1[l], P[l])
    && SameButEffectLinks(P1[l + 1], P[l + 1], l + 1)
    && (DistinctLiterals(P1[l + 1]) ==> DistinctLiterals(P[l + 1]))
    && KeptBindprops(blocks, ops, P1[l], table)
    && OperatorBlocks(P[l + 1], ops, blocks, A[l], |A1[l]|, |A[l]|, l)
  }

  /**
   * One more operator done: `kept` are its bindprops over the lower level
   * and the levels go from `P`, `A` to `P'`, `A'` as
   * generate_operator_actions changes them.
   */
  lemma OperatorsDoneStep(P1: seq<seq<PropNode>>, A1: seq<seq<ActionNode>>, P: seq<seq<PropNode>>,
                          A: seq<seq<ActionNode>>, P': seq<seq<PropNode>>, A': seq<seq<ActionNode>>, l: nat,
                          ops: seq<Operator>, blocks: seq<seq<BindProp>>, kept: seq<BindProp>, table: InstanceTable)
    requires OperatorsDone(P1, A1, P, A, l, ops, blocks, table) && |blocks| < |ops| && OperatorOk(ops[|blocks|], table)
    requires ExcludesIndexed(P[l]) && kept == ActionBindProps(ops[|blocks|], P[l], table)
    requires |A'| == |A| && A' == A[l := A'[l]] && A[l] <= A'[l] && |A'[l]| == |A[l]| + |kept|
    requires |P'| == |P| && P' == P[l := P'[l]][l + 1 := P'[l + 1]]
    requires ActionsFor(P'[l + 1], ops[|blocks|], kept, A'[l], |A[l]|, l)
    requires SameButUsers(P[l], P'[l]) && SameButEffectLinks(P[l + 1], P'[l + 1], l + 1)
    requires DistinctLiterals(P[l + 1]) ==> DistinctLiterals(P'[l + 1])
    ensures OperatorsDone(P1, A1, P', A', l, ops, blocks + [kept], table)
  {
    TwoPlaceFrame(P1, P, P', l);
    OnePlaceFrame(A1, A, A', l);
    SameButUsersTrans(P1[l], P[l], P'[l]);
    SameButEffectLinksTrans(P1[l + 1], P[l + 1], P'[l + 1], l + 1);
    EffectLinksNoExcludes(P[l + 1], P'[l + 1], l + 1);
    ActionsNoExcludes(A[l], A'[l], P'[l + 1], ops[|blocks|], kept, l);
    EffectLinksKeepProps(P[l + 1], P'[l + 1], l + 1);
    OperatorBlocksStep(P[l + 1], P'[l + 1], ops, blocks, A[l], A'[l], |A1[l]|, kept, l);
    KeptBindpropsAppend(blocks, ops, P1[l], P[l], table, kept);
  }

  /** Nodes keeping their literals, and no more nodes, keep the literals distinct. */
  lemma {:induction false} DistinctKept(before: seq<PropNode>, after: seq<PropNode>)
    requires DistinctLiterals(before) && PropsKept(before, after) && |after| == |before|
    ensures DistinctLiterals(after)
  {
    if after != [] {
      var b, a := before[..|before| - 1], after[..|after| - 1];
      DistinctKept(b, a);
      assert FirstMatch(b, before[|before| - 1].prop.atom).None?;
    }
  }

  /** Linking users changes no literal. */
  lemma UsersKeepDistinct(before: seq<PropNode>, after: seq<PropNode>)
    requires SameButUsers(before, after)
    ensures DistinctLiterals(before) ==> DistinctLiterals(after)
  {
    if DistinctLiterals(before) {
      DistinctKept(before, after);
    }
  }

  /**
   * The level added by extend_graph_level: the persisted copies of a level
   * with distinct literals are distinct, the operators' effects keep them
   * so, and the excludes links change no literal.
   */
  lemma ExtendKeepsDistinct(top: seq<PropNode>, mid: seq<PropNode>, after: seq<PropNode>, l: nat)
    requires DistinctLiterals(Persisted(top, l, |top|)) ==> DistinctLiterals(mid)
    requires |after| == |mid| && forall i :: 0 <= i < |mid| ==> after[i] == mid[i].(excludes := after[i].excludes)
    ensures DistinctLiterals(top) ==> DistinctLiterals(after)
  {
    if DistinctLiterals(top) {
      DistinctKept(top, Persisted(top, l, |top|));
      assert PropsKept(mid, after);
      DistinctKept(mid, after);
    }
  }

  /** Every proposition level holds at most one node per literal. */
  predicate LiteralsUnique(P: seq<seq<PropNode>>) {
    forall l :: 0 <= l < |P| ==> DistinctLiterals(P[l])
  }

  /**
   * A graph grown by one level, its lower levels untouched and its former
   * top level and new level distinct whenever the former top level was,
   * keeps one node per literal on every level.
   */
  lemma GrowKeepsUnique(before: seq<seq<PropNode>>, after: seq<seq<PropNode>>)
    requires |before| > 0 && |after| == |before| + 1
    requires after[..|before| - 1] == before[..|before| - 1]
    requires DistinctLiterals(before[|before| - 1]) ==>
               DistinctLiterals(after[|before| - 1]) && DistinctLiterals(after[|before|])
    ensures LiteralsUnique(before) ==> LiteralsUnique(after)
  {
  }

  /** Every proposition level keeps the literals of the level below it, at the same indices. */
  predicate LevelsPersist(P: seq<seq<PropNode>>) {
    forall l :: 0 <= l < |P| - 1 ==> PropsKept(P[l], P[l + 1])
  }

  /**
   * A graph grown by one level, its lower levels untouched, its former top
   * level changed in users only and its new level keeping the former top
   * level's literals, keeps every level's literals in the level above.
   */
  lemma GrowKeepsPersist(before: seq<seq<PropNode>>, after: seq<seq<PropNode>>)
    requires |before| > 0 && |after| == |before| + 1
    requires after[..|before| - 1] == before[..|before| - 1]
    requires SameButUsers(before[|before| - 1], after[|before| - 1])
    requires PropsKept(before[|before| - 1], after[|before|])
    ensures LevelsPersist(before) ==> LevelsPersist(after)
  {
  }

  /** The initial literals are pairwise different. */
  predicate DistinctProps(props: seq<Prop>) {
    forall i, j :: 0 <= i < j < |props| ==> props[i].atom != props[j].atom
  }

  /** Level 0 holds one node per initial literal, so distinct initial literals give distinct nodes. */
  lemma InitialDistinct(initial: seq<Prop>, nodes: seq<PropNode>)
    requires |nodes| == |initial| && forall i :: 0 <= i < |initial| ==> nodes[i] == PropNode(initial[i], 0, [], [], [], [])
    ensures DistinctProps(initial) <==> DistinctLiterals(nodes)
  {
    DistinctLiteralsPairwise(nodes);
  }

  /** The first `n` actions of a level are its persistence actions, whatever their excludes. */
  predicate NoopsFirst(acts: seq<ActionNode>, l: nat, n: nat) {
    n <= |acts| && forall i :: 0 <= i < n ==> acts[i] == Noop(l, i).(excludes := acts[i].excludes)
  }

  lemma NoopsFirstKept(l: nat, n: nat, acts: seq<ActionNode>, after: seq<ActionNode>)
    requires Noops(l, n) <= acts && |after| == |acts|
    requires forall k :: 0 <= k < |acts| ==> after[k] == acts[k].(excludes := after[k].excludes)
    ensures NoopsFirst(after, l, n)
  {
  }

  /**
   * Levels `L` and `L + 1` of `P`/`A` as the first half of
   * extend_graph_level leaves them, starting from `P0`/`A0` with both
   * empty: the old top gains users only, the action level starts with the
   * persistence actions, the new level grows from the persisted copies by
   * effect links and fresh nodes, and neither has mutex links yet.
   */
  ghost predicate LevelActionsAdded(P0: seq<seq<PropNode>>, A0: seq<seq<ActionNode>>,
                                    P: seq<seq<PropNode>>, A: seq<seq<ActionNode>>, L: nat)
    requires L + 1 < |P0| && L < |A0|
  {
    var n := |P0[L]|;
    |P| == |P0| && |A| == |A0| && A == A0[L := A[L]] && P == P0[L := P[L]][L + 1 := P[L + 1]] &&
    SameButUsers(P0[L], P[L]) && Noops(L, n) <= A[L] &&
    SameButEffectLinks(Persisted(P0[L], L + 1, n), P[L + 1], L + 1) &&
    (DistinctLiterals(Persisted(P0[L], L + 1, n)) ==> DistinctLiterals(P[L + 1])) &&
    NoActionExcludes(A[L]) && NoPropExcludes(P[L + 1])
  }

  /** Neither the persistence actions nor the persisted copies have mutex links. */
  lemma FreshLevelNoExcludes(nodes: seq<PropNode>, l: nat)
    ensures NoActionExcludes(Noops(l, |nodes|)) && NoPropExcludes(Persisted(nodes, l + 1, |nodes|))
  {
  }

  /** Levels `L` and `L + 1` after generate_noop_actions, from `P0`/`A0` to `P1`/`A1`. */
  ghost predicate NoopsAdded(P0: seq<seq<PropNode>>, A0: seq<seq<ActionNode>>, P1: seq<seq<PropNode>>, A1: seq<seq<ActionNode>>, L: nat)
    requires L + 1 < |P0| && L < |A0|
  {
    A1 == A0[L := Noops(L, |P0[L]|)] &&
    P1 == P0[L := Used(P0[L], |P0[L]|)][L + 1 := Persisted(P0[L], L + 1, |P0[L]|)]
  }

  lemma LevelActionsAddedFrom(P0: seq<seq<PropNode>>, A0: seq<seq<ActionNode>>, P1: seq<seq<PropNode>>, A1: seq<seq<ActionNode>>,
                              P: seq<seq<PropNode>>, A: seq<seq<ActionNode>>, L: nat,
                              ops: seq<Operator>, blocks: seq<seq<BindProp>>, table: InstanceTable)
    requires L + 1 < |P0| && L < |A0| && NoopsAdded(P0, A0, P1, A1, L)
    requires OperatorsDone(P1, A1, P, A, L, ops, blocks, table)
    ensures LevelActionsAdded(P0, A0, P, A, L)
  {
    UsedOnlyUsers(P0[L], |P0[L]|);
    SameButUsersTrans(P0[L], P1[L], P[L]);
  }

  /** Marking nodes as used by their persistence actions changes their users only. */
  lemma UsedOnlyUsers(nodes: seq<PropNode>, n: nat)
    ensures SameButUsers(nodes, Used(nodes, n))
  {
  }

  /** The copies heading the new level keep the literals of the level below through later edits. */
  lemma PersistedKept(top: seq<PropNode>, l: nat, mid: seq<PropNode>, after: seq<PropNode>)
    requires SameButEffectLinks(Persisted(top, l, |top|), mid, l)
    requires |after| == |mid| && forall i :: 0 <= i < |mid| ==> after[i] == mid[i].(excludes := after[i].excludes)
    ensures PropsKept(top, after)
  {
  }

  /** The nodes following `before` in `after` carry literals among `atoms`. */
  predicate NewLiterals(before: seq<PropNode>, after: seq<PropNode>, atoms: seq<Atom>) {
    forall i :: |before| <= i < |after| ==> after[i].prop.atom in atoms
  }

  /**
   * The effect level after one action `a` is linked: every node existing
   * before, or created fresh, gains `a` as an adder once per occurrence in
   * `adds` and as a deleter once per occurrence in `dels`.
   */
  predicate EffectLinked(before: seq<PropNode>, after: seq<PropNode>, l: nat, adds: seq<nat>, dels: seq<nat>, a: nat) {
    && |before| <= |after|
    && forall i :: 0 <= i < |after| ==>
         var base := if i < |before| then before[i] else PropNode(after[i].prop, l, [], [], [], []);
         after[i] == base.(adders := base.adders + Occurrences(adds, i, a), deleters := base.deleters + Occurrences(dels, i, a))
  }

  /** Only the users of the nodes changed. */
  predicate SameButUsers(before: seq<PropNode>, after: seq<PropNode>) {
    |after| == |before| && forall i :: 0 <= i < |before| ==> after[i] == before[i].(users := after[i].users)
  }

  /**
   * Only the adders and deleters of the existing nodes changed; the nodes
   * that follow are new nodes of level `l` without users or excludes.
   */
  predicate SameButEffectLinks(before: seq<PropNode>, after: seq<PropNode>, l: nat) {
    && |before| <= |after|
    && (forall i :: 0 <= i < |before| ==> after[i] == before[i].(adders := after[i].adders, deleters := after[i].deleters))
    && (forall i :: |before| <= i < |after| ==> after[i].level == l && after[i].users == [] && after[i].excludes == [])
  }

  /** Every parameter kind of every operator is the kind of some instance. */
  predicate KindsInhabited(operators: seq<Operator>, instances: seq<Instance>) {
    forall o, k :: 0 <= o < |operators| && 0 <= k < |operators[o].params| ==>
      exists i :: 0 <= i < |instances| && instances[i].kind == operators[o].params[k].kind
  }

  /** Every parameter kind of every operator names some instance, so the instance table lists it. */
  lemma OperatorsKnown(operators: seq<Operator>, instances: seq<Instance>, t: InstanceTable)
    requires forall o :: 0 <= o < |operators| ==> WellFormed(operators[o])
    requires KindsInhabited(operators, instances)
    requires forall k :: k in t <==> exists i :: 0 <= i < |instances| && instances[i].kind == k
    ensures forall o :: 0 <= o < |operators| ==> OperatorOk(operators[o], t)
  {
  }

  /**
   * What solve returns: a plan with the goal nodes it achieves, no plan
   * at all, the level bound reached, or the IndexError the search raises
   * on an empty goal list.
   */
  datatype SolveResult = Plan(plan: seq<seq<nat>>, goalNodes: seq<nat>) | NoSolution | LevelLimit | IndexError

  /** The memo of goal sets without a plan keeps its levels and only gains entries. */
  predicate MemoGrows(before: seq<set<seq<nat>>>, after: seq<set<seq<nat>>>) {
    |after| == |before| && forall l :: 0 <= l < |before| ==> before[l] <= after[l]
  }

  /** The memo after several levels: the old levels' entries only grew. */
  predicate MemoExtends(before: seq<set<seq<nat>>>, after: seq<set<seq<nat>>>) {
    |before| <= |after| && forall l :: 0 <= l < |before| ==> before[l] <= after[l]
  }

  lemma MemoGrowsTrans(a: seq<set<seq<nat>>>, b: seq<set<seq<nat>>>, c: seq<set<seq<nat>>>)
    requires MemoGrows(a, b) && MemoGrows(b, c)
    ensures MemoGrows(a, c)
  {
  }

  /** Each goal literal's first node in the level, for a level holding every goal literal. */
  predicate GoalsAt(nodes: seq<PropNode>, goals: seq<Prop>, gs: seq<nat>) {
    |gs| == |goals| && forall g :: 0 <= g < |goals| ==> FirstMatch(nodes, goals[g].atom) == Some(gs[g])
  }

  /** The goals have at most one list of nodes in a level. */
  lemma GoalsAtUnique(nodes: seq<PropNode>, goals: seq<Prop>, gs: seq<nat>, gs': seq<nat>)
    requires GoalsAt(nodes, goals, gs) && GoalsAt(nodes, goals, gs')
    ensures gs == gs'
  {
    assert forall g :: 0 <= g < |gs| ==> gs[g] == gs'[g];
  }

  /** The top proposition level. */
  function Top(P: seq<seq<PropNode>>): seq<PropNode>
    requires |P| > 0
  {
    P[|P| - 1]
  }

  /** Some goal literal has no node in the level. */
  predicate GoalMissing(nodes: seq<PropNode>, goals: seq<Prop>) {
    exists g :: 0 <= g < |goals| && FirstMatch(nodes, goals[g].atom).None?
  }

  /** Two of the nodes `gs` of a level are mutex. */
  predicate MutexAt(nodes: seq<PropNode>, gs: seq<nat>) {
    ExcludesIndexed(nodes) && IndicesBelow(gs, |nodes|) && GoalsMutex(nodes, gs)
  }

  /**
   * What a result of solve promises: a plan comes with the goals' nodes
   * in the top level, no two of them mutex, and has one layer per action
   * level achieving them from the initial level; the IndexError comes
   * only from an empty goal list or an action without preconditions.
   */
  ghost predicate SolvedBy(P: seq<seq<PropNode>>, A: seq<seq<ActionNode>>, goals: seq<Prop>, res: SolveResult) {
    && (res.Plan? ==> && |P| > 0
                      && GoalsAt(P[|P| - 1], goals, res.goalNodes)
                      && ArenaIndexed(P, A)
                      && |res.plan| == |A|
                      && PlanOk(P, A, res.plan, res.goalNodes)
                      && ExcludesIndexed(P[|P| - 1])
                      && !GoalsMutex(P[|P| - 1], res.goalNodes))
    && (res.IndexError? ==> |goals| == 0 || PreconditionFree(A))
  }

  /** terminate's test: the graph leveled off and the last two levels record as many failed goal sets. */
  predicate Terminated(P: seq<seq<PropNode>>, memo: seq<set<seq<nat>>>) {
    LevelsMatch(P) && |memo| >= 2 && |memo[|memo| - 1]| == |memo[|memo| - 2]|
  }

  class PlanningProblem {
    const name: string
    const instances: seq<Instance>
    const operators: seq<Operator>
    const initial: seq<Prop>
    const goals: seq<Prop>
    const instanceTable: InstanceTable
    /** The proposition table shared by every literal of the problem. */
    const table: Interner
    var propLevels: seq<seq<PropNode>>
    var actionLevels: seq<seq<ActionNode>>
    var level: int
    /** Per proposition level, the goal sets (by sorted propnums) known to have no plan. */
    var unsolvable: seq<set<seq<nat>>>

    ghost predicate Valid()
      reads this, table
    {
      && table.Valid()
      && GraphOk(propLevels, actionLevels)
      && level + 1 == |actionLevels|
      && |unsolvable| == |propLevels|
      && (forall o :: 0 <= o < |operators| ==> OperatorOk(operators[o], instanceTable))
    }

    /**
     * PlanningProblem.__init__ with generate_instance_table and
     * populate_prop_level_0: the instances grouped by kind and one
     * proposition node per initial literal, in order.
     */
    constructor (name: string, instances: seq<Instance>, operators: seq<Operator>, initial: seq<Prop>,
                 goals: seq<Prop>, table: Interner)
      requires table.Valid()
      requires forall i :: 0 <= i < |initial| ==> initial[i].num.Some?
      requires forall o :: 0 <= o < |operators| ==> WellFormed(operators[o])
      requires KindsInhabited(operators, instances)
      ensures Valid()
      ensures this.name == name && this.instances == instances && this.operators == operators
      ensures this.initial == initial && this.goals == goals && this.table == table
      ensures forall k :: k in instanceTable <==> exists i :: 0 <= i < |instances| && instances[i].kind == k
      ensures forall k :: k in instanceTable ==> instanceTable[k] == OfKind(instances, |instances|, k)
      ensures |propLevels| == 1 && |propLevels[0]| == |initial|
      ensures forall i :: 0 <= i < |initial| ==> propLevels[0][i] == PropNode(initial[i], 0, [], [], [], [])
      ensures actionLevels == [] && level == -1 && unsolvable == [{}]
      ensures DistinctProps(initial) <==> LiteralsUnique(propLevels)
    {
      this.name := name;
      this.instances := instances;
      this.operators := operators;
      this.initial := initial;
      this.goals := goals;
      this.table := table;
      var t := GenerateInstanceTable(instances);
      OperatorsKnown(operators, instances, t);
      instanceTable := t;
      actionLevels := [];
      level := -1;
      unsolvable := [{}];
      propLevels := [[]];
      new;
      PopulatePropLevel0();
      InitialDistinct(initial, propLevels[0]);
    }

    /** populate_prop_level_0: one fresh node of level 0 per initial literal, in order. */
    method PopulatePropLevel0()
      requires table.Valid() && actionLevels == [] && level == -1 && |unsolvable| == 1
      requires forall o :: 0 <= o < |operators| ==> OperatorOk(operators[o], instanceTable)
      requires forall i :: 0 <= i < |initial| ==> initial[i].num.Some?
      modifies this`propLevels
      ensures Valid()
      ensures |propLevels| == 1 && |propLevels[0]| == |initial|
      ensures forall i :: 0 <= i < |initial| ==> propLevels[0][i] == PropNode(initial[i], 0, [], [], [], [])
    {
      propLevels := [[]];
      for i := 0 to |initial|
        invariant GraphOk(propLevels, [])
        invariant |propLevels| == 1 && |propLevels[0]| == i
        invariant forall j :: 0 <= j < i ==> propLevels[0][j] == PropNode(initial[j], 0, [], [], [], [])
      {
        AppendPropNode(propLevels, [], 0, initial[i]);
        propLevels := [propLevels[0] + [PropNode(initial[i], 0, [], [], [], [])]];
      }
    }

    /**
     * get_propnode: the first node of level `lvl` carrying the literal of
     * `prop`, appending a fresh node for `prop` when there is none.
     */
    method GetPropnode(prop: Prop, lvl: nat) returns (idx: nat)
      requires Valid() && lvl < |propLevels| && prop.num.Some?
      modifies this`propLevels
      ensures Valid()
      ensures |propLevels| == old(|propLevels|) && propLevels == old(propLevels)[lvl := propLevels[lvl]]
      ensures idx < |propLevels[lvl]| && FirstMatch(propLevels[lvl], prop.atom) == Some(idx)
      ensures old(FirstMatch(propLevels[lvl], prop.atom)).Some? ==> propLevels == old(propLevels)
      ensures old(FirstMatch(propLevels[lvl], prop.atom)).None? ==>
                propLevels == old(propLevels)[lvl := old(propLevels[lvl]) + [PropNode(prop, lvl, [], [], [], [])]]
      ensures DistinctLiterals(old(propLevels[lvl])) ==> DistinctLiterals(propLevels[lvl])
    {
      var existing := GetExistingPropnode(propLevels[lvl], prop.atom);
      if existing.Some? {
        return existing.value;
      }
      var node := PropNode(prop, lvl, [], [], [], []);
      AppendPropNode(propLevels, actionLevels, lvl, prop);
      FirstMatchAppend(propLevels[lvl], node, prop.atom);
      if DistinctLiterals(propLevels[lvl]) {
        DistinctAppend(propLevels[lvl], node);
      }
      idx := |propLevels[lvl]|;
      propLevels := propLevels[lvl := propLevels[lvl] + [node]];
    }

    /** Appends action `a` of level `l` to the users of each of its preconditions `ns`. */
    method LinkUsers(l: nat, ns: seq<nat>, a: nat)
      requires Valid() && l < |actionLevels| && IndicesBelow(ns, |propLevels[l]|) && a < |actionLevels[l]|
      modifies this`propLevels
      ensures Valid()
      ensures |propLevels| == old(|propLevels|) && |propLevels[l]| == old(|propLevels[l]|)
      ensures forall m :: 0 <= m < |propLevels| && m != l ==> propLevels[m] == old(propLevels[m])
      ensures forall i :: 0 <= i < |propLevels[l]| ==>
                propLevels[l][i] == old(propLevels[l][i]).(users := old(propLevels[l][i].users) + Occurrences(ns, i, a))
    {
      for k := 0 to |ns|
        invariant Valid()
        invariant |propLevels| == old(|propLevels|) && |propLevels[l]| == old(|propLevels[l]|)
        invariant forall m :: 0 <= m < |propLevels| && m != l ==> propLevels[m] == old(propLevels[m])
        invariant forall i :: 0 <= i < |propLevels[l]| ==>
                    propLevels[l][i] == old(propLevels[l][i]).(users := old(propLevels[l][i].users) + Occurrences(ns[..k], i, a))
      {
        forall i | 0 <= i < |propLevels[l]| {
          OccurrencesStep(ns, k, i, a);
        }
        AppendUser(propLevels, actionLevels, l, ns[k], a);
        propLevels := propLevels[l := propLevels[l][ns[k] := WithUser(propLevels[l][ns[k]], a)]];
      }
      assert ns[..|ns|] == ns;
    }

    /** Appends action `a` of level `l - 1` to the adders of each node of level `l` it adds. */
    method LinkAdders(l: nat, adds: seq<nat>, a: nat)
      requires Valid() && 1 <= l < |propLevels| && a < |actionLevels[l - 1]|
      requires IndicesBelow(adds, |propLevels[l]|) && forall k :: 0 <= k < |adds| ==> adds[k] in actionLevels[l - 1][a].adds
      modifies this`propLevels
      ensures Valid()
      ensures |propLevels| == old(|propLevels|) && |propLevels[l]| == old(|propLevels[l]|)
      ensures forall m :: 0 <= m < |propLevels| && m != l ==> propLevels[m] == old(propLevels[m])
      ensures forall i :: 0 <= i < |propLevels[l]| ==>
                propLevels[l][i] == old(propLevels[l][i]).(adders := old(propLevels[l][i].adders) + Occurrences(adds, i, a))
    {
      for k := 0 to |adds|
        invariant Valid()
        invariant |propLevels| == old(|propLevels|) && |propLevels[l]| == old(|propLevels[l]|)
        invariant forall m :: 0 <= m < |propLevels| && m != l ==> propLevels[m] == old(propLevels[m])
        invariant forall i :: 0 <= i < |propLevels[l]| ==>
                    propLevels[l][i] == old(propLevels[l][i]).(adders := old(propLevels[l][i].adders) + Occurrences(adds[..k], i, a))
      {
        forall i | 0 <= i < |propLevels[l]| {
          OccurrencesStep(adds, k, i, a);
        }
        AppendAdder(propLevels, actionLevels, l, adds[k], a);
        propLevels := propLevels[l := propLevels[l][adds[k] := WithAdder(propLevels[l][adds[k]], a)]];
      }
      assert adds[..|adds|] == adds;
    }

    /** Appends action `a` of level `l - 1` to the deleters of each node of level `l` it deletes. */
    method LinkDeleters(l: nat, dels: seq<nat>, a: nat)
      requires Valid() && 1 <= l < |propLevels| && a < |actionLevels[l - 1]| && IndicesBelow(dels, |propLevels[l]|)
      modifies this`propLevels
      ensures Valid()
      ensures |propLevels| == old(|propLevels|) && |propLevels[l]| == old(|propLevels[l]|)
      ensures forall m :: 0 <= m < |propLevels| && m != l ==> propLevels[m] == old(propLevels[m])
      ensures forall i :: 0 <= i < |propLevels[l]| ==>
                propLevels[l][i] == old(propLevels[l][i]).(deleters := old(propLevels[l][i].deleters) + Occurrences(dels, i, a))
    {
      for k := 0 to |dels|
        invariant Valid()
        invariant |propLevels| == old(|propLevels|) && |propLevels[l]| == old(|propLevels[l]|)
        invariant forall m :: 0 <= m < |propLevels| && m != l ==> propLevels[m] == old(propLevels[m])
        invariant forall i :: 0 <= i < |propLevels[l]| ==>
                    propLevels[l][i] == old(propLevels[l][i]).(deleters := old(propLevels[l][i].deleters) + Occurrences(dels[..k], i, a))
      {
        forall i | 0 <= i < |propLevels[l]| {
          OccurrencesStep(dels, k, i, a);
        }
        AppendDeleter(propLevels, actionLevels, l, dels[k], a);
        propLevels := propLevels[l := propLevels[l][dels[k] := WithDeleter(propLevels[l][dels[k]], a)]];
      }
      assert dels[..|dels|] == dels;
    }
  
    /**
     * One effect of generate_action_node: template `t` instantiated under
     * `b` and its node found or created at level `lvl`. `P0` is the state
     * before the first effect, `atoms` the literals the effects may add.
     */
    method EffectNode(t: Atom, b: Binding, lvl: nat, ghost P0: seq<seq<PropNode>>, ghost atoms: seq<Atom>)
      returns (idx: nat)
      requires Valid() && lvl < |propLevels| && BoundBy(t, b) && Subst(t, b) in atoms
      requires |P0| == |propLevels| && propLevels == P0[lvl := propLevels[lvl]]
      requires GrownBy(P0[lvl], propLevels[lvl], lvl, atoms)
      modifies this`propLevels, table
      ensures Valid()
      ensures propLevels == P0[lvl := propLevels[lvl]]
      ensures GrownBy(P0[lvl], propLevels[lvl], lvl, atoms)
      ensures PropsKept(old(propLevels[lvl]), propLevels[lvl])
      ensures idx < |propLevels[lvl]| && FirstMatch(propLevels[lvl], Subst(t, b)) == Some(idx)
      ensures DistinctLiterals(old(propLevels[lvl])) ==> DistinctLiterals(propLevels[lvl])
      ensures (table.ids, table.order) == Interned(old(table.ids), old(table.order), [Subst(t, b)])
      ensures Subst(t, b) in table.ids
      ensures old(FirstMatch(propLevels[lvl], Subst(t, b))).None? ==>
                propLevels[lvl] == old(propLevels[lvl]) + [PropNode(Prop(Subst(t, b), Some(table.ids[Subst(t, b)])), lvl, [], [], [], [])]
      ensures TableGrows(old(table.ids), old(table.order), table.ids, table.order)
    {
      var before := propLevels[lvl];
      ghost var levels := propLevels;
      var p := table.Instantiate(t, b);
      idx := GetPropnode(p, lvl);
      OnePlaceFrame(P0, levels, propLevels, lvl);
      GrownByStep(P0[lvl], before, propLevels[lvl], lvl, atoms);
    }

    /**
     * Instantiates each effect template under `b` and finds or creates its
     * node at level `lvl`, in order (the comprehensions over op.adds and
     * op.deletes in generate_action_node).
     */
    method EffectNodes(templates: seq<Atom>, b: Binding, lvl: nat) returns (ns: seq<nat>)
      requires Valid() && lvl < |propLevels|
      requires forall k :: 0 <= k < |templates| ==> BoundBy(templates[k], b)
      modifies this`propLevels, table
      ensures Valid()
      ensures propLevels == old(propLevels)[lvl := propLevels[lvl]]
      ensures GrownBy(old(propLevels[lvl]), propLevels[lvl], lvl, Instances(templates, b))
      ensures |ns| == |templates| && IndicesBelow(ns, |propLevels[lvl]|)
      ensures forall k :: 0 <= k < |ns| ==> FirstMatch(propLevels[lvl], Subst(templates[k], b)) == Some(ns[k])
      ensures DistinctLiterals(old(propLevels[lvl])) ==> DistinctLiterals(propLevels[lvl])
      ensures TableGrows(old(table.ids), old(table.order), table.ids, table.order)
    {
      ns := [];
      ghost var P0 := propLevels;
      ghost var atoms := Instances(templates, b);
      for k := 0 to |templates|
        invariant Valid()
        invariant propLevels == P0[lvl := propLevels[lvl]]
        invariant GrownBy(P0[lvl], propLevels[lvl], lvl, atoms)
        invariant |ns| == k && IndicesBelow(ns, |propLevels[lvl]|)
        invariant FoundAt(propLevels[lvl], atoms, ns)
        invariant DistinctLiterals(P0[lvl]) ==> DistinctLiterals(propLevels[lvl])
        invariant TableGrows(old(table.ids), old(table.order), table.ids, table.order)
      {
        var before := propLevels[lvl];
        ghost var ids, order := table.ids, table.order;
        assert atoms[k] == Subst(templates[k], b);
        var idx := EffectNode(templates[k], b, lvl, P0, atoms);
        TableGrowsTrans(old(table.ids), old(table.order), ids, order, table.ids, table.order);
        FoundAtStep(before, propLevels[lvl], atoms, ns, idx);
        ns := ns + [idx];
      }
      forall k | 0 <= k < |ns|
        ensures FirstMatch(propLevels[lvl], Subst(templates[k], b)) == Some(ns[k])
      {
        assert atoms[k] == Subst(templates[k], b);
      }
    }

    /**
     * The effect nodes of an action for operator `op` under binding `b`:
     * first the adds, then the deletes, each found or created at level
     * `lvl`.
     */
    method EffectsOf(op: Operator, b: Binding, lvl: nat) returns (adds: seq<nat>, dels: seq<nat>)
      requires Valid() && lvl < |propLevels|
      requires forall k :: 0 <= k < |op.adds| ==> BoundBy(op.adds[k], b)
      requires forall k :: 0 <= k < |op.deletes| ==> BoundBy(op.deletes[k], b)
      modifies this`propLevels, table
      ensures Valid()
      ensures propLevels == old(propLevels)[lvl := propLevels[lvl]]
      ensures GrownBy(old(propLevels[lvl]), propLevels[lvl], lvl, Instances(op.adds, b) + Instances(op.deletes, b))
      ensures |adds| == |op.adds| && IndicesBelow(adds, |propLevels[lvl]|)
      ensures |dels| == |op.deletes| && IndicesBelow(dels, |propLevels[lvl]|)
      ensures forall k :: 0 <= k < |adds| ==> FirstMatch(propLevels[lvl], Subst(op.adds[k], b)) == Some(adds[k])
      ensures forall k :: 0 <= k < |dels| ==> FirstMatch(propLevels[lvl], Subst(op.deletes[k], b)) == Some(dels[k])
      ensures DistinctLiterals(old(propLevels[lvl])) ==> DistinctLiterals(propLevels[lvl])
      ensures TableGrows(old(table.ids), old(table.order), table.ids, table.order)
    {
      adds := EffectNodes(op.adds, b, lvl);
      ghost var mid := propLevels[lvl];
      ghost var ids, order := table.ids, table.order;
      dels := EffectNodes(op.deletes, b, lvl);
      TableGrowsTrans(old(table.ids), old(table.order), ids, order, table.ids, table.order);
      forall k | 0 <= k < |adds|
        ensures FirstMatch(propLevels[lvl], Subst(op.adds[k], b)) == Some(adds[k])
      {
        FirstMatchKept(mid, propLevels[lvl], Subst(op.adds[k], b));
      }
      GrownByJoin(old(propLevels[lvl]), mid, propLevels[lvl], lvl, Instances(op.adds, b), Instances(op.deletes, b));
    }

    /** Links action `a` of level `l - 1` as an adder of `adds` and a deleter of `dels`. */
    method LinkEffects(l: nat, adds: seq<nat>, dels: seq<nat>, a: nat)
      requires Valid() && 1 <= l < |propLevels| && a < |actionLevels[l - 1]|
      requires IndicesBelow(adds, |propLevels[l]|) && forall k :: 0 <= k < |adds| ==> adds[k] in actionLevels[l - 1][a].adds
      requires IndicesBelow(dels, |propLevels[l]|)
      modifies this`propLevels
      ensures Valid()
      ensures propLevels == old(propLevels)[l := propLevels[l]] && |propLevels[l]| == old(|propLevels[l]|)
      ensures forall i :: 0 <= i < |propLevels[l]| ==>
                propLevels[l][i] == old(propLevels[l][i]).(adders := old(propLevels[l][i].adders) + Occurrences(adds, i, a),
                                                           deleters := old(propLevels[l][i].deleters) + Occurrences(dels, i, a))
      ensures DistinctLiterals(old(propLevels[l])) ==> DistinctLiterals(propLevels[l])
    {
      LinkAdders(l, adds, a);
      LinkDeleters(l, dels, a);
      if DistinctLiterals(old(propLevels[l])) {
        DistinctKept(old(propLevels[l]), propLevels[l]);
      }
    }

    /**
     * generate_action_node: the action node for operator `op` and bindprop
     * `bp`, appended to the last action level, its effects found or
     * created at the last proposition level, and the node linked as a user
     * of its preconditions, an adder of its adds and a deleter of its
     * deletes. The node is appended first and linked afterwards; the
     * original links the node before the comprehension appends it, which
     * ends in the same graph.
     */
    method GenerateActionNode(op: Operator, bp: BindProp) returns (a: nat)
      requires Valid() && level >= 0
      requires IndicesBelow(bp.propnodes, |propLevels[level]|)
      requires forall k :: 0 <= k < |op.adds| ==> BoundBy(op.adds[k], bp.bindings)
      requires forall k :: 0 <= k < |op.deletes| ==> BoundBy(op.deletes[k], bp.bindings)
      modifies this`propLevels, this`actionLevels, table
      ensures Valid()
      ensures |actionLevels| == old(|actionLevels|) && a == old(|actionLevels[level]|) && a < |actionLevels[level]|
      ensures actionLevels == old(actionLevels)[level := old(actionLevels[level]) + [actionLevels[level][a]]]
      ensures actionLevels[level][a].excludes == []
      ensures ActionFor(propLevels[level + 1], op, bp, actionLevels[level][a], level)
      ensures propLevels == old(propLevels)[level := propLevels[level]][level + 1 := propLevels[level + 1]]
      ensures |propLevels[level]| == old(|propLevels[level]|)
      ensures forall i :: 0 <= i < |propLevels[level]| ==>
                propLevels[level][i] ==
                old(propLevels[level][i]).(users := old(propLevels[level][i].users) + Occurrences(bp.propnodes, i, a))
      ensures EffectLinked(old(propLevels[level + 1]), propLevels[level + 1], level + 1,
                           actionLevels[level][a].adds, actionLevels[level][a].deletes, a)
      ensures NewLiterals(old(propLevels[level + 1]), propLevels[level + 1],
                          Instances(op.adds, bp.bindings) + Instances(op.deletes, bp.bindings))
      ensures DistinctLiterals(old(propLevels[level + 1])) ==> DistinctLiterals(propLevels[level + 1])
      ensures TableGrows(old(table.ids), old(table.order), table.ids, table.order)
    {
      ghost var next0 := propLevels[level + 1];
      var adds, dels := EffectsOf(op, bp.bindings, level + 1);
      ghost var next1 := propLevels[level + 1];
      a := |actionLevels[level]|;
      var node := ActionNode(op.name, level, bp.bindings, bp.propnodes, adds, dels, []);
      AppendActionNode(propLevels, actionLevels, level, node);
      actionLevels := actionLevels[level := actionLevels[level] + [node]];
      LinkUsers(level, bp.propnodes, a);
      assert propLevels[level + 1] == next1;
      LinkEffects(level + 1, adds, dels, a);
      ActionForKept(next1, propLevels[level + 1], op, bp, node, level);
      LinkedAfterGrowth(next0, next1, propLevels[level + 1], level + 1, adds, dels, a);
    }

    /**
     * generate_action_node as the loop of generate_operator_actions sees
     * it: the effect level only gains adders and deleters on existing
     * nodes and fresh nodes without users or excludes.
     */
    method AddActionNode(op: Operator, bp: BindProp, ghost nodes: seq<PropNode>, ghost P0: seq<seq<PropNode>>) returns (a: nat)
      requires Valid() && level >= 0
      requires IndicesBelow(bp.propnodes, |propLevels[level]|)
      requires forall k :: 0 <= k < |op.adds| ==> BoundBy(op.adds[k], bp.bindings)
      requires forall k :: 0 <= k < |op.deletes| ==> BoundBy(op.deletes[k], bp.bindings)
      requires |P0| == |propLevels| && propLevels == P0[level := propLevels[level]][level + 1 := propLevels[level + 1]]
      requires SameButUsers(nodes, propLevels[level])
      requires SameButEffectLinks(P0[level + 1], propLevels[level + 1], level + 1)
      modifies this`propLevels, this`actionLevels, table
      ensures Valid()
      ensures |actionLevels| == old(|actionLevels|) && a == old(|actionLevels[level]|) && a < |actionLevels[level]|
      ensures actionLevels == old(actionLevels)[level := old(actionLevels[level]) + [actionLevels[level][a]]]
      ensures actionLevels[level][a].excludes == []
      ensures ActionFor(propLevels[level + 1], op, bp, actionLevels[level][a], level)
      ensures propLevels == P0[level := propLevels[level]][level + 1 := propLevels[level + 1]]
      ensures SameButUsers(nodes, propLevels[level])
      ensures SameButEffectLinks(P0[level + 1], propLevels[level + 1], level + 1)
      ensures PropsKept(old(propLevels[level + 1]), propLevels[level + 1])
      ensures DistinctLiterals(old(propLevels[level + 1])) ==> DistinctLiterals(propLevels[level + 1])
      ensures TableGrows(old(table.ids), old(table.order), table.ids, table.order)
    {
      ghost var cur, next, levels := propLevels[level], propLevels[level + 1], propLevels;
      a := GenerateActionNode(op, bp);
      TwoPlaceFrame(P0, levels, propLevels, level);
      assert SameButUsers(cur, propLevels[level]);
      SameButUsersTrans(nodes, cur, propLevels[level]);
      EffectLinksStep(P0[level + 1], next, propLevels[level + 1], level + 1,
                      actionLevels[level][a].adds, actionLevels[level][a].deletes, a);
    }

    /**
     * generate_noop_actions: on a freshly added pair of levels, one
     * persistence action per node of the previous level, in order; the
     * new level starts with a copy of every previous node.
     */
    method GenerateNoopActions()
      requires Valid() && level >= 0 && actionLevels[level] == [] && propLevels[level + 1] == []
      modifies this`propLevels, this`actionLevels
      ensures Valid()
      ensures actionLevels == old(actionLevels)[level := Noops(level, old(|propLevels[level]|))]
      ensures propLevels == old(propLevels)[level := Used(old(propLevels[level]), old(|propLevels[level]|))]
                                           [level + 1 := Persisted(old(propLevels[level]), level + 1, old(|propLevels[level]|))]
    {
      var L: nat := level;
      var cur := propLevels[L];
      var used, copies, noops := cur, [], [];
      assert Used(cur, 0) == cur;
      for i := 0 to |cur|
        invariant propLevels == old(propLevels) && actionLevels == old(actionLevels)
        invariant used == Used(cur, i) && copies == Persisted(cur, L + 1, i) && noops == Noops(L, i)
      {
        var pnode := cur[i];
        var anode := ActionNode(NOOP, L, map[], [i], [i], [], []);
        var pnode2 := PropNode(pnode.prop, 1 + L, [i], [], [], []);
        used := used[i := WithUser(pnode, i)];
        copies := copies + [pnode2];
        noops := noops + [anode];
        NoopsStep(cur, L, i);
      }
      NoopsOk(propLevels, actionLevels, L, |cur|);
      propLevels := propLevels[L := used][L + 1 := copies];
      actionLevels := actionLevels[L := noops];
    }

    /**
     * The comprehension of generate_operator_actions that keeps the
     * bindprops whose supporting nodes contain no mutex pair.
     */
    static method FilterBindprops(nodes: seq<PropNode>, bindprops: seq<BindProp>) returns (kept: seq<BindProp>)
      requires ExcludesIndexed(nodes)
      requires forall k :: 0 <= k < |bindprops| ==> IndicesBelow(bindprops[k].propnodes, |nodes|)
      ensures kept == Unexcluded(nodes, bindprops)
    {
      kept := [];
      for k := 0 to |bindprops|
        invariant kept == Unexcluded(nodes, bindprops[..k])
      {
        var ex := PreconditionsExcluded(nodes, bindprops[k].propnodes);
        if ex.None? {
          kept := kept + [bindprops[k]];
        }
        assert bindprops[..k + 1][..k] == bindprops[..k];
      }
      assert bindprops[..|bindprops|] == bindprops;
    }

    /**
     * One round of the comprehension of generate_operator_actions: the
     * action node for `kept[k]` is appended after those for `kept[..k]`.
     * `P0` and `A0` are the levels before the comprehension started.
     */
    method ActionNodeStep(op: Operator, kept: seq<BindProp>, k: nat, start: nat, ghost nodes: seq<PropNode>,
                          ghost P0: seq<seq<PropNode>>, ghost A0: seq<seq<ActionNode>>)
      requires Valid() && level >= 0 && OperatorOk(op, instanceTable) && k < |kept|
      requires kept[k] in BindProps(op.precs, nodes, BindingsUpTo(op.params, instanceTable, |op.params|))
      requires |A0| == |actionLevels| && |P0| == |propLevels|
      requires actionLevels == A0[level := actionLevels[level]] && A0[level] <= actionLevels[level]
      requires |actionLevels[level]| == start + k
      requires ActionsFor(propLevels[level + 1], op, kept[..k], actionLevels[level], start, level)
      requires propLevels == P0[level := propLevels[level]][level + 1 := propLevels[level + 1]]
      requires SameButUsers(nodes, propLevels[level])
      requires SameButEffectLinks(P0[level + 1], propLevels[level + 1], level + 1)
      requires DistinctLiterals(P0[level + 1]) ==> DistinctLiterals(propLevels[level + 1])
      modifies this`propLevels, this`actionLevels, table
      ensures Valid() && level == old(level)
      ensures DistinctLiterals(P0[level + 1]) ==> DistinctLiterals(propLevels[level + 1])
      ensures actionLevels == A0[level := actionLevels[level]] && A0[level] <= actionLevels[level]
      ensures |actionLevels[level]| == start + k + 1
      ensures ActionsFor(propLevels[level + 1], op, kept[..k + 1], actionLevels[level], start, level)
      ensures propLevels == P0[level := propLevels[level]][level + 1 := propLevels[level + 1]]
      ensures SameButUsers(nodes, propLevels[level])
      ensures SameButEffectLinks(P0[level + 1], propLevels[level + 1], level + 1)
      ensures TableGrows(old(table.ids), old(table.order), table.ids, table.order)
    {
      BindPropFacts(op, nodes, instanceTable, kept[k]);
      ghost var next, acts := propLevels[level + 1], actionLevels[level];
      var a := AddActionNode(op, kept[k], nodes, P0);
      ActionsForStep(next, propLevels[level + 1], op, kept, k, acts, actionLevels[level][a], start, level);
    }

    /**
     * The comprehension of generate_operator_actions that turns each kept
     * bindprop into an action node, appended in order.
     */
    method GenerateActionNodes(op: Operator, kept: seq<BindProp>, ghost nodes: seq<PropNode>)
      requires Valid() && level >= 0 && OperatorOk(op, instanceTable) && SameButUsers(nodes, propLevels[level])
      requires forall k :: 0 <= k < |kept| ==> kept[k] in BindProps(op.precs, nodes, BindingsUpTo(op.params, instanceTable, |op.params|))
      modifies this`propLevels, this`actionLevels, table
      ensures Valid()
      ensures actionLevels == old(actionLevels)[level := actionLevels[level]] && old(actionLevels[level]) <= actionLevels[level]
      ensures |actionLevels[level]| == old(|actionLevels[level]|) + |kept|
      ensures ActionsFor(propLevels[level + 1], op, kept, actionLevels[level], old(|actionLevels[level]|), level)
      ensures propLevels == old(propLevels)[level := propLevels[level]][level + 1 := propLevels[level + 1]]
      ensures SameButUsers(nodes, propLevels[level])
      ensures SameButEffectLinks(old(propLevels[level + 1]), propLevels[level + 1], level + 1)
      ensures DistinctLiterals(old(propLevels[level + 1])) ==> DistinctLiterals(propLevels[level + 1])
      ensures TableGrows(old(table.ids), old(table.order), table.ids, table.order)
    {
      var L: nat := level;
      var start := |actionLevels[L]|;
      ghost var P0, A0 := propLevels, actionLevels;
      for k := 0 to |kept|
        invariant Valid() && level == L
        invariant actionLevels == A0[level := actionLevels[level]] && A0[level] <= actionLevels[level]
        invariant |actionLevels[level]| == start + k
        invariant ActionsFor(propLevels[level + 1], op, kept[..k], actionLevels[level], start, level)
        invariant propLevels == P0[level := propLevels[level]][level + 1 := propLevels[level + 1]]
        invariant SameButUsers(nodes, propLevels[level])
        invariant SameButEffectLinks(P0[level + 1], propLevels[level + 1], level + 1)
        invariant DistinctLiterals(P0[level + 1]) ==> DistinctLiterals(propLevels[level + 1])
        invariant TableGrows(old(table.ids), old(table.order), table.ids, table.order)
      {
        ghost var ids, order := table.ids, table.order;
        ActionNodeStep(op, kept, k, start, nodes, P0, A0);
        assert TableGrows(old(table.ids), old(table.order), table.ids, table.order) by {
          TableGrowsTrans(old(table.ids), old(table.order), ids, order, table.ids, table.order);
        }
      }
      assert kept[..|kept|] == kept;
    }

    /**
     * The bindprops generate_operator_actions turns into action nodes:
     * those of `op` over `nodes` whose supporting nodes hold no mutex pair.
     */
    static method UnexcludedBindprops(op: Operator, nodes: seq<PropNode>, instanceTable: InstanceTable, interner: Interner)
      returns (kept: seq<BindProp>)
      requires OperatorOk(op, instanceTable) && ExcludesIndexed(nodes) && interner.Valid()
      modifies interner
      ensures interner.Valid()
      ensures kept == ActionBindProps(op, nodes, instanceTable)
      ensures forall k :: 0 <= k < |kept| ==> kept[k] in BindProps(op.precs, nodes, BindingsUpTo(op.params, instanceTable, |op.params|))
      ensures (interner.ids, interner.order) ==
              Interned(old(interner.ids), old(interner.order), TriedAll(op.precs, nodes, BindingsUpTo(op.params, instanceTable, |op.params|)))
      ensures TableGrows(old(interner.ids), old(interner.order), interner.ids, interner.order)
    {
      var bindprops := GenerateBindprops(op, nodes, instanceTable, interner);
      forall k | 0 <= k < |bindprops|
        ensures IndicesBelow(bindprops[k].propnodes, |nodes|)
      {
        BindPropFacts(op, nodes, instanceTable, bindprops[k]);
      }
      kept := FilterBindprops(nodes, bindprops);
    }

    /**
     * generate_operator_actions: the bindprops of `op` over the previous
     * proposition level, filtered by preconditions_excluded, each turned
     * into an action node appended to the new action level in order.
     */
    method GenerateOperatorActions(op: Operator) returns (kept: seq<BindProp>)
      requires Valid() && level >= 0 && OperatorOk(op, instanceTable)
      modifies this`propLevels, this`actionLevels, table
      ensures Valid()
      ensures ExcludesIndexed(old(propLevels[level]))
      ensures kept == old(ActionBindProps(op, propLevels[level], instanceTable))
      ensures actionLevels == old(actionLevels)[level := actionLevels[level]] && old(actionLevels[level]) <= actionLevels[level]
      ensures |actionLevels[level]| == old(|actionLevels[level]|) + |kept|
      ensures ActionsFor(propLevels[level + 1], op, kept, actionLevels[level], old(|actionLevels[level]|), level)
      ensures propLevels == old(propLevels)[level := propLevels[level]][level + 1 := propLevels[level + 1]]
      ensures SameButUsers(old(propLevels[level]), propLevels[level])
      ensures SameButEffectLinks(old(propLevels[level + 1]), propLevels[level + 1], level + 1)
      ensures DistinctLiterals(old(propLevels[level + 1])) ==> DistinctLiterals(propLevels[level + 1])
      ensures TableGrows(old(table.ids), old(table.order), table.ids, table.order)
    {
      var nodes := propLevels[level];
      LevelExcludesIndexed(propLevels, actionLevels, level);
      kept := UnexcludedBindprops(op, nodes, instanceTable, table);
      ghost var ids, order := table.ids, table.order;
      GenerateActionNodes(op, kept, nodes);
      TableGrowsTrans(old(table.ids), old(table.order), ids, order, table.ids, table.order);
    }

    /**
     * One row of generate_action_excludes_links: action `i` of level `L`
     * against every action of the level. `acts0` is the level before the
     * first row.
     */
    method ActionExcludesRowPass(L: nat, i: nat, cur: seq<PropNode>, next: seq<PropNode>, acts0: seq<ActionNode>,
                                 ghost A0: seq<seq<ActionNode>>)
      requires Valid() && L < |actionLevels| && |A0| == |actionLevels| && actionLevels == A0[L := actionLevels[L]]
      requires LevelIndexed(cur, next, acts0) && i < |acts0| && ActionExcludesUpTo(cur, next, acts0, actionLevels[L], i, 0)
      modifies this`actionLevels
      ensures Valid() && actionLevels == A0[L := actionLevels[L]]
      ensures ActionExcludesUpTo(cur, next, acts0, actionLevels[L], i + 1, 0)
    {
      for j := 0 to |acts0|
        invariant Valid() && actionLevels == A0[L := actionLevels[L]]
        invariant ActionExcludesUpTo(cur, next, acts0, actionLevels[L], i, j)
      {
        ActionExcludesPairStep(L, i, j, cur, next, acts0, A0);
      }
      ActionExcludesRow(cur, next, acts0, actionLevels[L], i);
    }

    /** One ordered pair (i, j) of generate_action_excludes_links. */
    method ActionExcludesPairStep(L: nat, i: nat, j: nat, cur: seq<PropNode>, next: seq<PropNode>, acts0: seq<ActionNode>,
                                  ghost A0: seq<seq<ActionNode>>)
      requires Valid() && L < |actionLevels| && |A0| == |actionLevels| && actionLevels == A0[L := actionLevels[L]]
      requires LevelIndexed(cur, next, acts0) && i < |acts0| && j < |acts0|
      requires ActionExcludesUpTo(cur, next, acts0, actionLevels[L], i, j)
      modifies this`actionLevels
      ensures Valid() && actionLevels == A0[L := actionLevels[L]]
      ensures ActionExcludesUpTo(cur, next, acts0, actionLevels[L], i, j + 1)
    {
      ActionExcludesPair(cur, next, acts0, actionLevels[L], i, j);
      if i != j {
        var m := MutexPair(cur, next, acts0[i], acts0[j]);
        if m {
          ghost var before := actionLevels;
          AddMutexKeeps(propLevels, actionLevels, L, i, j);
          actionLevels := actionLevels[L := AddMutex(actionLevels[L], i, j)];
          OnePlaceFrame(A0, before, actionLevels, L);
        }
      }
    }

    /**
     * generate_action_excludes_links: every ordered pair of distinct
     * actions of the new level is tested, and a mutex pair is recorded in
     * both directions, each only if not yet there.
     */
    method GenerateActionExcludesLinks()
      requires Valid() && level >= 0 && NoActionExcludes(actionLevels[level])
      modifies this`actionLevels
      ensures Valid()
      ensures actionLevels == old(actionLevels)[level := actionLevels[level]]
      ensures LevelIndexed(propLevels[level], propLevels[level + 1], old(actionLevels[level]))
      ensures ActionExcludesUpTo(propLevels[level], propLevels[level + 1], old(actionLevels[level]), actionLevels[level],
                                 |actionLevels[level]|, 0)
    {
      var L: nat := level;
      var cur, next, acts0 := propLevels[L], propLevels[L + 1], actionLevels[L];
      ghost var A0 := actionLevels;
      GraphLevelIndexed(propLevels, actionLevels, L);
      ActionExcludesStart(cur, next, acts0);
      for i := 0 to |acts0|
        invariant Valid() && actionLevels == A0[L := actionLevels[L]]
        invariant ActionExcludesUpTo(cur, next, acts0, actionLevels[L], i, 0)
      {
        ActionExcludesRowPass(L, i, cur, next, acts0, A0);
      }
    }

    /**
     * One row of generate_proposition_excludes_links: node `i` of level
     * `L` against every node of the level. `nodes` is the level before the
     * first row.
     */
    method PropExcludesRowPass(L: nat, i: nat, nodes: seq<PropNode>, acts: seq<ActionNode>, ghost P0: seq<seq<PropNode>>)
      requires Valid() && 1 <= L < |propLevels| && |P0| == |propLevels| && propLevels == P0[L := propLevels[L]]
      requires AddersIn(nodes, acts) && i < |nodes| && PropRowsDone(nodes, acts, propLevels[L], i)
      modifies this`propLevels
      ensures Valid() && propLevels == P0[L := propLevels[L]]
      ensures PropRowsDone(nodes, acts, propLevels[L], i + 1)
    {
      ghost var row := propLevels[L];
      PropRowEntry(nodes, acts, row, i);
      for j := 0 to |nodes|
        invariant Valid() && propLevels == P0[L := propLevels[L]]
        invariant propLevels[L] == row[i := nodes[i].(excludes := PropExcludes(nodes, acts, i, j))]
      {
        PropExcludesPairStep(L, i, j, nodes, acts, P0, row);
      }
      PropRowsStep(nodes, acts, row, i);
    }

    /** One pair (i, j) of generate_proposition_excludes_links. */
    method PropExcludesPairStep(L: nat, i: nat, j: nat, nodes: seq<PropNode>, acts: seq<ActionNode>,
                                ghost P0: seq<seq<PropNode>>, ghost row: seq<PropNode>)
      requires Valid() && 1 <= L < |propLevels| && |P0| == |propLevels| && propLevels == P0[L := propLevels[L]]
      requires AddersIn(nodes, acts) && |row| == |nodes| && i < |nodes| && j < |nodes|
      requires propLevels[L] == row[i := nodes[i].(excludes := PropExcludes(nodes, acts, i, j))]
      modifies this`propLevels
      ensures Valid() && propLevels == P0[L := propLevels[L]]
      ensures propLevels[L] == row[i := nodes[i].(excludes := PropExcludes(nodes, acts, i, j + 1))]
    {
      var m := false;
      if nodes[i].prop.num != nodes[j].prop.num {
        m := ExcludesProp(acts, nodes[i], nodes[j]);
      }
      PropRowNext(nodes, acts, row, propLevels[L], i, j, m);
      if m {
        ghost var before := propLevels;
        AppendPropExclude(propLevels, actionLevels, L, i, j);
        propLevels := propLevels[L := propLevels[L][i := WithExclude(propLevels[L][i], j)]];
        OnePlaceFrame(P0, before, propLevels, L);
      }
    }

    /**
     * generate_proposition_excludes_links: for every ordered pair of nodes
     * of the new level with different propnums, the second is appended to
     * the first one's excludes when excludes_prop holds.
     */
    method GeneratePropositionExcludesLinks()
      requires Valid() && level >= 0 && NoPropExcludes(propLevels[level + 1])
      modifies this`propLevels
      ensures Valid()
      ensures AddersIn(old(propLevels[level + 1]), actionLevels[level])
      ensures propLevels == old(propLevels)[level + 1 := propLevels[level + 1]]
      ensures PropExcludesLinked(old(propLevels[level + 1]), actionLevels[level], propLevels[level + 1])
    {
      var L: nat := level + 1;
      var nodes, acts := propLevels[L], actionLevels[level];
      GraphSearchable(propLevels, actionLevels);
      PropRowsStart(nodes, acts);
      ghost var P0 := propLevels;
      for i := 0 to |nodes|
        invariant Valid() && propLevels == P0[L := propLevels[L]]
        invariant PropRowsDone(nodes, acts, propLevels[L], i)
      {
        PropExcludesRowPass(L, i, nodes, acts, P0);
      }
    }

    /**
     * One operator of extend_graph_level's loop: its actions are appended
     * to the new level, after the blocks of the operators before it.
     * `P1` and `A1` are the levels before the loop.
     */
    method OperatorActionsStep(o: nat, ghost P1: seq<seq<PropNode>>, ghost A1: seq<seq<ActionNode>>, ghost blocks: seq<seq<BindProp>>)
      returns (kept: seq<BindProp>)
      requires Valid() && level >= 0 && o < |operators| && |blocks| == o
      requires OperatorsDone(P1, A1, propLevels, actionLevels, level, operators, blocks, instanceTable)
      modifies this`propLevels, this`actionLevels, table
      ensures Valid() && level == old(level)
      ensures OperatorsDone(P1, A1, propLevels, actionLevels, level, operators, blocks + [kept], instanceTable)
      ensures TableGrows(old(table.ids), old(table.order), table.ids, table.order)
    {
      ghost var P, A := propLevels, actionLevels;
      kept := GenerateOperatorActions(operators[o]);
      OperatorsDoneStep(P1, A1, P, A, propLevels, actionLevels, level, operators, blocks, kept, instanceTable);
    }

    /**
     * The operator loop of extend_graph_level: every operator's actions,
     * operator by operator. `blocks` are the bindprops each operator's
     * actions were made from.
     */
    method GenerateAllOperatorActions() returns (ghost blocks: seq<seq<BindProp>>)
      requires Valid() && level >= 0 && NoActionExcludes(actionLevels[level]) && NoPropExcludes(propLevels[level + 1])
      modifies this`propLevels, this`actionLevels, table
      ensures Valid() && level == old(level)
      ensures actionLevels == old(actionLevels)[level := actionLevels[level]] && old(actionLevels[level]) <= actionLevels[level]
      ensures propLevels == old(propLevels)[level := propLevels[level]][level + 1 := propLevels[level + 1]]
      ensures NoActionExcludes(actionLevels[level]) && NoPropExcludes(propLevels[level + 1])
      ensures SameButUsers(old(propLevels[level]), propLevels[level])
      ensures SameButEffectLinks(old(propLevels[level + 1]), propLevels[level + 1], level + 1)
      ensures DistinctLiterals(old(propLevels[level + 1])) ==> DistinctLiterals(propLevels[level + 1])
      ensures |blocks| == |operators| && KeptBindprops(blocks, operators, old(propLevels[level]), instanceTable)
      ensures OperatorBlocks(propLevels[level + 1], operators, blocks, actionLevels[level], old(|actionLevels[level]|), |actionLevels[level]|, level)
      ensures OperatorsDone(old(propLevels), old(actionLevels), propLevels, actionLevels, level, operators, blocks, instanceTable)
      ensures TableGrows(old(table.ids), old(table.order), table.ids, table.order)
    {
      var L: nat := level;
      ghost var P1, A1 := propLevels, actionLevels;
      LevelExcludesIndexed(propLevels, actionLevels, level);
      blocks := [];
      for o := 0 to |operators|
        invariant Valid() && level == L && |blocks| == o
        invariant OperatorsDone(P1, A1, propLevels, actionLevels, L, operators, blocks, instanceTable)
        invariant TableGrows(old(table.ids), old(table.order), table.ids, table.order)
      {
        ghost var ids, order := table.ids, table.order;
        var kept := OperatorActionsStep(o, P1, A1, blocks);
        TableGrowsTrans(old(table.ids), old(table.order), ids, order, table.ids, table.order);
        blocks := blocks + [kept];
      }
    }

    /**
     * The first half of extend_graph_level on a freshly added, empty pair
     * of levels: the persistence actions first, then every operator's
     * actions; no mutex links yet.
     */
    method GenerateLevelActions()
      requires Valid() && level >= 0 && actionLevels[level] == [] && propLevels[level + 1] == []
      modifies this`propLevels, this`actionLevels, table
      ensures Valid() && level == old(level)
      ensures LevelActionsAdded(old(propLevels), old(actionLevels), propLevels, actionLevels, level)
      ensures TableGrows(old(table.ids), old(table.order), table.ids, table.order)
    {
      GenerateNoopActions();
      ghost var P1, A1 := propLevels, actionLevels;
      assert NoopsAdded(old(propLevels), old(actionLevels), P1, A1, level);
      FreshLevelNoExcludes(old(propLevels[level]), level);
      ghost var blocks := GenerateAllOperatorActions();
      LevelActionsAddedFrom(old(propLevels), old(actionLevels), P1, A1, propLevels, actionLevels, level, operators, blocks, instanceTable);
    }

    /**
     * extend_graph_level: a new action level and a new proposition level
     * on top, filled with the persistence actions, then every operator's
     * actions, then the mutex links of both new levels. The levels below
     * are untouched except that the old top level gains users.
     */
    method ExtendGraphLevel()
      requires Valid()
      modifies this`propLevels, this`actionLevels, this`level, this`unsolvable, table
      ensures Valid()
      ensures level == old(level) + 1 && unsolvable == old(unsolvable) + [{}]
      ensures |propLevels| == old(|propLevels|) + 1
      ensures propLevels[..level] == old(propLevels)[..level] && actionLevels[..level] == old(actionLevels)
      ensures SameButUsers(old(propLevels)[level], propLevels[level])
      ensures PropsKept(old(propLevels)[level], propLevels[level + 1])
      ensures NoopsFirst(actionLevels[level], level, |propLevels[level]|)
      ensures ActionExcludesComplete(propLevels[level], propLevels[level + 1], actionLevels[level])
      ensures PropExcludesComplete(propLevels[level + 1], actionLevels[level])
      ensures DistinctLiterals(old(propLevels)[level]) ==>
                DistinctLiterals(propLevels[level]) && DistinctLiterals(propLevels[level + 1])
      ensures TableGrows(old(table.ids), old(table.order), table.ids, table.order)
    {
      AppendLevel(propLevels, actionLevels);
      actionLevels := actionLevels + [[]];
      propLevels := propLevels + [[]];
      unsolvable := unsolvable + [{}];
      level := level + 1;
      var L: nat := level;
      ghost var top := propLevels[L];
      GenerateLevelActions();
      ghost var P2, A2 := propLevels, actionLevels;
      GenerateActionExcludesLinks();
      GeneratePropositionExcludesLinks();
      ActionExcludesFinal(P2[L], P2[L + 1], propLevels[L + 1], A2[L], actionLevels[L]);
      PropExcludesFinal(P2[L + 1], actionLevels[L], propLevels[L + 1]);
      NoopsFirstKept(L, |top|, A2[L], actionLevels[L]);
      PersistedKept(top, L + 1, P2[L + 1], propLevels[L + 1]);
      UsersKeepDistinct(top, propLevels[L]);
      ExtendKeepsDistinct(top, P2[L + 1], propLevels[L + 1], L + 1);
    }

    /** leveled_off: the last two proposition levels have the same size and the same number of exclusion links. */
    method LeveledOff() returns (r: bool)
      ensures r <==> LevelsMatch(propLevels)
    {
      if |propLevels| < 2 {
        return false;
      }
      if |propLevels[|propLevels| - 1]| != |propLevels[|propLevels| - 2]| {
        return false;
      }
      var thisExcludes := CountExcludes(propLevels[|propLevels| - 1]);
      var prevExcludes := CountExcludes(propLevels[|propLevels| - 2]);
      return thisExcludes == prevExcludes;
    }

    /** terminate: the graph has leveled off and the last two levels record as many unsolvable goal sets. */
    method Terminate() returns (r: bool)
      requires Valid()
      ensures r <==> Terminated(propLevels, unsolvable)
    {
      var off := LeveledOff();
      if !off {
        return false;
      }
      return |unsolvable[|unsolvable| - 1]| == |unsolvable[|unsolvable| - 2]|;
    }

    // -------------------------------------------------------------------
    // Backward search

    /**
     * solve_goals: once no goal of the level is pending, either level 0
     * is reached and the selection is the plan, or the collected goals,
     * sorted by propnum, are searched one level down unless the memo
     * already lists them; a failed goal set is recorded in the memo.
     * Otherwise each achiever of the first pending goal is tried in turn.
     * With no goal pending and none collected the source fails on the
     * first collected goal; that error ends the whole search.
     */
    method SolveGoals(goals: seq<nat>, remaining: seq<nat>, newGoals: seq<nat>, selected: seq<seq<nat>>, lvl: nat)
      returns (r: Outcome)
      requires Valid() && SearchState(propLevels, actionLevels, goals, remaining, newGoals, selected, lvl)
      modifies this`unsolvable
      ensures Valid() && MemoGrows(old(unsolvable), unsolvable)
      ensures r.Solution? ==> Found(propLevels, actionLevels, goals, remaining, newGoals, selected, lvl, r.plan)
      ensures remaining == [] && newGoals == [] ==> r.NoGoals?
      ensures r.NoGoals? ==> PreconditionFree(actionLevels) || (selected == [] && newGoals == [])
      ensures remaining == [] && lvl > 0 && newGoals != [] && GoalKey(propLevels[lvl], newGoals) in old(unsolvable[lvl]) ==>
                r.Failure? && unsolvable == old(unsolvable)
      ensures remaining == [] && lvl > 0 && r.Failure? ==> GoalKey(propLevels[lvl], newGoals) in unsolvable[lvl]
      decreases lvl, |remaining|, 2
    {
      if remaining == [] {
        r := AdvanceLevel(goals, newGoals, selected, lvl);
        return;
      }
      var adders := propLevels[lvl + 1][remaining[0]].adders;
      for k := 0 to |adders|
        invariant Valid() && MemoGrows(old(unsolvable), unsolvable)
      {
        ghost var memo := unsolvable;
        r := TryAction(goals, remaining, newGoals, selected, lvl, adders[k]);
        MemoGrowsTrans(old(unsolvable), memo, unsolvable);
        if !r.Failure? {
          return;
        }
      }
      return Failure;
    }

    /**
     * The level-advance branch of solve_goals. The goals are nodes of
     * level `lvl`, so the level test on the first of them is the test
     * `lvl == 0`; without a first goal the source raises IndexError,
     * which passes the memo update by.
     */
    method AdvanceLevel(goals: seq<nat>, newGoals: seq<nat>, selected: seq<seq<nat>>, lvl: nat)
      returns (r: Outcome)
      requires Valid() && SearchState(propLevels, actionLevels, goals, [], newGoals, selected, lvl)
      modifies this`unsolvable
      ensures Valid() && MemoGrows(old(unsolvable), unsolvable)
      ensures r.Solution? ==> Found(propLevels, actionLevels, goals, [], newGoals, selected, lvl, r.plan)
      ensures newGoals == [] ==> r.NoGoals? && unsolvable == old(unsolvable)
      ensures r.NoGoals? ==> PreconditionFree(actionLevels) || (selected == [] && newGoals == [])
      ensures newGoals != [] && lvl == 0 ==> r == Solution(selected)
      ensures lvl > 0 && newGoals != [] && GoalKey(propLevels[lvl], newGoals) in old(unsolvable[lvl]) ==>
                r.Failure? && unsolvable == old(unsolvable)
      ensures lvl > 0 && r.Failure? ==> GoalKey(propLevels[lvl], newGoals) in unsolvable[lvl]
      decreases lvl, 0, 1
    {
      if newGoals == [] {
        if selected != [] {
          NoPrecsListed(propLevels[lvl], actionLevels[lvl], selected[0], 0);
        }
        return NoGoals;
      }
      if propLevels[lvl][newGoals[0]].level == 0 {
        BaseFound(propLevels, actionLevels, goals, newGoals, selected);
        return Solution(selected);
      }
      r := Regress(goals, newGoals, selected, lvl);
    }

    /**
     * The memoized descent of solve_goals to the level below: the new
     * goals, sorted by number, are skipped when memoized as unsolvable,
     * searched for otherwise, and memoized when that search fails.
     */
    method Regress(goals: seq<nat>, newGoals: seq<nat>, selected: seq<seq<nat>>, lvl: nat)
      returns (r: Outcome)
      requires Valid() && SearchState(propLevels, actionLevels, goals, [], newGoals, selected, lvl)
      requires newGoals != [] && lvl > 0
      modifies this`unsolvable
      ensures Valid() && MemoGrows(old(unsolvable), unsolvable)
      ensures r.Solution? ==> Found(propLevels, actionLevels, goals, [], newGoals, selected, lvl, r.plan)
      ensures r.NoGoals? ==> PreconditionFree(actionLevels)
      ensures GoalKey(propLevels[lvl], newGoals) in old(unsolvable[lvl]) ==> r.Failure? && unsolvable == old(unsolvable)
      ensures r.Failure? ==> GoalKey(propLevels[lvl], newGoals) in unsolvable[lvl]
      decreases lvl, 0, 0
    {
      var sorted := SortByNum(propLevels[lvl], newGoals);
      var key := Nums(propLevels[lvl], sorted);
      if key in unsolvable[lvl] {
        return Failure;
      }
      AdvanceState(propLevels, actionLevels, goals, newGoals, selected, lvl);
      r := SolveGoals(sorted, sorted, [], [[]] + selected, lvl - 1);
      if r.Solution? {
        AdvanceFound(propLevels, actionLevels, goals, newGoals, selected, lvl, r.plan);
      } else if r.Failure? {
        unsolvable := unsolvable[lvl := unsolvable[lvl] + {key}];
      }
    }

    /**
     * One round of solve_goals' loop over the achievers of the first
     * pending goal: `a` is selected only if no selected action of the
     * level excludes it, forward_cutoff does not fire and the selection
     * stays minimal.
     */
    method TryAction(goals: seq<nat>, remaining: seq<nat>, newGoals: seq<nat>, selected: seq<seq<nat>>, lvl: nat, a: nat)
      returns (r: Outcome)
      requires Valid() && SearchState(propLevels, actionLevels, goals, remaining, newGoals, selected, lvl)
      requires remaining != [] && a in propLevels[lvl + 1][remaining[0]].adders
      modifies this`unsolvable
      ensures Valid() && MemoGrows(old(unsolvable), unsolvable)
      ensures !r.Failure? ==> Chosen(propLevels, actionLevels, goals, remaining, newGoals, selected, lvl, a)
      ensures r.Solution? ==> Found(propLevels, actionLevels, goals, remaining, newGoals, selected, lvl, r.plan)
      ensures r.NoGoals? ==> PreconditionFree(actionLevels)
      decreases lvl, |remaining|, 1
    {
      var acts := actionLevels[lvl];
      var excluder := SafeIndex(selected[0], (s: nat) => s < |acts| && a in acts[s].excludes);
      if excluder.Some? {
        return Failure;
      }
      assert CanPick(propLevels, actionLevels, goals, remaining, newGoals, selected, lvl, a);
      PickState(propLevels, actionLevels, goals, remaining, newGoals, selected, lvl, a);
      var nodes := propLevels[lvl + 1];
      var newActions := [selected[0] + [a]] + selected[1..];
      var cutoff := ForwardCutoff(nodes, acts, remaining[1..], newActions[0]);
      if cutoff {
        return Failure;
      }
      var minimal := MinimalActionSet(nodes, acts, goals, newActions[0]);
      if !minimal {
        return Failure;
      }
      r := Descend(goals, remaining, newGoals, selected, lvl, a);
    }

    /**
     * The rest of that round, once `a` is selected: the search goes on
     * with the goals `a` adds struck off and its preconditions collected.
     */
    method Descend(goals: seq<nat>, remaining: seq<nat>, newGoals: seq<nat>, selected: seq<seq<nat>>, lvl: nat, a: nat)
      returns (r: Outcome)
      requires Valid() && Chosen(propLevels, actionLevels, goals, remaining, newGoals, selected, lvl, a)
      modifies this`unsolvable
      ensures Valid() && MemoGrows(old(unsolvable), unsolvable)
      ensures r.Solution? ==> Found(propLevels, actionLevels, goals, remaining, newGoals, selected, lvl, r.plan)
      ensures r.NoGoals? ==> PreconditionFree(actionLevels)
      decreases lvl, |remaining|, 0
    {
      PickState(propLevels, actionLevels, goals, remaining, newGoals, selected, lvl, a);
      var acts := actionLevels[lvl];
      var nextRemaining := Remove(propLevels[lvl + 1], remaining, acts[a].adds);
      var nextNewGoals := newGoals + Remove(propLevels[lvl], acts[a].precs, newGoals);
      r := SolveGoals(goals, nextRemaining, nextNewGoals, [selected[0] + [a]] + selected[1..], lvl);
      if r.Solution? {
        PickFound(propLevels, actionLevels, goals, remaining, newGoals, selected, lvl, a, r.plan);
      }
    }

    /** The goal list of solve: each goal literal's node in the top level, or None when one is missing. */
    method GoalNodes() returns (r: Option<seq<nat>>)
      requires Valid()
      ensures r.None? <==> exists g :: 0 <= g < |goals| && FirstMatch(propLevels[|propLevels| - 1], goals[g].atom).None?
      ensures r.Some? ==> GoalsAt(propLevels[|propLevels| - 1], goals, r.value)
    {
      var top := propLevels[|propLevels| - 1];
      var gs := [];
      for g := 0 to |goals|
        invariant GoalsAt(top, goals[..g], gs)
      {
        var n := GetExistingPropnode(top, goals[g].atom);
        if n.None? {
          return None;
        }
        gs := gs + [n.value];
      }
      assert goals[..|goals|] == goals;
      return Some(gs);
    }

    /**
     * solve: extend the graph a level at a time until it has leveled off
     * with as many failed goal sets as the level before; at each level
     * whose top holds every goal and no mutex pair of them, search it.
     * `fuel` bounds the number of levels added.
     */
    method Solve(fuel: nat) returns (res: SolveResult)
      requires Valid()
      modifies this`propLevels, this`actionLevels, this`level, this`unsolvable, table
      ensures Valid() && SolvedBy(propLevels, actionLevels, goals, res)
      ensures res.NoSolution? ==> Terminated(propLevels, unsolvable)
      ensures LiteralsUnique(old(propLevels)) ==> LiteralsUnique(propLevels)
      ensures LevelsPersist(old(propLevels)) ==> LevelsPersist(propLevels)
      ensures old(actionLevels) <= actionLevels && MemoExtends(old(unsolvable), unsolvable)
      ensures TableGrows(old(table.ids), old(table.order), table.ids, table.order)
    {
      var f := fuel;
      var done := Terminate();
      while !done
        invariant Valid()
        invariant done ==> Terminated(propLevels, unsolvable)
        invariant LiteralsUnique(old(propLevels)) ==> LiteralsUnique(propLevels)
        invariant LevelsPersist(old(propLevels)) ==> LevelsPersist(propLevels)
        invariant old(actionLevels) <= actionLevels && MemoExtends(old(unsolvable), unsolvable)
        invariant TableGrows(old(table.ids), old(table.order), table.ids, table.order)
        decreases f
      {
        if f == 0 {
          return LevelLimit;
        }
        f := f - 1;
        ghost var ids, order := table.ids, table.order;
        var found := SolveNextLevel();
        TableGrowsTrans(old(table.ids), old(table.order), ids, order, table.ids, table.order);
        if found.Plan? || found.IndexError? {
          return found;
        }
        done := Terminate();
      }
      return NoSolution;
    }

    /**
     * The body of solve's loop: the graph grows by a level, and its top
     * level is searched when it holds every goal and no two goals are mutex.
     */
    method SolveNextLevel() returns (res: SolveResult)
      requires Valid()
      modifies this`propLevels, this`actionLevels, this`level, this`unsolvable, table
      ensures Valid() && SolvedBy(propLevels, actionLevels, goals, res)
      ensures |propLevels| == old(|propLevels|) + 1 && propLevels[..old(|propLevels|) - 1] == old(propLevels)[..old(|propLevels|) - 1]
      ensures |goals| == 0 ==> res.IndexError?
      ensures LiteralsUnique(old(propLevels)) ==> LiteralsUnique(propLevels)
      ensures LevelsPersist(old(propLevels)) ==> LevelsPersist(propLevels)
      ensures old(actionLevels) <= actionLevels
      ensures MemoGrows(old(unsolvable) + [{}], unsolvable)
      ensures GoalMissing(Top(propLevels), goals) ==> res == NoSolution && unsolvable == old(unsolvable) + [{}]
      ensures forall gs :: GoalsAt(Top(propLevels), goals, gs) && MutexAt(Top(propLevels), gs) ==>
                res == NoSolution && unsolvable == old(unsolvable) + [{}]
      ensures res.NoSolution? ==>
                GoalMissing(Top(propLevels), goals) ||
                exists gs :: GoalsAt(Top(propLevels), goals, gs) &&
                             (MutexAt(Top(propLevels), gs) || GoalKey(Top(propLevels), gs) in unsolvable[|propLevels| - 1])
      ensures TableGrows(old(table.ids), old(table.order), table.ids, table.order)
    {
      ExtendGraphLevel();
      GrowKeepsUnique(old(propLevels), propLevels);
      GrowKeepsPersist(old(propLevels), propLevels);
      res := SearchTopLevel();
    }

    /** The search part of solve's loop body, on the level just added. */
    method SearchTopLevel() returns (res: SolveResult)
      requires Valid() && level >= 0
      modifies this`unsolvable
      ensures Valid() && SolvedBy(propLevels, actionLevels, goals, res)
      ensures |goals| == 0 ==> res.IndexError?
      ensures MemoGrows(old(unsolvable), unsolvable)
      ensures GoalMissing(Top(propLevels), goals) ==> res == NoSolution && unsolvable == old(unsolvable)
      ensures forall gs :: GoalsAt(Top(propLevels), goals, gs) && MutexAt(Top(propLevels), gs) ==>
                res == NoSolution && unsolvable == old(unsolvable)
      ensures forall gs :: GoalsAt(Top(propLevels), goals, gs) && gs != [] && GoalKey(Top(propLevels), gs) in old(unsolvable[|propLevels| - 1]) ==>
                res == NoSolution && unsolvable == old(unsolvable)
      ensures res.NoSolution? ==>
                GoalMissing(Top(propLevels), goals) ||
                exists gs :: GoalsAt(Top(propLevels), goals, gs) &&
                             (MutexAt(Top(propLevels), gs) || GoalKey(Top(propLevels), gs) in unsolvable[|propLevels| - 1])
    {
      var gs := GoalNodes();
      if gs.None? {
        return NoSolution;
      }
      var top := propLevels[|propLevels| - 1];
      LevelExcludesIndexed(propLevels, actionLevels, |propLevels| - 1);
      var mutex := MutuallyExclusive(top, gs.value);
      forall gs' | GoalsAt(top, goals, gs')
        ensures gs' == gs.value
      {
        GoalsAtUnique(top, goals, gs', gs.value);
      }
      if mutex {
        assert MutexAt(top, gs.value);
        return NoSolution;
      }
      GraphSearchable(propLevels, actionLevels);
      var r := SolveGoals(gs.value, [], gs.value, [], |actionLevels|);
      if r.Failure? {
        assert GoalsAt(top, goals, gs.value);
        return NoSolution;
      }
      if r.NoGoals? {
        return IndexError;
      }
      TopFound(propLevels, actionLevels, gs.value, r.plan);
      return Plan(r.plan, gs.value);
    }
  }
}
