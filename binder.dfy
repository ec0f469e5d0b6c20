/**
 * From bindings to supported bindings: `generate_bindprops` instantiates
 * each precondition under each binding, evaluates the builtin `equal`
 * predicate on the spot and looks every other precondition up among the
 * current level's proposition nodes; `preconditions_excluded` then rejects
 * a binding whose supporting nodes contain a mutex pair.
 */
module Binder {
  import opened Wrappers
  import opened Lists
  import opened Terms
  import opened Interning
  import opened Grounding
  import opened Graph

  /** A binding together with its supporting proposition nodes (indices into the level). */
  datatype BindProp = BindProp(bindings: Binding, propnodes: seq<nat>)

  /** Every `equal` precondition has the two arguments it compares. */
  predicate EqualityArity(precs: seq<Atom>) {
    forall i :: 0 <= i < |precs| ==> IsEqualityAtom(precs[i]) ==> |precs[i].args| >= 2
  }

  /**
   * One precondition under a binding: an `equal` literal must have its
   * argument equality match its polarity; any other literal must occur
   * at the level.
   */
  predicate PrecSatisfied(prec: Atom, b: Binding, nodes: seq<PropNode>)
    requires IsEqualityAtom(prec) ==> |prec.args| >= 2
  {
    if IsEqualityAtom(prec) then EqualityHolds(Subst(prec, b))
    else FirstMatch(nodes, Subst(prec, b)).Some?
  }

  /** The preconditions that are looked up in the graph, in order. */
  function GraphPrecs(precs: seq<Atom>): (r: seq<Atom>)
    ensures forall k :: 0 <= k < |r| ==> !IsEqualityAtom(r[k]) && r[k] in precs
    ensures forall k :: 0 <= k < |precs| && !IsEqualityAtom(precs[k]) ==> precs[k] in r
    decreases |precs|
  {
    if precs == [] then []
    else
      var init := GraphPrecs(precs[..|precs| - 1]);
      var last := precs[|precs| - 1];
      if IsEqualityAtom(last) then init else init + [last]
  }

  /**
   * The supporting nodes the precondition loop collects for binding `b`,
   * or None when it gives up.
   */
  function Support(precs: seq<Atom>, b: Binding, nodes: seq<PropNode>): Option<seq<nat>>
    requires EqualityArity(precs)
    decreases |precs|
  {
    if precs == [] then Some([])
    else SupportNext(Support(precs[..|precs| - 1], b, nodes), Subst(precs[|precs| - 1], b), nodes)
  }

  /** One more precondition, instantiated as `last`, checked after the earlier ones. */
  function SupportNext(init: Option<seq<nat>>, last: Atom, nodes: seq<PropNode>): Option<seq<nat>>
    requires IsEqualityAtom(last) ==> |last.args| >= 2
  {
    if init.None? then None
    else if IsEqualityAtom(last) then (if EqualityHolds(last) then init else None)
    else match FirstMatch(nodes, last)
      case None => None
      case Some(i) => Some(init.value + [i])
  }

  lemma SupportStep(precs: seq<Atom>, k: nat, b: Binding, nodes: seq<PropNode>)
    requires EqualityArity(precs) && k < |precs|
    ensures Support(precs[..k + 1], b, nodes) == SupportNext(Support(precs[..k], b, nodes), Subst(precs[k], b), nodes)
  {
    assert precs[..k + 1][..k] == precs[..k];
  }

  /** The loop keeps going after one more precondition iff it went on so far and that one is satisfied. */
  lemma SupportNextSome(init: Option<seq<nat>>, prec: Atom, b: Binding, nodes: seq<PropNode>)
    requires IsEqualityAtom(prec) ==> |prec.args| >= 2
    ensures SupportNext(init, Subst(prec, b), nodes).Some? <==> init.Some? && PrecSatisfied(prec, b, nodes)
  {
  }

  /** Every precondition is satisfied under the binding. */
  predicate AllSatisfied(precs: seq<Atom>, b: Binding, nodes: seq<PropNode>)
    requires EqualityArity(precs)
  {
    forall k :: 0 <= k < |precs| ==> PrecSatisfied(precs[k], b, nodes)
  }

  /** All preconditions are satisfied iff the earlier ones and the last one are. */
  lemma AllSatisfiedSplit(precs: seq<Atom>, b: Binding, nodes: seq<PropNode>)
    requires EqualityArity(precs) && precs != []
    ensures AllSatisfied(precs, b, nodes) <==>
            AllSatisfied(precs[..|precs| - 1], b, nodes) && PrecSatisfied(precs[|precs| - 1], b, nodes)
  {
    var init := precs[..|precs| - 1];
    if AllSatisfied(init, b, nodes) && PrecSatisfied(precs[|precs| - 1], b, nodes) {
      forall k | 0 <= k < |precs|
        ensures PrecSatisfied(precs[k], b, nodes)
      {
        if k < |init| {
          assert init[k] == precs[k];
        }
      }
    }
    if AllSatisfied(precs, b, nodes) {
      forall k | 0 <= k < |init|
        ensures PrecSatisfied(init[k], b, nodes)
      {
        assert init[k] == precs[k];
      }
    }
  }

  /** A binding is supported iff every precondition is satisfied. */
  lemma {:induction false} SupportSatisfied(precs: seq<Atom>, b: Binding, nodes: seq<PropNode>)
    requires EqualityArity(precs)
    ensures Support(precs, b, nodes).Some? <==> forall k :: 0 <= k < |precs| ==> PrecSatisfied(precs[k], b, nodes)
    decreases |precs|
  {
    if precs != [] {
      var init, last := precs[..|precs| - 1], precs[|precs| - 1];
      SupportSatisfied(init, b, nodes);
      SupportNextSome(Support(init, b, nodes), last, b, nodes);
      AllSatisfiedSplit(precs, b, nodes);
      assert AllSatisfied(precs, b, nodes) <==> forall k :: 0 <= k < |precs| ==> PrecSatisfied(precs[k], b, nodes);
    }
  }

  /**
   * The supporting nodes of a supported binding are the first node
   * matching each non-builtin precondition, in precondition order.
   */
  lemma {:induction false} SupportNodes(precs: seq<Atom>, b: Binding, nodes: seq<PropNode>)
    requires EqualityArity(precs) && Support(precs, b, nodes).Some?
    ensures var ns := Support(precs, b, nodes).value;
            |ns| == |GraphPrecs(precs)| &&
            forall k :: 0 <= k < |ns| ==> FirstMatch(nodes, Subst(GraphPrecs(precs)[k], b)) == Some(ns[k])
    decreases |precs|
  {
    if precs != [] {
      var init := precs[..|precs| - 1];
      assert forall k :: 0 <= k < |init| ==> init[k] == precs[k];
      SupportNodes(init, b, nodes);
    }
  }

  /** A binding is supported iff every precondition is satisfied, and then its nodes are the first matches. */
  lemma SupportCharacterized(precs: seq<Atom>, b: Binding, nodes: seq<PropNode>)
    requires EqualityArity(precs)
    ensures Support(precs, b, nodes).Some? <==> forall k :: 0 <= k < |precs| ==> PrecSatisfied(precs[k], b, nodes)
    ensures Support(precs, b, nodes).Some? ==>
              var ns := Support(precs, b, nodes).value;
              |ns| == |GraphPrecs(precs)| &&
              forall k :: 0 <= k < |ns| ==> FirstMatch(nodes, Subst(GraphPrecs(precs)[k], b)) == Some(ns[k])
  {
    SupportSatisfied(precs, b, nodes);
    if Support(precs, b, nodes).Some? {
      SupportNodes(precs, b, nodes);
    }
  }

  /** Once the loop has given up on a prefix it has given up on the whole list. */
  lemma {:induction false} SupportPrefixNone(precs: seq<Atom>, k: nat, b: Binding, nodes: seq<PropNode>)
    requires EqualityArity(precs) && k <= |precs|
    requires Support(precs[..k], b, nodes).None?
    ensures Support(precs, b, nodes).None?
    decreases |precs| - k
  {
    if k < |precs| {
      assert precs[..k + 1][..k] == precs[..k];
      SupportPrefixNone(precs, k + 1, b, nodes);
    } else {
      assert precs[..k] == precs;
    }
  }

  /** Where the precondition loop stops, it has computed the support of the whole list. */
  lemma SupportExit(precs: seq<Atom>, k: nat, b: Binding, nodes: seq<PropNode>)
    requires EqualityArity(precs) && k <= |precs|
    requires k == |precs| || Support(precs[..k], b, nodes).None?
    ensures Support(precs, b, nodes) == Support(precs[..k], b, nodes)
  {
    if k == |precs| {
      assert precs[..k] == precs;
    } else {
      SupportPrefixNone(precs, k, b, nodes);
    }
  }

  /**
   * The instantiated preconditions the loop goes through for binding `b`,
   * in order, up to and including the first that fails.
   */
  function Tried(precs: seq<Atom>, b: Binding, nodes: seq<PropNode>): (r: seq<Atom>)
    requires EqualityArity(precs)
    ensures |r| <= |precs|
    ensures Support(precs, b, nodes).Some? ==> |r| == |precs|
    decreases |precs|
  {
    if precs == [] then []
    else
      var init := precs[..|precs| - 1];
      if Support(init, b, nodes).None? then Tried(init, b, nodes)
      else Tried(init, b, nodes) + [Subst(precs[|precs| - 1], b)]
  }

  lemma TriedStep(precs: seq<Atom>, k: nat, b: Binding, nodes: seq<PropNode>)
    requires EqualityArity(precs) && k < |precs|
    ensures Tried(precs[..k + 1], b, nodes) ==
            if Support(precs[..k], b, nodes).None? then Tried(precs[..k], b, nodes)
            else Tried(precs[..k], b, nodes) + [Subst(precs[k], b)]
  {
    assert precs[..k + 1][..k] == precs[..k];
  }

  /** Once the loop has given up, the remaining preconditions are not instantiated. */
  lemma {:induction false} TriedPrefixNone(precs: seq<Atom>, k: nat, b: Binding, nodes: seq<PropNode>)
    requires EqualityArity(precs) && k <= |precs| && Support(precs[..k], b, nodes).None?
    ensures Tried(precs, b, nodes) == Tried(precs[..k], b, nodes)
    decreases |precs| - k
  {
    if k < |precs| {
      TriedStep(precs, k, b, nodes);
      SupportStep(precs, k, b, nodes);
      TriedPrefixNone(precs, k + 1, b, nodes);
    } else {
      assert precs[..k] == precs;
    }
  }

  /** The k-th precondition tried is the k-th precondition instantiated under the binding. */
  lemma {:induction false} TriedInstances(precs: seq<Atom>, b: Binding, nodes: seq<PropNode>)
    requires EqualityArity(precs)
    ensures forall k :: 0 <= k < |Tried(precs, b, nodes)| ==> Tried(precs, b, nodes)[k] == Subst(precs[k], b)
    decreases |precs|
  {
    if precs != [] {
      var init := precs[..|precs| - 1];
      TriedInstances(init, b, nodes);
      assert forall k :: 0 <= k < |init| ==> init[k] == precs[k];
    }
  }

  /**
   * When precondition `k` is the first that fails, the loop instantiates
   * exactly the first `k + 1` preconditions.
   */
  lemma TriedStops(precs: seq<Atom>, k: nat, b: Binding, nodes: seq<PropNode>)
    requires EqualityArity(precs) && k < |precs|
    requires Support(precs[..k], b, nodes).Some? && Support(precs[..k + 1], b, nodes).None?
    ensures |Tried(precs, b, nodes)| == k + 1
  {
    TriedStep(precs, k, b, nodes);
    TriedPrefixNone(precs, k + 1, b, nodes);
  }

  /** The instantiated preconditions tried for each binding, binding after binding. */
  function TriedAll(precs: seq<Atom>, nodes: seq<PropNode>, bindings: seq<Binding>): seq<Atom>
    requires EqualityArity(precs)
    decreases |bindings|
  {
    if bindings == [] then []
    else TriedAll(precs, nodes, bindings[..|bindings| - 1]) + Tried(precs, bindings[|bindings| - 1], nodes)
  }

  lemma TriedAllStep(precs: seq<Atom>, nodes: seq<PropNode>, bindings: seq<Binding>, n: nat,
                      ids: map<Atom, nat>, order: seq<Atom>)
    requires EqualityArity(precs) && n < |bindings|
    ensures var t := Interned(ids, order, TriedAll(precs, nodes, bindings[..n]));
            Interned(ids, order, TriedAll(precs, nodes, bindings[..n + 1])) ==
            Interned(t.0, t.1, Tried(precs, bindings[n], nodes))
  {
    assert bindings[..n + 1][..n] == bindings[..n];
    InternedConcat(ids, order, TriedAll(precs, nodes, bindings[..n]), Tried(precs, bindings[n], nodes));
  }

  /**
   * The state of the precondition loop after `k` preconditions: the
   * supporting nodes so far, and the table `ids0`/`order0` with the tried
   * preconditions interned.
   */
  ghost predicate PrecLoop(precs: seq<Atom>, k: nat, b: Binding, nodes: seq<PropNode>, ids0: map<Atom, nat>, order0: seq<Atom>,
                           props: Option<seq<nat>>, ids: map<Atom, nat>, order: seq<Atom>)
  {
    EqualityArity(precs) && k <= |precs| && Registry(ids, order) &&
    props == Support(precs[..k], b, nodes) &&
    (ids, order) == Interned(ids0, order0, Tried(precs[..k], b, nodes))
  }

  lemma PrecLoopStep(precs: seq<Atom>, k: nat, b: Binding, nodes: seq<PropNode>, ids0: map<Atom, nat>, order0: seq<Atom>,
                     props: Option<seq<nat>>, ids: map<Atom, nat>, order: seq<Atom>,
                     props': Option<seq<nat>>, ids': map<Atom, nat>, order': seq<Atom>)
    requires PrecLoop(precs, k, b, nodes, ids0, order0, props, ids, order) && k < |precs| && props.Some?
    requires props' == SupportNext(props, Subst(precs[k], b), nodes)
    requires Registry(ids', order') && (ids', order') == Interned(ids, order, [Subst(precs[k], b)])
    ensures PrecLoop(precs, k + 1, b, nodes, ids0, order0, props', ids', order')
  {
    SupportStep(precs, k, b, nodes);
    TriedStep(precs, k, b, nodes);
    InternedConcat(ids0, order0, Tried(precs[..k], b, nodes), [Subst(precs[k], b)]);
  }

  /**
   * Where the precondition loop stops, it has computed the support and
   * interned the tried preconditions of the whole list.
   */
  lemma PrecLoopExit(precs: seq<Atom>, k: nat, b: Binding, nodes: seq<PropNode>, ids0: map<Atom, nat>, order0: seq<Atom>,
                     props: Option<seq<nat>>, ids: map<Atom, nat>, order: seq<Atom>)
    requires PrecLoop(precs, k, b, nodes, ids0, order0, props, ids, order) && Registry(ids0, order0)
    requires k == |precs| || props.None?
    ensures props == Support(precs, b, nodes)
    ensures (ids, order) == Interned(ids0, order0, Tried(precs, b, nodes))
    ensures Keeps(ids0, ids) && (CanonicalRegistry(ids0, order0) ==> CanonicalRegistry(ids, order))
  {
    SupportExit(precs, k, b, nodes);
    if k < |precs| {
      TriedPrefixNone(precs, k, b, nodes);
    } else {
      assert precs[..k] == precs;
    }
    InternedEffect(ids0, order0, Tried(precs, b, nodes));
  }

  /** Supporting nodes are indices into the level. */
  lemma {:induction false} SupportIndexed(precs: seq<Atom>, b: Binding, nodes: seq<PropNode>)
    requires EqualityArity(precs)
    requires Support(precs, b, nodes).Some?
    ensures IndicesBelow(Support(precs, b, nodes).value, |nodes|)
    decreases |precs|
  {
    if precs != [] {
      SupportIndexed(precs[..|precs| - 1], b, nodes);
    }
  }

  /** The bindprops of `bindings`: the supported ones, in order. */
  function BindProps(precs: seq<Atom>, nodes: seq<PropNode>, bindings: seq<Binding>): seq<BindProp>
    requires EqualityArity(precs)
    decreases |bindings|
  {
    if bindings == [] then []
    else
      var last := bindings[|bindings| - 1];
      BindProps(precs, nodes, bindings[..|bindings| - 1]) +
      match Support(precs, last, nodes)
      case None => []
      case Some(ns) => [BindProp(last, ns)]
  }

  lemma BindPropsStep(precs: seq<Atom>, nodes: seq<PropNode>, bindings: seq<Binding>, n: nat)
    requires EqualityArity(precs) && n < |bindings|
    ensures var s := Support(precs, bindings[n], nodes);
            BindProps(precs, nodes, bindings[..n + 1]) ==
            BindProps(precs, nodes, bindings[..n]) + if s.Some? then [BindProp(bindings[n], s.value)] else []
  {
    assert bindings[..n + 1][..n] == bindings[..n];
  }

  /** A bindprop is produced exactly for a supported binding, with its supporting nodes. */
  lemma {:induction false} BindPropsMember(precs: seq<Atom>, nodes: seq<PropNode>, bindings: seq<Binding>, bp: BindProp)
    requires EqualityArity(precs)
    ensures bp in BindProps(precs, nodes, bindings) <==>
            bp.bindings in bindings && Support(precs, bp.bindings, nodes) == Some(bp.propnodes)
    decreases |bindings|
  {
    if bindings != [] {
      var init := bindings[..|bindings| - 1];
      BindPropsMember(precs, nodes, init, bp);
      assert bindings == init + [bindings[|bindings| - 1]];
    }
  }

  /**
   * Operator.generate_bindprops: for every binding, instantiate (and so
   * intern) the preconditions in order until one fails; keep the bindings
   * whose preconditions all hold, with the first matching node of each
   * non-builtin precondition.
   */
  method GenerateBindprops(op: Operator, nodes: seq<PropNode>, table: InstanceTable, interner: Interner)
    returns (bps: seq<BindProp>)
    requires KindsKnown(op.params, table) && EqualityArity(op.precs) && interner.Valid()
    modifies interner
    ensures interner.Valid()
    ensures bps == BindProps(op.precs, nodes, BindingsUpTo(op.params, table, |op.params|))
    ensures Keeps(old(interner.ids), interner.ids)
    ensures old(interner.Canonical()) ==> interner.Canonical()
    ensures (interner.ids, interner.order) ==
            Interned(old(interner.ids), old(interner.order), TriedAll(op.precs, nodes, BindingsUpTo(op.params, table, |op.params|)))
  {
    var generated := GenerateBindings(op, table);
    var bindings := generated.value;
    bps := [];
    var n := 0;
    while n < |bindings|
      invariant 0 <= n <= |bindings|
      invariant interner.Valid()
      invariant bps == BindProps(op.precs, nodes, bindings[..n])
      invariant (interner.ids, interner.order) == Interned(old(interner.ids), old(interner.order), TriedAll(op.precs, nodes, bindings[..n]))
    {
      var props := BindPreconditions(op.precs, bindings[n], nodes, interner);
      BindPropsStep(op.precs, nodes, bindings, n);
      TriedAllStep(op.precs, nodes, bindings, n, old(interner.ids), old(interner.order));
      if props.Some? {
        bps := bps + [BindProp(bindings[n], props.value)];
      }
      n := n + 1;
    }
    assert bindings[..n] == bindings;
    InternedEffect(old(interner.ids), old(interner.order), TriedAll(op.precs, nodes, bindings));
  }

  /**
   * One round of the precondition loop of generate_bindprops: instantiate
   * `prec` under `bind`, then either evaluate the builtin `equal` or look
   * the literal up among `nodes`, extending the supporting nodes `props`.
   */
  method BindPrecondition(prec: Atom, bind: Binding, nodes: seq<PropNode>, interner: Interner, props: Option<seq<nat>>)
    returns (r: Option<seq<nat>>)
    requires IsEqualityAtom(prec) ==> |prec.args| >= 2
    requires interner.Valid() && props.Some?
    modifies interner
    ensures interner.Valid()
    ensures r == SupportNext(props, Subst(prec, bind), nodes)
    ensures Keeps(old(interner.ids), interner.ids)
    ensures old(interner.Canonical()) ==> interner.Canonical()
    ensures (interner.ids, interner.order) == Interned(old(interner.ids), old(interner.order), [Subst(prec, bind)])
  {
    r := props;
    var bprec := interner.Instantiate(prec, bind);
    if bprec.atom.pred == EQUAL {
      if TermEq(bprec.atom.args[0], bprec.atom.args[1]) != bprec.atom.value {
        r := None;
      }
    } else {
      var pnodes := FirstMatch(nodes, bprec.atom);
      if pnodes.None? {
        r := None;
      } else {
        r := Some(props.value + [pnodes.value]);
      }
    }
  }

  /**
   * The inner loop of generate_bindprops for one binding: instantiate the
   * preconditions in order, stopping at the first one that fails.
   */
  method BindPreconditions(precs: seq<Atom>, bind: Binding, nodes: seq<PropNode>, interner: Interner)
    returns (props: Option<seq<nat>>)
    requires EqualityArity(precs) && interner.Valid()
    modifies interner
    ensures interner.Valid()
    ensures props == Support(precs, bind, nodes)
    ensures Keeps(old(interner.ids), interner.ids)
    ensures old(interner.Canonical()) ==> interner.Canonical()
    ensures (interner.ids, interner.order) == Interned(old(interner.ids), old(interner.order), Tried(precs, bind, nodes))
  {
    props := Some([]);
    var k := 0;
    assert precs[..0] == [];
    // the original breaks out of this loop as soon as `props` is None
    while k < |precs| && props.Some?
      invariant PrecLoop(precs, k, bind, nodes, old(interner.ids), old(interner.order), props, interner.ids, interner.order)
      decreases |precs| - k
    {
      ghost var ids, order := interner.ids, interner.order;
      var props' := BindPrecondition(precs[k], bind, nodes, interner, props);
      PrecLoopStep(precs, k, bind, nodes, old(interner.ids), old(interner.order), props, ids, order, props', interner.ids, interner.order);
      props, k := props', k + 1;
    }
    PrecLoopExit(precs, k, bind, nodes, old(interner.ids), old(interner.order), props, interner.ids, interner.order);
  }

  /** Supporting node `ns[i]` excludes some node of `ns` (compared by propnum). */
  predicate ExcludedAt(nodes: seq<PropNode>, ns: seq<nat>, i: nat)
    requires ExcludesIndexed(nodes) && IndicesBelow(ns, |nodes|) && i < |ns|
  {
    exists k :: 0 <= k < |nodes[ns[i]].excludes| && NumIn(nodes, nodes[ns[i]].excludes[k], ns)
  }

  /** The supporting nodes contain a mutex pair. */
  predicate HasMutexPair(nodes: seq<PropNode>, ns: seq<nat>)
    requires ExcludesIndexed(nodes) && IndicesBelow(ns, |nodes|)
  {
    exists i :: 0 <= i < |ns| && ExcludedAt(nodes, ns, i)
  }

  /**
   * BindProp.preconditions_excluded: the first supporting node that
   * excludes another supporting node, or None.
   */
  method PreconditionsExcluded(nodes: seq<PropNode>, ns: seq<nat>) returns (r: Option<nat>)
    requires ExcludesIndexed(nodes) && IndicesBelow(ns, |nodes|)
    ensures r.None? <==> !HasMutexPair(nodes, ns)
    ensures r.Some? ==> exists i :: 0 <= i < |ns| && r.value == ns[i] && ExcludedAt(nodes, ns, i) &&
                                    forall i' :: 0 <= i' < i ==> !ExcludedAt(nodes, ns, i')
  {
    var i := 0;
    while i < |ns|
      invariant 0 <= i <= |ns|
      invariant forall i' :: 0 <= i' < i ==> !ExcludedAt(nodes, ns, i')
    {
      var pn := ns[i];
      var k := 0;
      while k < |nodes[pn].excludes|
        invariant 0 <= k <= |nodes[pn].excludes|
        invariant forall k' :: 0 <= k' < k ==> !NumIn(nodes, nodes[pn].excludes[k'], ns)
      {
        if NumIn(nodes, nodes[pn].excludes[k], ns) {
          assert ExcludedAt(nodes, ns, i);
          return Some(pn);
        }
        k := k + 1;
      }
      i := i + 1;
    }
    return None;
  }

  // ---------------------------------------------------------------------
  // Operators the planner can ground

  /** Every Variable argument of `a` is one of the parameters. */
  predicate Bindable(a: Atom, params: seq<Variable>) {
    forall i :: 0 <= i < |a.args| ==> a.args[i].Var? ==> a.args[i].v in params
  }

  /**
   * An operator inside the scope of this model: every parameter kind has
   * instances, every `equal` precondition has two arguments, and every
   * effect mentions only parameters.
   */
  predicate OperatorOk(op: Operator, table: InstanceTable) {
    KindsKnown(op.params, table) && WellFormed(op)
  }

  /** The part of OperatorOk that does not depend on the instances. */
  predicate WellFormed(op: Operator) {
    && EqualityArity(op.precs)
    && (forall k :: 0 <= k < |op.adds| ==> Bindable(op.adds[k], op.params))
    && (forall k :: 0 <= k < |op.deletes| ==> Bindable(op.deletes[k], op.params))
  }

  /** The bindprops that survive preconditions_excluded, in order. */
  function Unexcluded(nodes: seq<PropNode>, bps: seq<BindProp>): (r: seq<BindProp>)
    requires ExcludesIndexed(nodes)
    requires forall k :: 0 <= k < |bps| ==> IndicesBelow(bps[k].propnodes, |nodes|)
    ensures forall bp :: bp in r <==> bp in bps && !HasMutexPair(nodes, bp.propnodes)
    decreases |bps|
  {
    if bps == [] then []
    else
      var init := bps[..|bps| - 1];
      var last := bps[|bps| - 1];
      assert bps == init + [last];
      Unexcluded(nodes, init) + if HasMutexPair(nodes, last.propnodes) then [] else [last]
  }

  /** Every bindprop of an operator is supported by nodes of the level and binds exactly the parameters. */
  lemma BindPropFacts(op: Operator, nodes: seq<PropNode>, table: InstanceTable, bp: BindProp)
    requires OperatorOk(op, table)
    requires bp in BindProps(op.precs, nodes, BindingsUpTo(op.params, table, |op.params|))
    ensures IndicesBelow(bp.propnodes, |nodes|)
    ensures TotalBinding(op.params, table, |op.params|, bp.bindings)
    ensures forall k :: 0 <= k < |op.adds| ==> BoundBy(op.adds[k], bp.bindings)
    ensures forall k :: 0 <= k < |op.deletes| ==> BoundBy(op.deletes[k], bp.bindings)
  {
    var all := BindingsUpTo(op.params, table, |op.params|);
    BindPropsMember(op.precs, nodes, all, bp);
    SupportIndexed(op.precs, bp.bindings, nodes);
    SupportCharacterized(op.precs, bp.bindings, nodes);
    BindingsTotal(op.params, table, |op.params|, bp.bindings);
    forall v | v in op.params
      ensures v in bp.bindings
    {
      var i :| 0 <= i < |op.params| && op.params[i] == v;
      assert v in ParamSet(op.params, |op.params|);
    }
  }

  /** The bindprops generate_operator_actions turns into action nodes. */
  function ActionBindProps(op: Operator, nodes: seq<PropNode>, table: InstanceTable): seq<BindProp>
    requires OperatorOk(op, table) && ExcludesIndexed(nodes)
  {
    var bps := BindProps(op.precs, nodes, BindingsUpTo(op.params, table, |op.params|));
    forall k | 0 <= k < |bps|
      ensures IndicesBelow(bps[k].propnodes, |nodes|)
    {
      BindPropFacts(op, nodes, table, bps[k]);
    }
    Unexcluded(nodes, bps)
  }

  /**
   * An action node is generated for binding `b` with supporting nodes `ns`
   * exactly when `b` binds every parameter to an instance of its kind,
   * every precondition holds under `b` (builtin `equal` literals by their
   * polarity, the others by occurring at the level), `ns` are the first
   * matching nodes of the non-builtin preconditions in order, and no two
   * of them are mutex.
   */
  lemma ActionBindPropsExactly(op: Operator, nodes: seq<PropNode>, table: InstanceTable, b: Binding, ns: seq<nat>)
    requires OperatorOk(op, table) && ExcludesIndexed(nodes)
    ensures BindProp(b, ns) in ActionBindProps(op, nodes, table) <==>
            && TotalBinding(op.params, table, |op.params|, b)
            && (forall k :: 0 <= k < |op.precs| ==> PrecSatisfied(op.precs[k], b, nodes))
            && |ns| == |GraphPrecs(op.precs)|
            && (forall k :: 0 <= k < |ns| ==> FirstMatch(nodes, Subst(GraphPrecs(op.precs)[k], b)) == Some(ns[k]))
            && IndicesBelow(ns, |nodes|)
            && !HasMutexPair(nodes, ns)
  {
    var all := BindingsUpTo(op.params, table, |op.params|);
    var bp := BindProp(b, ns);
    BindPropsMember(op.precs, nodes, all, bp);
    SupportIs(op.precs, b, nodes, ns);
    if b in all {
      BindingsTotal(op.params, table, |op.params|, b);
    }
    if TotalBinding(op.params, table, |op.params|, b) {
      BindingsComplete(op.params, table, |op.params|, b);
    }
    if Support(op.precs, b, nodes) == Some(ns) {
      SupportIndexed(op.precs, b, nodes);
    }
  }

  /** Support, stated pointwise for a given list of supporting nodes. */
  lemma SupportIs(precs: seq<Atom>, b: Binding, nodes: seq<PropNode>, ns: seq<nat>)
    requires EqualityArity(precs)
    ensures Support(precs, b, nodes) == Some(ns) <==>
            && (forall k :: 0 <= k < |precs| ==> PrecSatisfied(precs[k], b, nodes))
            && |ns| == |GraphPrecs(precs)|
            && (forall k :: 0 <= k < |ns| ==> FirstMatch(nodes, Subst(GraphPrecs(precs)[k], b)) == Some(ns[k]))
  {
    SupportCharacterized(precs, b, nodes);
    var s := Support(precs, b, nodes);
    if s.Some? && |ns| == |s.value| && (forall k :: 0 <= k < |ns| ==> FirstMatch(nodes, Subst(GraphPrecs(precs)[k], b)) == Some(ns[k])) {
      assert forall k :: 0 <= k < |ns| ==> s.value[k] == ns[k];
      assert s.value == ns;
    }
  }

  // ---------------------------------------------------------------------
  // Grounding reads only the literals and excludes of the level

  lemma {:induction false} SupportSame(precs: seq<Atom>, b: Binding, n1: seq<PropNode>, n2: seq<PropNode>)
    requires EqualityArity(precs) && SameLiterals(n1, n2)
    ensures Support(precs, b, n1) == Support(precs, b, n2)
    decreases |precs|
  {
    if precs != [] {
      SupportSame(precs[..|precs| - 1], b, n1, n2);
      FirstMatchSame(n1, n2, Subst(precs[|precs| - 1], b));
    }
  }

  lemma {:induction false} BindPropsSame(precs: seq<Atom>, n1: seq<PropNode>, n2: seq<PropNode>, bindings: seq<Binding>)
    requires EqualityArity(precs) && SameLiterals(n1, n2)
    ensures BindProps(precs, n1, bindings) == BindProps(precs, n2, bindings)
    decreases |bindings|
  {
    if bindings != [] {
      BindPropsSame(precs, n1, n2, bindings[..|bindings| - 1]);
      SupportSame(precs, bindings[|bindings| - 1], n1, n2);
    }
  }

  lemma MutexPairSame(n1: seq<PropNode>, n2: seq<PropNode>, ns: seq<nat>)
    requires SameLiterals(n1, n2) && ExcludesIndexed(n1) && IndicesBelow(ns, |n1|)
    ensures ExcludesIndexed(n2)
    ensures HasMutexPair(n1, ns) <==> HasMutexPair(n2, ns)
  {
    assert forall i :: 0 <= i < |ns| ==> (ExcludedAt(n1, ns, i) <==> ExcludedAt(n2, ns, i));
  }

  lemma {:induction false} UnexcludedSame(n1: seq<PropNode>, n2: seq<PropNode>, bps: seq<BindProp>)
    requires SameLiterals(n1, n2) && ExcludesIndexed(n1)
    requires forall k :: 0 <= k < |bps| ==> IndicesBelow(bps[k].propnodes, |n1|)
    ensures ExcludesIndexed(n2)
    ensures Unexcluded(n1, bps) == Unexcluded(n2, bps)
    decreases |bps|
  {
    MutexPairSame(n1, n2, []);
    if bps != [] {
      UnexcludedSame(n1, n2, bps[..|bps| - 1]);
      MutexPairSame(n1, n2, bps[|bps| - 1].propnodes);
    }
  }

  /** The action bindprops of an operator depend only on the literals and excludes of the level. */
  lemma ActionBindPropsSame(op: Operator, n1: seq<PropNode>, n2: seq<PropNode>, table: InstanceTable)
    requires OperatorOk(op, table) && ExcludesIndexed(n1) && SameLiterals(n1, n2)
    ensures ExcludesIndexed(n2)
    ensures ActionBindProps(op, n1, table) == ActionBindProps(op, n2, table)
  {
    var all := BindingsUpTo(op.params, table, |op.params|);
    BindPropsSame(op.precs, n1, n2, all);
    var bps := BindProps(op.precs, n1, all);
    forall k | 0 <= k < |bps|
      ensures IndicesBelow(bps[k].propnodes, |n1|)
    {
      BindPropFacts(op, n1, table, bps[k]);
    }
    UnexcludedSame(n1, n2, bps);
  }
}
