/**
 * Operator schemas and the binding generator: the instance table grouped by
 * kind, and the cross product of instances over an operator's parameters.
 */
module Grounding {
  import opened Wrappers
  import opened Lists
  import opened Terms

  /** An operator schema with explicitly listed parameters. */
  datatype Operator = Operator(
    name: string,
    params: seq<Variable>,
    precs: seq<Atom>,
    adds: seq<Atom>,
    deletes: seq<Atom>)

  /** Instances of each kind, in first-occurrence order. */
  type InstanceTable = map<string, seq<Instance>>

  /**
   * generate_instance_table: the instances grouped by kind; each kind that
   * occurs lists its distinct instances in the order of first occurrence.
   */
  method GenerateInstanceTable(instances: seq<Instance>) returns (table: InstanceTable)
    ensures forall k :: k in table <==> exists i :: 0 <= i < |instances| && instances[i].kind == k
    ensures forall k :: k in table ==> table[k] == OfKind(instances, |instances|, k)
    ensures forall k :: k in table ==> NoDup(table[k])
  {
    table := map[];
    for n := 0 to |instances|
      invariant KindsUpTo(instances, table, n)
      invariant ListsUpTo(instances, table, n)
    {
      ghost var before := table;
      table := AddInstance(table, instances[n]);
      KindsStep(instances, before, table, n);
      ListsStep(instances, before, table, n);
    }
    forall k | k in table
      ensures NoDup(table[k])
    {
      OfKindFacts(instances, |instances|, k);
    }
  }

  /** One step of generate_instance_table: file `inst` under its kind unless it is already listed. */
  method AddInstance(table: InstanceTable, inst: Instance) returns (t: InstanceTable)
    ensures t == Grouped(table, inst)
  {
    t := table;
    if inst.kind !in t {
      t := t[inst.kind := []];
    }
    if inst !in t[inst.kind] {
      t := t[inst.kind := t[inst.kind] + [inst]];
    }
  }

  /** The table after one more instance: its kind's list gains it unless already there. */
  function Grouped(table: InstanceTable, inst: Instance): InstanceTable {
    var t := if inst.kind in table then table else table[inst.kind := []];
    if inst in t[inst.kind] then t else t[inst.kind := t[inst.kind] + [inst]]
  }

  /** The distinct instances of kind `k` among the first `n`, in the order they first occur. */
  function OfKind(instances: seq<Instance>, n: nat, k: string): seq<Instance>
    requires n <= |instances|
  {
    if n == 0 then []
    else
      var prev := OfKind(instances, n - 1, k);
      var x := instances[n - 1];
      if x.kind == k && x !in prev then prev + [x] else prev
  }

  /** OfKind holds each instance of the kind exactly once. */
  lemma {:induction false} OfKindFacts(instances: seq<Instance>, n: nat, k: string)
    requires n <= |instances|
    ensures NoDup(OfKind(instances, n, k))
    ensures forall x :: x in OfKind(instances, n, k) <==> x in instances[..n] && x.kind == k
  {
    if n > 0 {
      OfKindFacts(instances, n - 1, k);
      TakeOneMore(instances, n - 1);
    }
  }

  /** No instance of the kind among the first `n`: nothing listed. */
  lemma {:induction false} OfKindNone(instances: seq<Instance>, n: nat, k: string)
    requires n <= |instances| && forall i :: 0 <= i < n ==> instances[i].kind != k
    ensures OfKind(instances, n, k) == []
  {
    if n > 0 {
      OfKindNone(instances, n - 1, k);
    }
  }

  /** The kinds of the table are those of the first `n` instances. */
  ghost predicate KindsUpTo(instances: seq<Instance>, table: InstanceTable, n: nat)
    requires n <= |instances|
  {
    forall k :: k in table <==> exists i :: 0 <= i < n && instances[i].kind == k
  }

  /** Each kind's list is OfKind of the first `n` instances. */
  ghost predicate ListsUpTo(instances: seq<Instance>, table: InstanceTable, n: nat)
    requires n <= |instances|
  {
    forall k :: k in table ==> table[k] == OfKind(instances, n, k)
  }

  lemma KindsStep(instances: seq<Instance>, table: InstanceTable, after: InstanceTable, n: nat)
    requires n < |instances| && KindsUpTo(instances, table, n) && after == Grouped(table, instances[n])
    ensures KindsUpTo(instances, after, n + 1)
  {
    forall k
      ensures k in after <==> exists i :: 0 <= i < n + 1 && instances[i].kind == k
    {
      if k in after && k != instances[n].kind {
        var i :| 0 <= i < n && instances[i].kind == k;
      }
      if exists i :: 0 <= i < n + 1 && instances[i].kind == k {
        var i :| 0 <= i < n + 1 && instances[i].kind == k;
        if i < n {
          assert k in table;
        }
      }
    }
  }

  lemma ListsStep(instances: seq<Instance>, table: InstanceTable, after: InstanceTable, n: nat)
    requires n < |instances| && KindsUpTo(instances, table, n) && ListsUpTo(instances, table, n)
    requires after == Grouped(table, instances[n])
    ensures ListsUpTo(instances, after, n + 1)
  {
    var inst := instances[n];
    forall k | k in after
      ensures after[k] == OfKind(instances, n + 1, k)
    {
      if k != inst.kind {
        assert after[k] == table[k];
      } else if k !in table {
        forall i | 0 <= i < n
          ensures instances[i].kind != k
        {
          assert instances[i].kind in table;
        }
        OfKindNone(instances, n, k);
      }
    }
  }

  /** Every one of the first `n` parameters has a kind listed in the table. */
  predicate KnownUpTo(params: seq<Variable>, table: InstanceTable, n: nat)
    requires n <= |params|
  {
    forall i :: 0 <= i < n ==> params[i].kind in table
  }

  /** The instance table has an entry for the kind of every parameter. */
  predicate KindsKnown(params: seq<Variable>, table: InstanceTable) {
    KnownUpTo(params, table, |params|)
  }

  /** The bindings of `bs`, each extended by `p := inst`, in order. */
  function Bind(bs: seq<Binding>, p: Variable, inst: Instance): (r: seq<Binding>)
    ensures |r| == |bs|
    ensures forall k :: 0 <= k < |bs| ==> r[k] == bs[k][p := inst]
  {
    seq(|bs|, k requires 0 <= k < |bs| => bs[k][p := inst])
  }

  /**
   * One round of the parameter loop: for each instance of `insts` in
   * order, a copy of all of `bs` with `p` bound to it.
   */
  function Extend(bs: seq<Binding>, p: Variable, insts: seq<Instance>): seq<Binding>
    decreases |insts|
  {
    if insts == [] then []
    else Extend(bs, p, insts[..|insts| - 1]) + Bind(bs, p, insts[|insts| - 1])
  }

  /** The bindings after the first `n` parameters have been processed. */
  function BindingsUpTo(params: seq<Variable>, table: InstanceTable, n: nat): seq<Binding>
    requires n <= |params| && KnownUpTo(params, table, n)
  {
    if n == 0 then [map[]]
    else Extend(BindingsUpTo(params, table, n - 1), params[n - 1], table[params[n - 1].kind])
  }

  /** The product of the instance counts of the first `n` parameters' kinds. */
  function Product(params: seq<Variable>, table: InstanceTable, n: nat): nat
    requires n <= |params| && KnownUpTo(params, table, n)
  {
    if n == 0 then 1 else Product(params, table, n - 1) * |table[params[n - 1].kind]|
  }

  /** The first `n` parameters as a set. */
  function ParamSet(params: seq<Variable>, n: nat): set<Variable>
    requires n <= |params|
  {
    set i | 0 <= i < n :: params[i]
  }

  lemma ParamSetStep(params: seq<Variable>, n: nat)
    requires 0 < n <= |params|
    ensures ParamSet(params, n) == ParamSet(params, n - 1) + {params[n - 1]}
    ensures forall i :: 0 <= i < n ==> params[i] in ParamSet(params, n)
  {
    forall x
      ensures x in ParamSet(params, n) <==> x in ParamSet(params, n - 1) + {params[n - 1]}
    {
      if x in ParamSet(params, n) {
        var i :| 0 <= i < n && params[i] == x;
        if i < n - 1 {
          assert x in ParamSet(params, n - 1);
        }
      }
      if x in ParamSet(params, n - 1) {
        var i :| 0 <= i < n - 1 && params[i] == x;
        assert x in ParamSet(params, n);
      }
    }
  }

  /**
   * A total binding of the first `n` parameters: exactly those variables
   * are bound, each to an instance of its kind.
   */
  ghost predicate TotalBinding(params: seq<Variable>, table: InstanceTable, n: nat, b: Binding)
    requires n <= |params| && KnownUpTo(params, table, n)
  {
    b.Keys == ParamSet(params, n) &&
    forall i :: 0 <= i < n ==> b[params[i]] in table[params[i].kind]
  }

  lemma {:induction false} ExtendLength(bs: seq<Binding>, p: Variable, insts: seq<Instance>)
    ensures |Extend(bs, p, insts)| == |bs| * |insts|
    decreases |insts|
  {
    if insts != [] {
      ExtendLength(bs, p, insts[..|insts| - 1]);
    }
  }

  /** The members of one round are exactly the old bindings extended by one instance each. */
  lemma {:induction false} ExtendMember(bs: seq<Binding>, p: Variable, insts: seq<Instance>, b: Binding)
    ensures b in Extend(bs, p, insts) <==>
            exists j, k :: 0 <= j < |insts| && 0 <= k < |bs| && b == bs[k][p := insts[j]]
    decreases |insts|
  {
    if insts != [] {
      var init := insts[..|insts| - 1];
      var last := insts[|insts| - 1];
      ExtendMember(bs, p, init, b);
      if b in Extend(bs, p, insts) {
        if b !in Extend(bs, p, init) {
          assert b in Bind(bs, p, last);
          var k :| 0 <= k < |bs| && Bind(bs, p, last)[k] == b;
          assert b == bs[k][p := insts[|insts| - 1]];
        } else {
          var j, k :| 0 <= j < |init| && 0 <= k < |bs| && b == bs[k][p := init[j]];
          assert b == bs[k][p := insts[j]];
        }
      }
      if exists j, k :: 0 <= j < |insts| && 0 <= k < |bs| && b == bs[k][p := insts[j]] {
        var j, k :| 0 <= j < |insts| && 0 <= k < |bs| && b == bs[k][p := insts[j]];
        if j < |init| {
          assert b == bs[k][p := init[j]];
        } else {
          assert b == Bind(bs, p, last)[k];
        }
      }
    }
  }

  /** A round keeps the bindings distinct when `p` is new to them and the instances are distinct. */
  lemma {:induction false} ExtendNoDup(bs: seq<Binding>, p: Variable, insts: seq<Instance>)
    requires NoDup(bs) && NoDup(insts)
    requires forall k :: 0 <= k < |bs| ==> p !in bs[k]
    ensures NoDup(Extend(bs, p, insts))
    decreases |insts|
  {
    if insts != [] {
      var init := insts[..|insts| - 1];
      var last := insts[|insts| - 1];
      assert NoDup(init);
      ExtendNoDup(bs, p, init);
      var front := Extend(bs, p, init);
      var back := Bind(bs, p, last);
      forall k1, k2 | 0 <= k1 < k2 < |back|
        ensures back[k1] != back[k2]
      {
        assert bs[k1] == back[k1] - {p};
        assert bs[k2] == back[k2] - {p};
      }
      forall x | x in front
        ensures x !in back
      {
        ExtendMember(bs, p, init, x);
        var j, k :| 0 <= j < |init| && 0 <= k < |bs| && x == bs[k][p := init[j]];
        assert x[p] == init[j] != last;
      }
      var all := front + back;
      forall i1, i2 | 0 <= i1 < i2 < |all|
        ensures all[i1] != all[i2]
      {
        if i2 < |front| {
        } else if i1 >= |front| {
          assert all[i1] == back[i1 - |front|] && all[i2] == back[i2 - |front|];
        } else {
          assert all[i1] in front;
          assert all[i2] == back[i2 - |front|];
        }
      }
    }
  }

  /** generate_bindings yields the product of the instance counts of the parameters' kinds. */
  lemma {:induction false} BindingsCount(params: seq<Variable>, table: InstanceTable, n: nat)
    requires n <= |params| && KnownUpTo(params, table, n)
    ensures |BindingsUpTo(params, table, n)| == Product(params, table, n)
  {
    if n > 0 {
      BindingsCount(params, table, n - 1);
      ExtendLength(BindingsUpTo(params, table, n - 1), params[n - 1], table[params[n - 1].kind]);
    }
  }

  /** Binding the next parameter to an instance of its kind extends a total binding. */
  lemma TotalBindingExtend(params: seq<Variable>, table: InstanceTable, n: nat, prev: Binding, x: Instance)
    requires 0 < n <= |params| && KnownUpTo(params, table, n)
    requires TotalBinding(params, table, n - 1, prev) && x in table[params[n - 1].kind]
    ensures TotalBinding(params, table, n, prev[params[n - 1] := x])
  {
  }

  /**
   * A total binding of the first `n` parameters is one of the first
   * `n - 1` with the last parameter bound to an instance of its kind.
   */
  lemma TotalBindingRestrict(params: seq<Variable>, table: InstanceTable, n: nat, b: Binding)
    requires 0 < n <= |params| && KnownUpTo(params, table, n)
    requires TotalBinding(params, table, n, b)
    ensures var p := params[n - 1];
            var rest := if p in ParamSet(params, n - 1) then b else b - {p};
            TotalBinding(params, table, n - 1, rest) && b == rest[p := b[p]] && b[p] in table[p.kind]
  {
  }

  /** Every generated binding maps exactly the parameters, each to an instance of its kind. */
  lemma {:induction false} BindingsTotal(params: seq<Variable>, table: InstanceTable, n: nat, b: Binding)
    requires n <= |params| && KnownUpTo(params, table, n)
    requires b in BindingsUpTo(params, table, n)
    ensures TotalBinding(params, table, n, b)
  {
    if n > 0 {
      var p := params[n - 1];
      var prev := BindingsUpTo(params, table, n - 1);
      ExtendMember(prev, p, table[p.kind], b);
      var j, k :| 0 <= j < |table[p.kind]| && 0 <= k < |prev| && b == prev[k][p := table[p.kind][j]];
      BindingsTotal(params, table, n - 1, prev[k]);
      TotalBindingExtend(params, table, n, prev[k], table[p.kind][j]);
    } else {
      assert ParamSet(params, 0) == {};
    }
  }

  /** Every total binding of the parameters is generated. */
  lemma {:induction false} BindingsComplete(params: seq<Variable>, table: InstanceTable, n: nat, b: Binding)
    requires n <= |params| && KnownUpTo(params, table, n)
    requires TotalBinding(params, table, n, b)
    ensures b in BindingsUpTo(params, table, n)
  {
    if n == 0 {
      assert ParamSet(params, 0) == {};
      assert b == map[];
    } else {
      var p := params[n - 1];
      var prev := BindingsUpTo(params, table, n - 1);
      var rest := if p in ParamSet(params, n - 1) then b else b - {p};
      TotalBindingRestrict(params, table, n, b);
      BindingsComplete(params, table, n - 1, rest);
      var k :| 0 <= k < |prev| && prev[k] == rest;
      var j :| 0 <= j < |table[p.kind]| && table[p.kind][j] == b[p];
      ExtendMember(prev, p, table[p.kind], b);
    }
  }

  /**
   * With distinct parameters and duplicate-free instance lists the
   * generated bindings are pairwise distinct.
   */
  lemma {:induction false} BindingsDistinct(params: seq<Variable>, table: InstanceTable, n: nat)
    requires n <= |params| && KnownUpTo(params, table, n)
    requires NoDup(params)
    requires forall i :: 0 <= i < n ==> NoDup(table[params[i].kind])
    ensures NoDup(BindingsUpTo(params, table, n))
  {
    if n > 0 {
      var p := params[n - 1];
      var prev := BindingsUpTo(params, table, n - 1);
      BindingsDistinct(params, table, n - 1);
      forall k | 0 <= k < |prev|
        ensures p !in prev[k]
      {
        BindingsTotal(params, table, n - 1, prev[k]);
      }
      ExtendNoDup(prev, p, table[p.kind]);
    }
  }

  /**
   * Operator.generate_bindings: the full cross product of the instances of
   * each parameter's kind; a kind missing from the table is the KeyError
   * the original raises.
   */
  method GenerateBindings(op: Operator, table: InstanceTable) returns (r: Option<seq<Binding>>)
    ensures r.None? <==> !KindsKnown(op.params, table)
    ensures r.Some? ==> r.value == BindingsUpTo(op.params, table, |op.params|)
  {
    var bindings: seq<Binding> := [map[]];
    var i := 0;
    while i < |op.params|
      invariant 0 <= i <= |op.params|
      invariant KnownUpTo(op.params, table, i)
      invariant bindings == BindingsUpTo(op.params, table, i)
    {
      var p := op.params[i];
      if p.kind !in table {
        return None;
      }
      var insts := table[p.kind];
      var newbinds: seq<Binding> := [];
      var j := 0;
      while j < |insts|
        invariant 0 <= j <= |insts|
        invariant newbinds == Extend(bindings, p, insts[..j])
      {
        // deepcopy(bindings), then bind p in every copy
        var copy := bindings;
        var k := 0;
        while k < |copy|
          invariant 0 <= k <= |copy| && |copy| == |bindings|
          invariant forall m :: 0 <= m < k ==> copy[m] == bindings[m][p := insts[j]]
          invariant forall m :: k <= m < |copy| ==> copy[m] == bindings[m]
        {
          copy := copy[k := copy[k][p := insts[j]]];
          k := k + 1;
        }
        assert copy == Bind(bindings, p, insts[j]);
        assert insts[..j + 1][..j] == insts[..j];
        newbinds := newbinds + copy;
        j := j + 1;
      }
      assert insts[..|insts|] == insts;
      bindings := newbinds;
      i := i + 1;
    }
    return Some(bindings);
  }
}
