/**
 * The interning table of ground literals (`Proposition.prophash`), made an
 * explicit object: `ids` maps each registered signature to the propnum of
 * the literal stored under it, `order` lists the signatures in the order
 * they were first registered.
 */
module Interning {
  import opened Wrappers
  import opened Lists
  import opened Terms

  /** Well-formed table contents: `order` lists exactly the keys, once each, all ground. */
  ghost predicate Registry(ids: map<Atom, nat>, order: seq<Atom>) {
    && NoDup(order)
    && (forall a :: a in ids <==> a in order)
    && (forall i :: 0 <= i < |order| ==> Ground(order[i]))
  }

  /** The contents produced by `newish` alone: the k-th registered signature has propnum k. */
  ghost predicate CanonicalRegistry(ids: map<Atom, nat>, order: seq<Atom>) {
    Registry(ids, order) && forall i :: 0 <= i < |order| ==> ids[order[i]] == i + 1
  }

  /** Every signature of `before` is still registered in `after` with the same propnum. */
  predicate Keeps(before: map<Atom, nat>, after: map<Atom, nat>) {
    forall x :: x in before ==> x in after && after[x] == before[x]
  }

  lemma KeepsTrans(a: map<Atom, nat>, b: map<Atom, nat>, c: map<Atom, nat>)
    requires Keeps(a, b) && Keeps(b, c)
    ensures Keeps(a, c)
  {
  }

  /**
   * From one table to a later one: every registered signature keeps its
   * propnum, and a canonical table stays canonical.
   */
  ghost predicate TableGrows(ids0: map<Atom, nat>, order0: seq<Atom>, ids1: map<Atom, nat>, order1: seq<Atom>) {
    Keeps(ids0, ids1) && (CanonicalRegistry(ids0, order0) ==> CanonicalRegistry(ids1, order1))
  }

  lemma TableGrowsTrans(ids0: map<Atom, nat>, order0: seq<Atom>, ids1: map<Atom, nat>, order1: seq<Atom>,
                        ids2: map<Atom, nat>, order2: seq<Atom>)
    requires TableGrows(ids0, order0, ids1, order1) && TableGrows(ids1, order1, ids2, order2)
    ensures TableGrows(ids0, order0, ids2, order2)
  {
  }

  /**
   * The table after `newish` is called on each of `atoms` in turn: a
   * registered or non-ground signature leaves it alone, a new ground one
   * is appended with the next propnum.
   */
  function Interned(ids: map<Atom, nat>, order: seq<Atom>, atoms: seq<Atom>): (map<Atom, nat>, seq<Atom>)
    decreases |atoms|
  {
    if atoms == [] then (ids, order)
    else
      var t := Interned(ids, order, atoms[..|atoms| - 1]);
      var a := atoms[|atoms| - 1];
      if a in t.0 || !Ground(a) then t else (t.0[a := |t.1| + 1], t.1 + [a])
  }

  /** Interning two lists in a row is interning their concatenation. */
  lemma {:induction false} InternedConcat(ids: map<Atom, nat>, order: seq<Atom>, xs: seq<Atom>, ys: seq<Atom>)
    ensures Interned(ids, order, xs + ys) ==
            Interned(Interned(ids, order, xs).0, Interned(ids, order, xs).1, ys)
    decreases |ys|
  {
    if ys == [] {
      assert xs + ys == xs;
    } else {
      var init := ys[..|ys| - 1];
      InternedConcat(ids, order, xs, init);
      assert (xs + ys)[..|xs + ys| - 1] == xs + init;
    }
  }

  /** Registering one new ground signature keeps a table well-formed, its entries and its canonicity. */
  lemma InternOne(ids: map<Atom, nat>, order: seq<Atom>, a: Atom)
    requires Registry(ids, order) && a !in ids && Ground(a)
    ensures Registry(ids[a := |order| + 1], order + [a])
    ensures TableGrows(ids, order, ids[a := |order| + 1], order + [a])
  {
  }

  /**
   * Interning keeps the table well formed, keeps every entry, keeps a
   * canonical table canonical, and registers exactly the ground atoms
   * interned on top of the old signatures.
   */
  lemma {:induction false} InternedEffect(ids: map<Atom, nat>, order: seq<Atom>, atoms: seq<Atom>)
    requires Registry(ids, order)
    ensures Registry(Interned(ids, order, atoms).0, Interned(ids, order, atoms).1)
    ensures TableGrows(ids, order, Interned(ids, order, atoms).0, Interned(ids, order, atoms).1)
    ensures forall a :: a in Interned(ids, order, atoms).0 <==> a in ids || (a in atoms && Ground(a))
    decreases |atoms|
  {
    if atoms != [] {
      var init := atoms[..|atoms| - 1];
      var a := atoms[|atoms| - 1];
      InternedEffect(ids, order, init);
      var t := Interned(ids, order, init);
      assert atoms == init + [a];
      if a !in t.0 && Ground(a) {
        InternOne(t.0, t.1, a);
        TableGrowsTrans(ids, order, t.0, t.1, t.0[a := |t.1| + 1], t.1 + [a]);
      }
    }
  }

  /** The table holds one entry per listed signature. */
  lemma RegistrySize(ids: map<Atom, nat>, order: seq<Atom>)
    requires Registry(ids, order)
    ensures |ids| == |order|
  {
    assert ids.Keys == set x | x in order;
    NoDupCardinality(order);
  }

  /**
   * In a canonical table different signatures carry different propnums,
   * and the propnums in use are exactly 1 .. |order|.
   */
  lemma CanonicalPropnums(ids: map<Atom, nat>, order: seq<Atom>)
    requires CanonicalRegistry(ids, order)
    ensures forall a, b :: a in ids && b in ids && a != b ==> ids[a] != ids[b]
    ensures forall a :: a in ids ==> 1 <= ids[a] <= |order|
  {
  }

  /**
   * Calling the Proposition constructor directly on a signature that is
   * already registered overwrites its entry with propnum `len(prophash)`,
   * the number of the most recently registered signature: two different
   * signatures then share one propnum.
   */
  lemma OverwriteSharesPropnum(ids: map<Atom, nat>, order: seq<Atom>, a: Atom)
    requires CanonicalRegistry(ids, order)
    requires a in ids && a != order[|order| - 1]
    ensures var ids' := ids[a := |ids|];
            order[|order| - 1] in ids' && ids'[a] == ids'[order[|order| - 1]]
  {
    RegistrySize(ids, order);
  }

  class Interner {
    var ids: map<Atom, nat>
    var order: seq<Atom>

    ghost predicate Valid()
      reads this
    {
      Registry(ids, order)
    }

    ghost predicate Canonical()
      reads this
    {
      CanonicalRegistry(ids, order)
    }

    /** A fresh table for one planning run. */
    constructor ()
      ensures Valid() && Canonical()
      ensures ids == map[] && order == []
    {
      ids := map[];
      order := [];
    }

    /**
     * `Proposition.__init__`: a ground literal is stored under its
     * signature unconditionally and gets propnum `len(prophash)` after the
     * store; a literal with a Variable argument is not stored and has no
     * propnum.
     */
    method Create(a: Atom) returns (p: Prop)
      requires Valid()
      modifies this
      ensures Valid()
      ensures p.atom == a
      ensures !Ground(a) ==> p.num == None && ids == old(ids) && order == old(order)
      ensures Ground(a) && a in old(ids) ==>
                p.num == Some(|old(ids)|) && ids == old(ids)[a := |old(ids)|] && order == old(order)
      ensures Ground(a) && a !in old(ids) ==>
                p.num == Some(|old(ids)| + 1) && ids == old(ids)[a := |old(ids)| + 1]
                && order == old(order) + [a]
    {
      if Ground(a) {
        // the size of prophash once this signature is stored
        var size := if a in ids then |ids| else |ids| + 1;
        if a !in ids {
          order := order + [a];
        }
        ids := ids[a := size];
        p := Prop(a, Some(size));
      } else {
        p := Prop(a, None);
      }
    }

    /**
     * `Proposition.newish`: the stored literal when the signature is
     * registered, otherwise a newly created one.
     */
    method Newish(a: Atom) returns (p: Prop)
      requires Valid()
      modifies this
      ensures Valid()
      ensures p.atom == a
      ensures a in old(ids) ==> p.num == Some(old(ids)[a]) && ids == old(ids) && order == old(order)
      ensures a !in old(ids) && Ground(a) ==>
                p.num == Some(|old(order)| + 1) && ids == old(ids)[a := |old(order)| + 1]
                && order == old(order) + [a]
      ensures a !in old(ids) && !Ground(a) ==> p.num == None && ids == old(ids) && order == old(order)
      ensures Ground(a) ==> a in ids && p.num == Some(ids[a])
      ensures Keeps(old(ids), ids)
      ensures old(Canonical()) ==> Canonical()
      ensures (ids, order) == Interned(old(ids), old(order), [a])
    {
      RegistrySize(ids, order);
      assert [a][..0] == [];
      if a in ids {
        p := Prop(a, Some(ids[a]));
      } else {
        p := Create(a);
      }
    }

    /** `Proposition.instantiate`: substitute the bound Variables, then intern. */
    method Instantiate(template: Atom, b: Binding) returns (p: Prop)
      requires Valid()
      modifies this
      ensures Valid()
      ensures p.atom == Subst(template, b)
      ensures Subst(template, b) in old(ids) ==> p.num == Some(old(ids)[Subst(template, b)]) && ids == old(ids) && order == old(order)
      ensures Ground(Subst(template, b)) ==> Subst(template, b) in ids && p.num == Some(ids[Subst(template, b)])
      ensures !Ground(Subst(template, b)) ==> p.num == None && ids == old(ids) && order == old(order)
      ensures Keeps(old(ids), ids)
      ensures old(Canonical()) ==> Canonical()
      ensures (ids, order) == Interned(old(ids), old(order), [Subst(template, b)])
    {
      var newargs := Subst(template, b);
      p := Newish(newargs);
    }
  }
}
