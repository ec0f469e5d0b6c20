/**
 * The term layer of the planner: typed constants (`Instance`), typed
 * placeholders (`Variable`), literals with a polarity, and substitution of
 * bound placeholders.
 *
 * A literal's structure (predicate, argument list, polarity) is its
 * signature `Atom`; a `Prop` is one Proposition object, that is a signature
 * together with the propnum it was given (None when the literal mentions a
 * Variable and was therefore never registered).
 */
module Terms {
  import opened Wrappers

  /** The only builtin predicate: argument equality, checked at grounding time. */
  const EQUAL: string := "equal"
  /** The name carried by persistence actions. */
  const NOOP: string := "noop"

  /** A typed constant; equality is by name and kind. */
  datatype Instance = Instance(name: string, kind: string)

  /** A typed placeholder of an operator schema. */
  datatype Variable = Variable(name: string, kind: string)

  /** An argument of a literal. */
  datatype Term = Obj(inst: Instance) | Var(v: Variable)

  /** The signature `(pred, tuple(args), value)` of a literal. */
  datatype Atom = Atom(pred: string, args: seq<Term>, value: bool)

  /** A Proposition object: its signature and its propnum. */
  datatype Prop = Prop(atom: Atom, num: Option<nat>)

  /** A substitution of instances for variables. */
  type Binding = map<Variable, Instance>

  /** No argument is a Variable: the literal is registered when created. */
  predicate Ground(a: Atom) {
    forall i :: 0 <= i < |a.args| ==> a.args[i].Obj?
  }

  /** Every Variable argument of `a` has a value in `b`. */
  predicate BoundBy(a: Atom, b: Binding) {
    forall i :: 0 <= i < |a.args| ==> a.args[i].Var? ==> a.args[i].v in b
  }

  /** One argument under a binding: a bound Variable becomes its value, anything else stays. */
  function SubstTerm(t: Term, b: Binding): Term {
    match t
    case Var(v) => if v in b then Obj(b[v]) else t
    case Obj(_) => t
  }

  /**
   * The signature `instantiate` interns: each bound Variable replaced by
   * its binding, every other argument, the predicate and the polarity kept.
   */
  function Subst(a: Atom, b: Binding): (r: Atom)
    ensures r.pred == a.pred && r.value == a.value && |r.args| == |a.args|
    ensures forall i :: 0 <= i < |a.args| ==>
              if a.args[i].Var? && a.args[i].v in b then r.args[i] == Obj(b[a.args[i].v])
              else r.args[i] == a.args[i]
    ensures BoundBy(a, b) ==> Ground(r)
    ensures Ground(a) ==> r == a
  {
    Atom(a.pred, seq(|a.args|, i requires 0 <= i < |a.args| => SubstTerm(a.args[i], b)), a.value)
  }

  /**
   * Python's `==` between two arguments. `Instance.__eq__` demands another
   * Instance; `Variable.__eq__` compares name and kind of whatever it is
   * given, so a Variable equals an Instance of the same name and kind when
   * it is the left operand.
   */
  function TermEq(x: Term, y: Term): (r: bool)
    ensures x.Obj? ==> (r <==> x == y)
    ensures x == y ==> r
    ensures r && y.Var? ==> x == y
  {
    match x
    case Obj(i) => y.Obj? && y.inst == i
    case Var(v) =>
      match y
      case Var(w) => v == w
      case Obj(j) => v.name == j.name && v.kind == j.kind
  }

  /** A literal over the builtin `equal` predicate. */
  predicate IsEqualityAtom(a: Atom) {
    a.pred == EQUAL
  }

  /**
   * The builtin check of an instantiated `equal` precondition: the equality
   * of its first two arguments must match its polarity.
   */
  predicate EqualityHolds(a: Atom)
    requires |a.args| >= 2
  {
    TermEq(a.args[0], a.args[1]) == a.value
  }
}
