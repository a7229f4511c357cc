/** Condition expressions (lib/nbcondition.c): their evaluation over possibly unknown operands,
    and the solver that asks only for the terms it still needs. */
module Conditions {
  import opened Values

  datatype BoolOp = And | Nand | Or | Nor | Xor | LazyAnd | LazyOr

  datatype RelOp = EQ | NE | LT | LE | GT | GE

  datatype Expr =
    | Term(name: string)
    | Constant(value: Value)
    | Not(arg: Expr)
    | Bool(bop: BoolOp, left: Expr, right: Expr)
    | Rel(rop: RelOp, left: Expr, right: Expr)

  // -------------------------------------------------------------------------------------------
  // Reaction methods
  // -------------------------------------------------------------------------------------------

  function EvalNot(v: Value): Value {
    if v == Unknown then Unknown
    else if v == False then True
    else False
  }

  function EvalAnd(l: Value, r: Value): Value {
    if l == False || r == False then False
    else if l == Unknown || r == Unknown then Unknown
    else True
  }

  function EvalNand(l: Value, r: Value): Value {
    if l == False || r == False then True
    else if l == Unknown || r == Unknown then Unknown
    else False
  }

  function EvalOr(l: Value, r: Value): Value {
    if l == False then
      if r == False then False
      else if r == Unknown then Unknown
      else True
    else if l == Unknown then
      if r == False || r == Unknown then Unknown
      else True
    else True
  }

  function EvalNor(l: Value, r: Value): Value {
    if l == False && r == False then True
    else if l == False && r == Unknown then Unknown
    else if l == Unknown && (r == False || r == Unknown) then Unknown
    else False
  }

  /** Only the constants true and false count: any other known operand makes the result false. */
  function EvalXor(l: Value, r: Value): Value {
    if l == Unknown || r == Unknown then Unknown
    else if l == True && r == False then True
    else if l == False && r == True then True
    else False
  }

  function EvalLazyAnd(l: Value, r: Value): Value {
    if !IsTrue(l) then l
    else if r == False then False
    else if l == Unknown || r == Unknown then Unknown
    else True
  }

  function EvalLazyOr(l: Value, r: Value): Value {
    if IsTrue(l) then True
    else if r == Unknown then Unknown
    else if r == False then (if l == Unknown then Unknown else False)
    else True
  }

  function EvalBool(op: BoolOp, l: Value, r: Value): Value {
    match op
    case And => EvalAnd(l, r)
    case Nand => EvalNand(l, r)
    case Or => EvalOr(l, r)
    case Nor => EvalNor(l, r)
    case Xor => EvalXor(l, r)
    case LazyAnd => EvalLazyAnd(l, r)
    case LazyOr => EvalLazyOr(l, r)
  }

  function EvalRel(op: RelOp, l: Value, r: Value): Value {
    match op
    case EQ => EvalEQ(l, r)
    case NE => EvalNE(l, r)
    case LT => EvalLT(l, r)
    case LE => EvalLE(l, r)
    case GT => EvalGT(l, r)
    case GE => EvalGE(l, r)
  }

  /** The current value of every term. */
  type Env = string -> Value

  function Eval(e: Expr, env: Env): Value {
    match e
    case Term(name) => env(name)
    case Constant(v) => v
    case Not(a) => EvalNot(Eval(a, env))
    case Bool(op, l, r) => EvalBool(op, Eval(l, env), Eval(r, env))
    case Rel(op, l, r) => EvalRel(op, Eval(l, env), Eval(r, env))
  }

  // -------------------------------------------------------------------------------------------
  // What the operators mean
  // -------------------------------------------------------------------------------------------

  /** A value is true when it is the constant true, a number or a string. */
  lemma LeafIs(v: Value, name: string, env: Env)
    ensures IsTrue(v) <==> v.True? || v.Real? || v.Text?
    ensures Eval(Constant(v), env) == v && Eval(Term(name), env) == env(name)
  {
  }

  predicate IsOutcome(v: Value) {
    v == Unknown || v == False || v == True
  }

  /** When each operator is true and when it is false; in all other cases it is unknown. */
  lemma BooleanTruth(l: Expr, r: Expr, env: Env)
    ensures var v, w := Eval(l, env), Eval(r, env);
      && (Eval(Not(l), env) == True <==> v == False) && (Eval(Not(l), env) == False <==> IsTrue(v))
      && (Eval(Bool(And, l, r), env) == True <==> IsTrue(v) && IsTrue(w))
      && (Eval(Bool(And, l, r), env) == False <==> v == False || w == False)
      && (Eval(Bool(Or, l, r), env) == True <==> IsTrue(v) || IsTrue(w))
      && (Eval(Bool(Or, l, r), env) == False <==> v == False && w == False)
      && (Eval(Bool(Xor, l, r), env) == True <==> (v == True && w == False) || (v == False && w == True))
      && (Eval(Bool(Xor, l, r), env) == Unknown <==> v == Unknown || w == Unknown)
      && (Eval(Bool(LazyAnd, l, r), env) == True <==> IsTrue(v) && IsTrue(w))
      && (Eval(Bool(LazyAnd, l, r), env) == False <==> v == False || (IsTrue(v) && w == False))
    ensures forall op :: IsOutcome(Eval(Bool(op, l, r), env))
    ensures IsOutcome(Eval(Not(l), env))
  {
    var v, w := Eval(l, env), Eval(r, env);
    forall op ensures Eval(Bool(op, l, r), env) == EvalBool(op, v, w) {
      OperatorOf(op, EQ, l, r, env);
    }
    assert Eval(Not(l), env) == EvalNot(v);
    hide Eval;
  }

  /** The laws that tie the operators to each other: negated operators are negations, "and" and "or" are dual, the lazy
      "or" is the eager one, and the order of eager operands does not matter. */
  lemma BooleanLaws(l: Expr, r: Expr, env: Env)
    ensures Eval(Bool(Nand, l, r), env) == Eval(Not(Bool(And, l, r)), env)
    ensures Eval(Bool(Nor, l, r), env) == Eval(Not(Bool(Or, l, r)), env)
    ensures Eval(Not(Bool(And, l, r)), env) == Eval(Bool(Or, Not(l), Not(r)), env)
    ensures Eval(Not(Bool(Or, l, r)), env) == Eval(Bool(And, Not(l), Not(r)), env)
    ensures Eval(Bool(LazyOr, l, r), env) == Eval(Bool(Or, l, r), env)
    ensures forall op :: op != LazyAnd ==> Eval(Bool(op, l, r), env) == Eval(Bool(op, r, l), env)
  {
    var v, w := Eval(l, env), Eval(r, env);
    forall op
      ensures Eval(Bool(op, l, r), env) == EvalBool(op, v, w) && Eval(Bool(op, r, l), env) == EvalBool(op, w, v)
    {
      OperatorOf(op, EQ, l, r, env);
      OperatorOf(op, EQ, r, l, env);
    }
    forall op ensures Eval(Bool(op, Not(l), Not(r)), env) == EvalBool(op, EvalNot(v), EvalNot(w)) {
      OperatorOf(op, EQ, Not(l), Not(r), env);
    }
    forall op ensures Eval(Not(Bool(op, l, r)), env) == EvalNot(EvalBool(op, v, w)) {
    }
    hide Eval;
  }

  /** Numbers compare as numbers and strings as in a dictionary: exactly one of less, equal and greater holds, `<=` is
      less or equal, and `>` and `>=` are the same with the operands exchanged. */
  lemma OrderOfConstants(l: Expr, r: Expr, env: Env)
    requires var v, w := Eval(l, env), Eval(r, env); (v.Real? && w.Real?) || (v.Text? && w.Text?)
    ensures var v, w := Eval(l, env), Eval(r, env);
      && (Eval(Rel(LT, l, r), env) == True <==>
            if v.Real? then v.number < w.number else DictionaryBefore(v.text, w.text))
      && (Eval(Rel(LE, l, r), env) == True <==> Eval(Rel(LT, l, r), env) == True || v == w)
      && (Eval(Rel(LE, l, r), env) == True <==> Eval(Rel(LT, r, l), env) == False)
    ensures Eval(Rel(GT, l, r), env) == Eval(Rel(LT, r, l), env)
    ensures Eval(Rel(GE, l, r), env) == Eval(Rel(LE, r, l), env)
    ensures forall op :: Eval(Rel(op, l, r), env) in {False, True}
  {
    var v, w := Eval(l, env), Eval(r, env);
    if v.Text? {
      CompareIsDictionaryOrder(v.text, w.text);
      CompareIsAntisymmetric(v.text, w.text);
    }
    forall op ensures Eval(Rel(op, l, r), env) == EvalRel(op, v, w) && Eval(Rel(op, r, l), env) == EvalRel(op, w, v) {
      OperatorOf(And, op, l, r, env);
      OperatorOf(And, op, r, l, env);
    }
    hide Eval, Compare, DictionaryBefore;
  }

  /** Any two known values are equal or not. Values of different types have no order, and neither have the constants
      true and false. */
  lemma ComparingOthers(l: Expr, r: Expr, env: Env)
    ensures var v, w := Eval(l, env), Eval(r, env);
      && (Eval(Rel(EQ, l, r), env) == Unknown <==> v == Unknown || w == Unknown)
      && (Eval(Rel(EQ, l, r), env) == True <==> v == w != Unknown)
      && Eval(Rel(NE, l, r), env) == Eval(Not(Rel(EQ, l, r)), env)
      && (forall op :: op != EQ && op != NE ==>
            (Eval(Rel(op, l, r), env) == Unknown <==>
              v == Unknown || w == Unknown || v.Real? != w.Real? || v.Text? != w.Text? || v.True? != w.True?))
      && (v == w && v in {False, True} ==>
            forall op :: op != EQ && op != NE ==> Eval(Rel(op, l, r), env) == False)
  {
    var v, w := Eval(l, env), Eval(r, env);
    forall op ensures Eval(Rel(op, l, r), env) == EvalRel(op, v, w) {
      OperatorOf(And, op, l, r, env);
    }
    assert Eval(Not(Rel(EQ, l, r)), env) == EvalNot(EvalRel(EQ, v, w));
    hide Eval, Compare;
  }

  // -------------------------------------------------------------------------------------------
  // Information order
  // -------------------------------------------------------------------------------------------

  /** `v` carries no information that `w` contradicts. */
  predicate Below(v: Value, w: Value) {
    v == Unknown || v == w
  }

  ghost predicate EnvBelow(env: Env, env': Env) {
    forall name: string :: Below(env(name), env'(name))
  }

  /** Learning more about the terms never changes a result that is already known. */
  lemma {:induction false} MoreInformationKeepsKnownResults(e: Expr, env: Env, env': Env)
    requires EnvBelow(env, env')
    ensures Below(Eval(e, env), Eval(e, env'))
  {
    match e
    case Term(_) =>
    case Constant(_) =>
    case Not(a) =>
      MoreInformationKeepsKnownResults(a, env, env');
    case Bool(_, l, r) =>
      MoreInformationKeepsKnownResults(l, env, env');
      MoreInformationKeepsKnownResults(r, env, env');
    case Rel(_, l, r) =>
      MoreInformationKeepsKnownResults(l, env, env');
      MoreInformationKeepsKnownResults(r, env, env');
  }

  /** The expression with every lazy operator replaced by its eager counterpart. */
  function Eager(e: Expr): Expr {
    match e
    case Term(_) => e
    case Constant(_) => e
    case Not(a) => Not(Eager(a))
    case Bool(op, l, r) =>
      Bool(if op == LazyAnd then And else if op == LazyOr then Or else op, Eager(l), Eager(r))
    case Rel(op, l, r) => Rel(op, Eager(l), Eager(r))
  }

  predicate HasLazy(e: Expr) {
    match e
    case Term(_) => false
    case Constant(_) => false
    case Not(a) => HasLazy(a)
    case Bool(op, l, r) => op == LazyAnd || op == LazyOr || HasLazy(l) || HasLazy(r)
    case Rel(_, l, r) => HasLazy(l) || HasLazy(r)
  }

  /** No lazy operator is left, and an expression without one stays as it is. */
  lemma {:induction false} EagerIsEager(e: Expr)
    ensures !HasLazy(Eager(e)) && (!HasLazy(e) ==> Eager(e) == e) && Terms(Eager(e)) == Terms(e)
  {
    match e
    case Term(_) =>
    case Constant(_) =>
    case Not(a) =>
      EagerIsEager(a);
    case Bool(_, l, r) =>
      EagerIsEager(l);
      EagerIsEager(r);
    case Rel(_, l, r) =>
      EagerIsEager(l);
      EagerIsEager(r);
  }

  lemma {:induction false} BelowThroughOperators(op: BoolOp, l: Value, l': Value, r: Value, r': Value)
    requires Below(l, l') && Below(r, r')
    ensures Below(EvalBool(op, l, r), EvalBool(op, l', r'))
    ensures Below(EvalLazyAnd(l, r), EvalAnd(l, r)) && EvalLazyOr(l, r) == EvalOr(l, r)
    ensures EvalLazyAnd(l, r) == EvalAnd(l, r) <==> !(l == Unknown && r == False)
  {
  }

  /** Being lazy can lose a result but never produces a different one. */
  lemma {:induction false} LazyIsBelowEager(e: Expr, env: Env)
    ensures Below(Eval(e, env), Eval(Eager(e), env))
  {
    match e
    case Term(_) =>
    case Constant(_) =>
    case Not(a) =>
      LazyIsBelowEager(a, env);
    case Bool(op, l, r) =>
      LazyIsBelowEager(l, env);
      LazyIsBelowEager(r, env);
      BelowThroughOperators(op, Eval(l, env), Eval(Eager(l), env), Eval(r, env), Eval(Eager(r), env));
    case Rel(_, l, r) =>
      LazyIsBelowEager(l, env);
      LazyIsBelowEager(r, env);
  }

  // -------------------------------------------------------------------------------------------
  // Solving
  // -------------------------------------------------------------------------------------------

  /** The environment in which every unknown term has been asked for. */
  function Informed(env: Env, source: Env): Env {
    name => if env(name) != Unknown then env(name) else source(name)
  }

  function Terms(e: Expr): set<string> {
    match e
    case Term(name) => {name}
    case Constant(_) => {}
    case Not(a) => Terms(a)
    case Bool(_, l, r) => Terms(l) + Terms(r)
    case Rel(_, l, r) => Terms(l) + Terms(r)
  }

  /** `env` differs from `env0` only in terms of `names` that were unknown and now hold what the source said. */
  ghost predicate Learned(env0: Env, env: Env, names: set<string>, source: Env) {
    forall name: string :: env(name) != env0(name) ==>
      name in names && env0(name) == Unknown && env(name) == source(name)
  }

  /** What is learned on the way does not change what full information would say. */
  lemma LearningIsOnTheWay(e: Expr, env0: Env, env: Env, names: set<string>, source: Env)
    requires Learned(env0, env, names, source)
    ensures Eval(e, Informed(env, source)) == Eval(e, Informed(env0, source))
    ensures Below(Eval(e, env0), Eval(e, env)) && Below(Eval(e, env), Eval(e, Informed(env0, source)))
  {
    var full0, full := Informed(env0, source), Informed(env, source);
    assert EnvBelow(full0, full) && EnvBelow(full, full0);
    MoreInformationKeepsKnownResults(e, full0, full);
    MoreInformationKeepsKnownResults(e, full, full0);
    MoreInformationKeepsKnownResults(e, env0, env);
    MoreInformationKeepsKnownResults(e, env, full0);
  }

  class Solver {
    var env: Env
    /** What a term resolves to when it is asked for; Unknown when nobody can tell. */
    const source: Env

    constructor (env: Env, source: Env)
      ensures this.env == env && this.source == source
    {
      this.env := env;
      this.source := source;
    }

    /** Solve for a value. Terms are asked for only while the result is unknown, yet the outcome is
        the value that asking for every unknown term would give. */
    method Solve(e: Expr) returns (v: Value)
      modifies this
      ensures v == Eval(e, env) == Eval(e, Informed(old(env), source))
      ensures Learned(old(env), env, Terms(e), source)
      ensures old(Eval(e, env)) != Unknown ==> env == old(env)
      decreases e, 1
    {
      v := Eval(e, env);
      LearningIsOnTheWay(e, env, env, {}, source);
      if v != Unknown {
        return;
      }
      match e {
        case Term(name) =>
          var answer := source(name);
          var known := env;
          env := x => if x == name then answer else known(x);
        case Constant(_) =>
        case Not(a) =>
          var _ := Solve(a);
        case Bool(op, l, r) =>
          var _ := SolveInfix1(op, l, r);
        case Rel(op, l, r) =>
          var _ := SolveInfix2(op, l, r);
      }
      v := Eval(e, env);
    }

    /** An operator for which one operand may settle the result. The left operand is solved first, which leads to `mid`;
        the right one only when the result is still unknown. */
    method SolveInfix1(op: BoolOp, l: Expr, r: Expr) returns (ghost mid: Env)
      modifies this
      ensures Learned(old(env), mid, Terms(l), source) && Eval(l, mid) == Eval(l, Informed(old(env), source))
      ensures Learned(mid, env, Terms(r), source)
      ensures old(Eval(l, env)) != Unknown ==> mid == old(env)
      ensures old(Eval(l, env)) == Unknown && Eval(Bool(op, l, r), mid) != Unknown ==> env == mid
      ensures Eval(Bool(op, l, r), env) == Eval(Bool(op, l, r), Informed(old(env), source))
      ensures Learned(old(env), env, Terms(l) + Terms(r), source)
      decreases Bool(op, l, r), 0
    {
      hide Eval, Learned, Informed, Terms;
      ghost var env0 := env;
      Nothing(env, Terms(l), source);
      LearningIsOnTheWay(l, env, env, Terms(l), source);
      if Eval(l, env) == Unknown {
        var _ := Solve(l);
        LearningIsOnTheWay(Bool(op, l, r), env0, env, Terms(l), source);
        More(env0, env, Terms(l), Terms(r), source);
        if Eval(Bool(op, l, r), env) != Unknown {
          mid := env;
          Nothing(env, Terms(r), source);
          return;
        }
      }
      ghost var env1 := env;
      mid := env;
      LearningIsOnTheWay(r, env0, env1, Terms(l), source);
      Nothing(env, Terms(r), source);
      LearningIsOnTheWay(r, env, env, Terms(r), source);
      if Eval(r, env) == Unknown {
        var _ := Solve(r);
      }
      BothSolved(l, r, env0, env1, env, source);
      OperatorOf(op, EQ, l, r, env);
      OperatorOf(op, EQ, l, r, Informed(env0, source));
    }

    /** An operator that needs both operands known: the right one is solved only when the left one is known. */
    method SolveInfix2(op: RelOp, l: Expr, r: Expr) returns (ghost mid: Env)
      modifies this
      ensures Learned(old(env), mid, Terms(l), source) && Eval(l, mid) == Eval(l, Informed(old(env), source))
      ensures Learned(mid, env, Terms(r), source)
      ensures old(Eval(l, env)) != Unknown ==> mid == old(env)
      ensures Eval(l, mid) == Unknown ==> env == mid
      ensures Eval(Rel(op, l, r), env) == Eval(Rel(op, l, r), Informed(old(env), source))
      ensures Learned(old(env), env, Terms(l) + Terms(r), source)
      decreases Rel(op, l, r), 0
    {
      hide Eval, Learned, Informed, Terms;
      ghost var env0 := env;
      Nothing(env, Terms(l), source);
      LearningIsOnTheWay(l, env, env, Terms(l), source);
      if Eval(l, env) == Unknown {
        var v := Solve(l);
        if v == Unknown {
          mid := env;
          Nothing(env, Terms(r), source);
          More(env0, env, Terms(l), Terms(r), source);
          OperatorOf(And, op, l, r, env);
          OperatorOf(And, op, l, r, Informed(env0, source));
          return;
        }
      }
      ghost var env1 := env;
      mid := env;
      LearningIsOnTheWay(r, env0, env1, Terms(l), source);
      Nothing(env, Terms(r), source);
      LearningIsOnTheWay(r, env, env, Terms(r), source);
      if Eval(r, env) == Unknown {
        var _ := Solve(r);
      }
      BothSolved(l, r, env0, env1, env, source);
      OperatorOf(And, op, l, r, env);
      OperatorOf(And, op, l, r, Informed(env0, source));
    }
  }

  lemma OperatorOf(b: BoolOp, op: RelOp, l: Expr, r: Expr, env: Env)
    ensures Eval(Bool(b, l, r), env) == EvalBool(b, Eval(l, env), Eval(r, env))
    ensures Eval(Rel(op, l, r), env) == EvalRel(op, Eval(l, env), Eval(r, env))
    ensures Eval(l, env) == Unknown ==> Eval(Rel(op, l, r), env) == Unknown
  {
  }

  lemma Nothing(env: Env, names: set<string>, source: Env)
    ensures Learned(env, env, names, source)
  {
  }

  lemma More(env0: Env, env: Env, names: set<string>, others: set<string>, source: Env)
    requires Learned(env0, env, names, source)
    ensures Learned(env0, env, names + others, source)
  {
  }

  /** What solving the second operand teaches does not change the first one any more. */
  lemma BothSolved(l: Expr, r: Expr, env0: Env, env1: Env, env2: Env, source: Env)
    requires Learned(env0, env1, Terms(l), source) && Learned(env1, env2, Terms(r), source)
    requires Eval(l, env1) == Eval(l, Informed(env0, source)) && Eval(r, env2) == Eval(r, Informed(env1, source))
    ensures Learned(env0, env2, Terms(l) + Terms(r), source)
    ensures Eval(l, env2) == Eval(l, Informed(env0, source)) && Eval(r, env2) == Eval(r, Informed(env0, source))
  {
    LearnedTwice(env0, env1, env2, Terms(l), Terms(r), source);
    hide Eval, Learned, Informed, Terms;
    LearningIsOnTheWay(r, env0, env1, Terms(l), source);
    LearningIsOnTheWay(l, env0, env1, Terms(l), source);
    LearningIsOnTheWay(l, env1, env2, Terms(r), source);
  }

  lemma LearnedTwice(env0: Env, env1: Env, env2: Env, a: set<string>, b: set<string>, source: Env)
    requires Learned(env0, env1, a, source) && Learned(env1, env2, b, source)
    ensures Learned(env0, env2, a + b, source)
  {
  }
}
