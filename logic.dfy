/**
 * The expression nodes of the logical evaluator (tools/logical_evaluator/logic.py) and their
 * `eval` methods.
 *
 * Every object that can sit in the token list of the parser is a `Token`: a character the lexer
 * left as a string, a variable occurrence (`ConstExpr`, a heap object whose `value` the truth
 * table rebinds), the constants `true()` and `false()`, Python's `None`, and the node objects.
 * Node objects never change after construction, so they are values here; only `ConstExpr.value`
 * is mutable state.
 */
module Logic {
  import opened Types

  /** A variable occurrence: one object per letter of the input. */
  class ConstExpr {
    const symbol: char
    var value: bool

    constructor (symbol: char, value: bool)
      ensures this.symbol == symbol && this.value == value
    {
      this.symbol := symbol;
      this.value := value;
    }
  }

  datatype BinOp = AndOp | OrOp | XorOp | ImplOp | EquivOp

  datatype Token =
    | Raw(c: char)                              // a character kept as a Python string
    | Var(v: ConstExpr)                         // ConstExpr
    | TrueConst                                 // true()
    | FalseConst                                // false()
    | NoneVal                                   // None
    | NotNode(e: Token)                         // Not
    | BinNode(op: BinOp, l: Token, r: Token)    // And, Or, Xor, Implication, Equivalence
    | Tree(e: Token)                            // AbstractSyntaxTree

  /** The variable objects reachable from a token. */
  function Vars(t: Token): set<ConstExpr>
  {
    match t
    case Var(v) => {v}
    case NotNode(e) => Vars(e)
    case BinNode(_, l, r) => Vars(l) + Vars(r)
    case Tree(e) => Vars(e)
    case _ => {}
  }

  // Python's `not`, `and` and `or` on the result of an `eval` call; `None` stands for the
  // AttributeError raised when `eval` is called on a string or on None. The right operand of
  // `and`/`or` only matters when the left one does not decide the result, which is Python's
  // short-circuit evaluation (evaluation has no side effects, so evaluating it eagerly here
  // changes nothing else).

  function PyNot(a: Option<bool>): Option<bool>
  {
    if a.None? then None else Some(!a.value)
  }

  function PyAnd(a: Option<bool>, b: Option<bool>): Option<bool>
  {
    if a.None? then None else if !a.value then a else b
  }

  function PyOr(a: Option<bool>, b: Option<bool>): Option<bool>
  {
    if a.None? then None else if a.value then a else b
  }

  /** The `eval` method of every token, with each node's formula as written in logic.py. */
  function Eval(t: Token): (r: Option<bool>)
    reads Vars(t)
    ensures t.Var? ==> r == Some(t.v.value)
    ensures t.TrueConst? ==> r == Some(true)
    ensures t.FalseConst? ==> r == Some(false)
    ensures t.Raw? || t.NoneVal? ==> r == None
    ensures t.NotNode? ==> (r.Some? <==> Eval(t.e).Some?) && (r.Some? ==> r.value == !Eval(t.e).value)
    ensures t.BinNode? && Eval(t.l).None? ==> r == None
    ensures t.BinNode? && Eval(t.l).Some? && Eval(t.r).Some? ==>
      var a, b := Eval(t.l).value, Eval(t.r).value;
      r == Some(match t.op
        case AndOp => a && b
        case OrOp => a || b
        case XorOp => a != b
        case ImplOp => !a || b
        case EquivOp => a == b)
    ensures t.BinNode? && t.op == AndOp && Eval(t.l) == Some(false) ==> r == Some(false)
    ensures t.BinNode? && t.op == OrOp && Eval(t.l) == Some(true) ==> r == Some(true)
    ensures t.BinNode? && t.op == ImplOp && Eval(t.l) == Some(false) ==> r == Some(true)
    ensures t.Tree? ==> r == Eval(t.e)
  {
    match t
    case Raw(_) => None
    case Var(v) => Some(v.value)
    case TrueConst => Some(true)
    case FalseConst => Some(false)
    case NoneVal => None
    case NotNode(e) => PyNot(Eval(e))
    case BinNode(op, l, r) =>
      var a, b := Eval(l), Eval(r);
      (match op
       case AndOp => PyAnd(a, b)
       case OrOp => PyOr(a, b)
       case XorOp => PyOr(PyAnd(PyNot(a), b), PyAnd(PyNot(b), a))
       case ImplOp => PyOr(PyNot(a), b)
       case EquivOp => PyOr(PyAnd(PyNot(a), PyNot(b)), PyAnd(a, b)))
    case Tree(e) => Eval(e)
  }

  /** What `eval` returns once every variable object holds the value `env` gives its letter:
      the same formulas as `Eval`, with the letters read from `env` instead of the heap. */
  function EvalIn(t: Token, env: char -> bool): Option<bool>
  {
    match t
    case Raw(_) => None
    case Var(v) => Some(env(v.symbol))
    case TrueConst => Some(true)
    case FalseConst => Some(false)
    case NoneVal => None
    case NotNode(e) => PyNot(EvalIn(e, env))
    case BinNode(op, l, r) =>
      var a, b := EvalIn(l, env), EvalIn(r, env);
      (match op
       case AndOp => PyAnd(a, b)
       case OrOp => PyOr(a, b)
       case XorOp => PyOr(PyAnd(PyNot(a), b), PyAnd(PyNot(b), a))
       case ImplOp => PyOr(PyNot(a), b)
       case EquivOp => PyOr(PyAnd(PyNot(a), PyNot(b)), PyAnd(a, b)))
    case Tree(e) => EvalIn(e, env)
  }

  /** A token built only from variables, constants and nodes: no stray string and no None. */
  predicate Closed(t: Token)
  {
    match t
    case Raw(_) => false
    case NoneVal => false
    case Var(_) => true
    case TrueConst => true
    case FalseConst => true
    case NotNode(e) => Closed(e)
    case BinNode(_, l, r) => Closed(l) && Closed(r)
    case Tree(e) => Closed(e)
  }

  /** The textbook meaning of a closed expression under an assignment of truth values to letters. */
  function Meaning(t: Token, env: char -> bool): bool
    requires Closed(t)
  {
    match t
    case Var(v) => env(v.symbol)
    case TrueConst => true
    case FalseConst => false
    case NotNode(e) => !Meaning(e, env)
    case BinNode(op, l, r) =>
      var a, b := Meaning(l, env), Meaning(r, env);
      (match op
       case AndOp => a && b
       case OrOp => a || b
       case XorOp => a != b
       case ImplOp => !a || b
       case EquivOp => a == b)
    case Tree(e) => Meaning(e, env)
  }

  /** Every variable object of `t` is bound to the truth value `env` gives its letter. */
  predicate BoundTo(t: Token, env: char -> bool)
    reads Vars(t)
  {
    forall v :: v in Vars(t) ==> v.value == env(v.symbol)
  }

  /** `eval` of a closed expression never fails and computes its textbook meaning, once every
      variable object holds the value of its letter. */
  lemma {:induction false} EvalMeaning(t: Token, env: char -> bool)
    requires Closed(t) && BoundTo(t, env)
    ensures Eval(t) == Some(Meaning(t, env))
  {
    match t
    case Var(_) =>
    case TrueConst =>
    case FalseConst =>
    case NotNode(e) => EvalMeaning(e, env);
    case BinNode(_, l, r) => EvalMeaning(l, env); EvalMeaning(r, env);
    case Tree(e) => EvalMeaning(e, env);
  }

  /** `eval` reads the letters' values off the variable objects: with every object bound to
      `env`, it returns what `EvalIn` computes from `env`. */
  lemma {:induction false} EvalBound(t: Token, env: char -> bool)
    requires BoundTo(t, env)
    ensures Eval(t) == EvalIn(t, env)
  {
    match t
    case NotNode(e) => EvalBound(e, env);
    case BinNode(_, l, r) => EvalBound(l, env); EvalBound(r, env);
    case Tree(e) => EvalBound(e, env);
    case _ =>
  }

  /** On a closed expression `EvalIn` never fails and agrees with the textbook meaning. */
  lemma {:induction false} EvalInMeaning(t: Token, env: char -> bool)
    requires Closed(t)
    ensures EvalIn(t, env) == Some(Meaning(t, env))
  {
    match t
    case NotNode(e) => EvalInMeaning(e, env);
    case BinNode(_, l, r) => EvalInMeaning(l, env); EvalInMeaning(r, env);
    case Tree(e) => EvalInMeaning(e, env);
    case _ =>
  }
}
