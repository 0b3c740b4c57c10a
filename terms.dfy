/**
 * The term algebra of the rewrite minimiser (tools/logical_evaluator/sast3.py): literals (`CE`),
 * products (`AndExpr`), sums (`OrExpr`) and the constants `true_obj()` and `false_obj()`, with
 * their `*` (logical and) and `+` (logical or) operators, `copy`, `==` and `to_str`.
 *
 * Terms are values. Two operators change an operand in place: `CE + AndExpr` deletes `!A` from
 * the product it is given, and `OrExpr.combine` rewrites the sum's own list. In the minimiser
 * both only ever act on a copy or on a freshly built object that ends up inside the returned
 * sum, so the changed operand is part of the returned value here.
 */
module Terms {
  import opened Types
  import PyStr

  /** `CE(symbol, is_not)`: a letter, negated when `negated` holds. */
  datatype CE = CE(symbol: char, negated: bool)

  /** The objects the operators take and return. */
  datatype Term =
    | Lit(c: CE)              // CE
    | And(ps: seq<CE>)        // AndExpr
    | Or(ts: seq<Term>)       // OrExpr
    | One                     // an instance of true_obj
    | Zero                    // an instance of false_obj
    | OneClass                // the class true_obj itself (see PlusLit)
    | Nothing                 // None, returned by the fallback of CE.__mul__

  /** `negotate()`: the same letter with the other polarity. */
  function Negate(c: CE): (r: CE)
    ensures r.symbol == c.symbol && r.negated == !c.negated
  {
    CE(c.symbol, !c.negated)
  }

  /** `is_negotated_of_this(other)` */
  predicate IsNegationOf(c: CE, d: CE)
  {
    c.symbol == d.symbol && c.negated == !d.negated
  }

  /** Negation is an involution, never fixes a literal, and `is_negotated_of_this` holds exactly
      between a literal and its negation. */
  lemma NegationFacts(c: CE, d: CE)
    ensures Negate(Negate(c)) == c && Negate(c) != c
    ensures IsNegationOf(c, d) <==> d == Negate(c)
    ensures IsNegationOf(c, d) <==> IsNegationOf(d, c)
  {
  }

  // ---------------------------------------------------------------- meaning

  /** An assignment of truth values to letters. */
  type Env = char -> bool

  function LitVal(c: CE, env: Env): bool
  {
    if c.negated then !env(c.symbol) else env(c.symbol)
  }

  /** A product holds when every one of its literals does. */
  predicate ProdVal(ps: seq<CE>, env: Env)
  {
    forall c :: c in ps ==> LitVal(c, env)
  }

  /** The truth value a term stands for. The class `true_obj` is read as the constant it names;
      `None` stands for nothing and is read as false. */
  predicate Val(t: Term, env: Env)
  {
    match t
    case Lit(c) => LitVal(c, env)
    case And(ps) => ProdVal(ps, env)
    case Or(ts) => exists k :: 0 <= k < |ts| && Val(ts[k], env)
    case One => true
    case Zero => false
    case OneClass => true
    case Nothing => false
  }

  /** A list of terms read as their sum. */
  predicate SumVal(ts: seq<Term>, env: Env)
  {
    exists k :: 0 <= k < |ts| && Val(ts[k], env)
  }

  /** Two lists of terms that stand for the same function of the letters. */
  ghost predicate Equivalent(xs: seq<Term>, ys: seq<Term>)
  {
    forall env: Env :: SumVal(xs, env) == SumVal(ys, env)
  }

  /** A term the minimiser's lists hold between operations: a literal or a product. */
  predicate Flat(t: Term)
  {
    t.Lit? || t.And?
  }

  /** `size()`, defined on literals and products only. */
  function Size(t: Term): nat
    requires Flat(t)
  {
    if t.Lit? then 1 else |t.ps|
  }

  // ---------------------------------------------------------------- list helpers

  /** `[c for c in ps if c in qs]`; `AndExpr.extract_same` is `Keep(self.ls, other.ls)`. */
  function Keep(ps: seq<CE>, qs: seq<CE>): (r: seq<CE>)
    ensures forall c :: c in r <==> c in ps && c in qs
  {
    if ps == [] then [] else (if ps[0] in qs then [ps[0]] else []) + Keep(ps[1..], qs)
  }

  /** `[c for c in ps if c not in qs]` */
  function Drop(ps: seq<CE>, qs: seq<CE>): (r: seq<CE>)
    ensures forall c :: c in r <==> c in ps && c !in qs
  {
    if ps == [] then [] else (if ps[0] !in qs then [ps[0]] else []) + Drop(ps[1..], qs)
  }

  /** Every element of `ps` is kept or dropped, so the two parts add up to `ps`. */
  lemma {:induction false} KeepDropSizes(ps: seq<CE>, qs: seq<CE>)
    ensures |Keep(ps, qs)| + |Drop(ps, qs)| == |ps|
  {
    if ps != [] { KeepDropSizes(ps[1..], qs); }
  }

  /** `AndExpr.extract_different(other)`: the literals of both that are not common to both. */
  function Different(ps: seq<CE>, qs: seq<CE>): (r: seq<CE>)
    ensures forall c :: c in r <==> (c in ps || c in qs) && !(c in ps && c in qs)
  {
    Drop(ps + qs, Keep(ps, qs))
  }

  /** `AndExpr.delete_item(c)`: remove the first literal equal to `c`, if any. */
  function DeleteFirst(ps: seq<CE>, c: CE): (r: seq<CE>)
    ensures c in ps ==> |r| == |ps| - 1 && multiset(r) == multiset(ps) - multiset{c}
    ensures c !in ps ==> r == ps
  {
    if ps == [] then []
    else if ps[0] == c then
      assert ps == [ps[0]] + ps[1..];
      ps[1..]
    else
      assert ps == [ps[0]] + ps[1..];
      [ps[0]] + DeleteFirst(ps[1..], c)
  }

  // ---------------------------------------------------------------- copy, ==, cast

  /** `t.copy()`; calling it on the class `true_obj` lacks `self`, and None has no `copy`. */
  function Copy(t: Term): Result<Term>
  {
    match t
    case OneClass => Raise("TypeError")
    case Nothing => Raise("AttributeError")
    case _ => Ok(t)
  }

  /** `x == y` with `x` a literal or a product: `CE.__eq__` reads `symbol` and `negotation` of
      the other side, `AndExpr.__eq__` asks for equal lengths and every literal of `x` to occur
      in `y`. Other objects compare by identity, and the minimiser only compares fresh ones. */
  function Eq(x: Term, y: Term): Result<bool>
  {
    match x
    case Lit(c) => if y.Lit? then Ok(c == y.c) else Raise("AttributeError")
    case And(ps) => Ok(y.And? && |ps| == |y.ps| && forall c :: c in ps ==> c in y.ps)
    case _ => Ok(false)
  }

  /** `is_castable()` followed by `cast()`: a one-literal product becomes that literal. */
  function CastIf(t: Term): (r: Term)
    ensures forall env :: Val(r, env) == Val(t, env)
    ensures Flat(t) ==> Flat(r) && Size(r) == Size(t)
  {
    if t.And? && |t.ps| == 1 then
      assert forall c :: c in t.ps <==> c == t.ps[0];
      Lit(t.ps[0])
    else t
  }

  // ---------------------------------------------------------------- to_str

  /** `CE.to_str()` */
  function LitStr(c: CE): (s: string)
    ensures 1 <= |s| <= 2 && s[|s| - 1] == c.symbol
    ensures c.symbol != '!' ==> ParseLit(s) == Ok(c)
  {
    if c.negated then ['!', c.symbol] else [c.symbol]
  }

  /** What `generateAnd` makes of one `'*'`-separated piece: a leading `'!'` negates the letter
      after it, otherwise the first character is the letter; further characters are ignored. */
  function ParseLit(s: string): Result<CE>
  {
    if |s| == 0 then Raise("IndexError")
    else if s[0] == '!' then (if |s| < 2 then Raise("IndexError") else Ok(CE(s[1], true)))
    else Ok(CE(s[0], false))
  }

  function LitStrs(ps: seq<CE>): (r: seq<string>)
    ensures |r| == |ps| && forall k :: 0 <= k < |ps| ==> r[k] == LitStr(ps[k])
  {
    if ps == [] then [] else [LitStr(ps[0])] + LitStrs(ps[1..])
  }

  /** The loop of `AndExpr.to_str`: every literal followed by `'*'`. */
  function Starred(ps: seq<CE>): string
  {
    if ps == [] then "" else LitStr(ps[0]) + "*" + Starred(ps[1..])
  }

  /** `AndExpr.to_str()`: strip the `'*'`s at both ends, split at `'*'`, sort, join with `'*'`. */
  function AndStr(ps: seq<CE>): string
  {
    PyStr.Join(PyStr.SortStrs(PyStr.SplitOn(PyStr.Strip(Starred(ps), {'*'}), '*')), "*")
  }

  /** `to_str()` of any term; `OrExpr.to_str` joins its terms' renderings with `'+'` in the
      same strip-the-ends way. */
  function Render(t: Term): Result<string>
    decreases t, 1
  {
    match t
    case Lit(c) => Ok(LitStr(c))
    case And(ps) => Ok(AndStr(ps))
    case Or(ts) =>
      var s := Plussed(t, 0);
      if s.Raise? then s else Ok(PyStr.Strip(s.value, {'+'}))
    case One => Ok("1")
    case Zero => Ok("0")
    case OneClass => Raise("TypeError")
    case Nothing => Raise("AttributeError")
  }

  /** The loop of `OrExpr.to_str` from the `k`-th term on: each rendering followed by `'+'`. */
  function Plussed(t: Term, k: nat): Result<string>
    requires t.Or? && k <= |t.ts|
    decreases t, 0, |t.ts| - k
  {
    if k == |t.ts| then Ok("")
    else
      var a := Render(t.ts[k]);
      if a.Raise? then a
      else
        var b := Plussed(t, k + 1);
        if b.Raise? then b else Ok(a.value + "+" + b.value)
  }

  // ---------------------------------------------------------------- the operators

  /** `CE.__mul__`: A·A = A, A·!A = 0, A·B; a product already holding A absorbs it, one holding
      !A gives 0, otherwise A joins it at the end. Other operands print a message and give None. */
  function MulLit(a: CE, y: Term): Result<Term>
  {
    match y
    case Lit(b) => if a == b then Ok(Lit(a)) else if IsNegationOf(a, b) then Ok(Zero) else Ok(And([a, b]))
    case And(qs) => if a in qs then Ok(y) else if Negate(a) in qs then Ok(Zero) else Ok(And(qs + [a]))
    case Zero => Ok(Zero)
    case One => Ok(Lit(a))
    case _ => Ok(Nothing)
  }

  /** The `*` operator (`__mul__` of the left operand). */
  function Mul(x: Term, y: Term): Result<Term>
  {
    match x
    case One => if Flat(y) || y.One? || y.Zero? then Ok(y) else Raise("ValueError")
    case Zero => if Flat(y) || y.One? || y.Zero? then Ok(Zero) else Raise("ValueError")
    case Lit(a) => MulLit(a, y)
    case And(ps) =>
      (match y
       case Lit(b) => MulLit(b, x)
       case One => Ok(x)
       case Zero => Ok(Zero)
       case And(qs) => Ok(And(ps + qs))
       case _ => Raise("ValueError"))
    case _ => Raise("TypeError")
  }

  /** `CE.__add__`: A+A = A, A+!A = 1, A+0 = A; A + A·B = A; A + !A·B deletes !A from the product
      and gives A + B; otherwise the two-term sum. A + 1 gives the class `true_obj`, not an
      instance of it. */
  function PlusLit(a: CE, y: Term): (r: Result<Term>)
    ensures r.Ok? ==> !r.value.Nothing?
    ensures r.Ok? && r.value.Or? ==> |r.value.ts| == 2 && Flat(r.value.ts[0]) && Flat(r.value.ts[1])
  {
    match y
    case Lit(b) => if a == b then Ok(Lit(a)) else if IsNegationOf(a, b) then Ok(One) else Ok(Or([Lit(a), y]))
    case One => Ok(OneClass)
    case Zero => Ok(Lit(a))
    case And(qs) =>
      if a in qs then Ok(Lit(a))
      else if Negate(a) in qs then Ok(Or([Lit(a), And(DeleteFirst(qs, Negate(a)))]))
      else Ok(Or([Lit(a), y]))
    case _ => Raise("ValueError")
  }

  /** `OrExpr.combine(AE)`: multiply every term of the sum by the product `e`. */
  function Combine(ts: seq<Term>, e: seq<CE>): (r: seq<Term>)
    ensures |r| == |ts|
    ensures forall k :: 0 <= k < |ts| && ts[k].Lit? ==> r[k] == And([ts[k].c] + e)
    ensures forall k :: 0 <= k < |ts| && ts[k].And? ==> r[k] == And(ts[k].ps + e)
    ensures forall k :: 0 <= k < |ts| && !Flat(ts[k]) ==> r[k] == ts[k]
  {
    if ts == [] then []
    else
      var h := match ts[0]
        case Lit(c) => And([c] + e)
        case And(l) => And(l + e)
        case _ => ts[0];
      var rest := Combine(ts[1..], e);
      assert forall k :: 1 <= k <= |rest| ==> ([h] + rest)[k] == rest[k - 1] && ts[k] == ts[1..][k - 1];
      [h] + rest
  }

  /** The last step of `AndExpr + AndExpr`: a sum of the leftovers is multiplied term by term by
      the common part, anything else is multiplied by it once. */
  function Refactor(e: seq<CE>, r: Result<Term>): Result<Term>
  {
    if r.Raise? then r
    else if r.value.Or? then Ok(Or(Combine(r.value.ts, e)))
    else Mul(And(e), r.value)
  }

  /** `AndExpr + AndExpr`: factor out the common literals `e`; with nothing in common the plain
      sum, with one side used up the common part, and when one leftover is a single literal the
      `CE + ...` rules applied to the leftovers, re-multiplied by `e`. */
  function PlusProducts(ps: seq<CE>, qs: seq<CE>): (r: Result<Term>)
    ensures r.Ok? ==> !r.value.Nothing?
    ensures r.Ok? && r.value.Or? ==> |r.value.ts| == 2 && Flat(r.value.ts[0]) && Flat(r.value.ts[1])
  {
    var e := Keep(ps, qs);
    if |e| == 0 then Ok(Or([And(ps), And(qs)]))
    else
      var l1, l2 := Drop(ps, e), Drop(qs, e);
      if |l1| == 0 || |l2| == 0 then Ok(And(e))
      else
        var o1 := if |l1| == 1 then Lit(l1[0]) else And(l1);
        var o2 := if |l2| == 1 then Lit(l2[0]) else And(l2);
        if o1.Lit? then Refactor(e, PlusLit(o1.c, o2))
        else if o2.Lit? then Refactor(e, PlusLit(o2.c, o1))
        else Ok(Or([And(ps), And(qs)]))
  }

  /** The `+` operator (`__add__` of the left operand). `AndExpr + CE` computes `CE + AndExpr`
      and reverses the sum it expects back; when that is a bare literal there is no list to
      reverse. The constants have no `__add__`. */
  function Plus(x: Term, y: Term): (r: Result<Term>)
    ensures r.Ok? ==> !r.value.Nothing?
    ensures r.Ok? && r.value.Or? ==> |r.value.ts| == 2 && Flat(r.value.ts[0]) && Flat(r.value.ts[1])
  {
    match x
    case Lit(a) => PlusLit(a, y)
    case And(ps) =>
      (match y
       case Lit(b) =>
         var s := PlusLit(b, x);
         if s.Raise? then s
         else if s.value.Or? then Ok(Or([s.value.ts[1], s.value.ts[0]]))
         else Raise("AttributeError")
       case Zero => Ok(x)
       case One => Ok(One)
       case And(qs) => PlusProducts(ps, qs)
       case _ => Raise("ValueError"))
    case _ => Raise("TypeError")
  }

  // ---------------------------------------------------------------- the operators are sound

  /** Every product `*` returns (other than the None of the fallback) means the conjunction of
      its operands. */
  lemma MulSound(x: Term, y: Term, env: Env)
    requires Mul(x, y).Ok? && !Mul(x, y).value.Nothing?
    ensures Val(Mul(x, y).value, env) == (Val(x, env) && Val(y, env))
  {
    match x
    case Lit(a) => MulLitSound(a, y, env);
    case And(ps) =>
      if y.Lit? { MulLitSound(y.c, x, env); }
      else if y.And? {
        assert forall c :: c in ps + y.ps <==> c in ps || c in y.ps;
      }
    case _ =>
  }

  lemma MulLitSound(a: CE, y: Term, env: Env)
    requires MulLit(a, y).Ok? && !MulLit(a, y).value.Nothing?
    ensures Val(MulLit(a, y).value, env) == (LitVal(a, env) && Val(y, env))
  {
    match y
    case Lit(b) =>
      if a != b && !IsNegationOf(a, b) {
        assert forall c :: c in [a, b] <==> c == a || c == b;
      }
    case And(qs) =>
      if a !in qs && Negate(a) in qs {
        assert !ProdVal(qs, env) || !LitVal(a, env) by {
          if ProdVal(qs, env) { assert LitVal(Negate(a), env); }
        }
      } else if a !in qs {
        assert forall c :: c in qs + [a] <==> c in qs || c == a;
      }
    case _ =>
  }

  /** Every sum `+` returns means the disjunction of its operands: X+X = X, X+!X = 1,
      A + A·B = A, A + !A·B = A + B and A·B + A·!B = A are identities. */
  lemma PlusSound(x: Term, y: Term, env: Env)
    requires Plus(x, y).Ok?
    ensures Val(Plus(x, y).value, env) == (Val(x, env) || Val(y, env))
  {
    match x
    case Lit(a) => PlusLitSound(a, y, env);
    case And(ps) =>
      if y.Lit? {
        PlusLitSound(y.c, x, env);
        var s := PlusLit(y.c, x).value;
        PairVal(s.ts[1], s.ts[0], env);
        PairVal(s.ts[0], s.ts[1], env);
        assert s == Or([s.ts[0], s.ts[1]]);
      } else if y.And? {
        PlusProductsSound(ps, y.ps, env);
      }
    case _ =>
  }

  lemma PlusLitSound(a: CE, y: Term, env: Env)
    requires PlusLit(a, y).Ok?
    ensures Val(PlusLit(a, y).value, env) == (LitVal(a, env) || Val(y, env))
  {
    match y
    case Lit(b) =>
      if a != b && !IsNegationOf(a, b) {
        PairVal(Lit(a), y, env);
      }
    case And(qs) =>
      if a in qs {
      } else if Negate(a) in qs {
        var rest := DeleteFirst(qs, Negate(a));
        var r := Or([Lit(a), And(rest)]);
        DeleteFirstMembers(qs, Negate(a));
        PairVal(Lit(a), And(rest), env);
        if !LitVal(a, env) {
          assert LitVal(Negate(a), env);
          assert ProdVal(rest, env) == ProdVal(qs, env);
        }
      } else {
        PairVal(Lit(a), y, env);
      }
    case _ =>
  }

  /** A two-term sum holds when either term does. */
  lemma PairVal(x: Term, y: Term, env: Env)
    ensures Val(Or([x, y]), env) == (Val(x, env) || Val(y, env))
  {
    var ts := [x, y];
    assert ts[0] == x && ts[1] == y;
    if Val(Or(ts), env) {
      var k :| 0 <= k < 2 && Val(ts[k], env);
    }
  }

  /** Deleting one occurrence leaves every other literal in place. */
  lemma DeleteFirstMembers(ps: seq<CE>, c: CE)
    ensures forall d :: d in DeleteFirst(ps, c) ==> d in ps
    ensures forall d :: d in ps && d != c ==> d in DeleteFirst(ps, c)
  {
    var r := DeleteFirst(ps, c);
    if c in ps {
      forall d ensures d in r <==> d in multiset(ps) - multiset{c} {
        assert d in r <==> d in multiset(r);
      }
      forall d | d in ps ensures d in multiset(ps) { }
    }
  }

  /** Splitting products at their common part: `ps` is the common part times its leftover,
      and so is `qs`. */
  lemma ProductSplit(ps: seq<CE>, qs: seq<CE>, env: Env)
    ensures var e := Keep(ps, qs);
      && ProdVal(ps, env) == (ProdVal(e, env) && ProdVal(Drop(ps, e), env))
      && ProdVal(qs, env) == (ProdVal(e, env) && ProdVal(Drop(qs, e), env))
  {
  }

  /** The single-literal-or-product view of a leftover means the product. */
  lemma LeftoverVal(l: seq<CE>, env: Env)
    requires |l| > 0
    ensures Val(if |l| == 1 then Lit(l[0]) else And(l), env) == ProdVal(l, env)
  {
    if |l| == 1 { assert forall c :: c in l <==> c == l[0]; }
  }

  lemma CombineSound(ts: seq<Term>, e: seq<CE>, env: Env)
    requires forall k :: 0 <= k < |ts| ==> Flat(ts[k])
    ensures Val(Or(Combine(ts, e)), env) == (Val(Or(ts), env) && ProdVal(e, env))
  {
    var r := Combine(ts, e);
    forall k | 0 <= k < |ts| ensures Val(r[k], env) == (Val(ts[k], env) && ProdVal(e, env)) {
      if ts[k].Lit? {
        assert forall c :: c in [ts[k].c] + e <==> c == ts[k].c || c in e;
      } else {
        assert forall c :: c in ts[k].ps + e <==> c in ts[k].ps || c in e;
      }
    }
    if Val(Or(r), env) {
      var k :| 0 <= k < |r| && Val(r[k], env);
      assert Val(ts[k], env);
    }
    if Val(Or(ts), env) && ProdVal(e, env) {
      var k :| 0 <= k < |ts| && Val(ts[k], env);
      assert Val(r[k], env);
    }
  }

  lemma RefactorSound(e: seq<CE>, a: CE, o: Term, env: Env)
    requires Flat(o) && Refactor(e, PlusLit(a, o)).Ok?
    ensures Val(Refactor(e, PlusLit(a, o)).value, env) == (ProdVal(e, env) && (LitVal(a, env) || Val(o, env)))
  {
    var s := PlusLit(a, o);
    PlusLitSound(a, o, env);
    if s.value.Or? {
      assert forall k :: 0 <= k < |s.value.ts| ==> Flat(s.value.ts[k]);
      CombineSound(s.value.ts, e, env);
    } else {
      assert s.value.Lit? || s.value.One?;
      MulSound(And(e), s.value, env);
    }
  }

  lemma PlusProductsSound(ps: seq<CE>, qs: seq<CE>, env: Env)
    requires PlusProducts(ps, qs).Ok?
    ensures Val(PlusProducts(ps, qs).value, env) == (ProdVal(ps, env) || ProdVal(qs, env))
  {
    var e := Keep(ps, qs);
    ProductSplit(ps, qs, env);
    if |e| == 0 {
      PairVal(And(ps), And(qs), env);
    } else {
      var l1, l2 := Drop(ps, e), Drop(qs, e);
      if |l1| == 0 || |l2| == 0 {
      } else {
        var o1 := if |l1| == 1 then Lit(l1[0]) else And(l1);
        var o2 := if |l2| == 1 then Lit(l2[0]) else And(l2);
        LeftoverVal(l1, env);
        LeftoverVal(l2, env);
        if o1.Lit? {
          RefactorSound(e, o1.c, o2, env);
        } else if o2.Lit? {
          RefactorSound(e, o2.c, o1, env);
        } else {
          PairVal(And(ps), And(qs), env);
        }
      }
    }
  }

  // ---------------------------------------------------------------- rendering facts

  /** Literals over letters, as the truth table builds them. */
  predicate Lettered(ps: seq<CE>)
  {
    forall c :: c in ps ==> PyStr.IsAlpha(c.symbol)
  }

  /** The literal a rendering stands for, if it is one. */
  function Decode(s: string): (r: Option<CE>)
    ensures forall c :: LitStr(c) == s <==> r == Some(c)
  {
    if |s| == 2 && s[0] == '!' then Some(CE(s[1], true))
    else if |s| == 1 then Some(CE(s[0], false))
    else None
  }

  /** Renderings count literals: each rendering occurs as often as the literal it decodes to. */
  lemma {:induction false} LitStrsCount(ps: seq<CE>, s: string)
    ensures multiset(LitStrs(ps))[s] == if Decode(s).Some? then multiset(ps)[Decode(s).value] else 0
  {
    if ps != [] {
      LitStrsCount(ps[1..], s);
      assert LitStrs(ps) == [LitStr(ps[0])] + LitStrs(ps[1..]);
      assert ps == [ps[0]] + ps[1..];
    }
  }

  /** Renderings of two lists agree as multisets exactly when the literals do. */
  lemma LitStrsMultiset(ps: seq<CE>, qs: seq<CE>)
    ensures multiset(LitStrs(ps)) == multiset(LitStrs(qs)) <==> multiset(ps) == multiset(qs)
  {
    if multiset(ps) == multiset(qs) {
      forall s ensures multiset(LitStrs(ps))[s] == multiset(LitStrs(qs))[s] {
        LitStrsCount(ps, s);
        LitStrsCount(qs, s);
      }
    }
    if multiset(LitStrs(ps)) == multiset(LitStrs(qs)) {
      forall c ensures multiset(ps)[c] == multiset(qs)[c] {
        LitStrsCount(ps, LitStr(c));
        LitStrsCount(qs, LitStr(c));
      }
    }
  }

  lemma {:induction false} StarredJoin(ps: seq<CE>)
    requires ps != []
    ensures Starred(ps) == PyStr.Join(LitStrs(ps), "*") + "*"
  {
    if |ps| > 1 {
      StarredJoin(ps[1..]);
      assert LitStrs(ps)[1..] == LitStrs(ps[1..]);
    }
  }

  lemma {:induction false} JoinEnds(xs: seq<string>, sep: string)
    requires |xs| > 0 && forall k :: 0 <= k < |xs| ==> |xs[k]| > 0
    ensures var j := PyStr.Join(xs, sep);
      |j| > 0 && j[0] == xs[0][0] && j[|j| - 1] == xs[|xs| - 1][|xs[|xs| - 1]| - 1]
  {
    if |xs| > 1 {
      JoinEnds(xs[1..], sep);
    }
  }

  /** Stripping the `'*'`s of `s + "*"` gives `s` back when `s` neither starts nor ends with one. */
  lemma StripOneStar(s: string)
    requires |s| > 0 && s[0] != '*' && s[|s| - 1] != '*'
    ensures PyStr.Strip(s + "*", {'*'}) == s
  {
    var t := s + "*";
    assert PyStr.LStrip(t, {'*'}) == t by { assert t[0] !in {'*'}; }
    assert PyStr.RStrip(t, {'*'}) == PyStr.RStrip(s, {'*'}) by {
      assert t[|t| - 1] in {'*'};
      assert t[..|t| - 1] == s;
    }
    assert PyStr.RStrip(s, {'*'}) == s by { assert s[|s| - 1] !in {'*'}; }
  }

  /** The rendering of a literal over a letter holds no `'*'`. */
  lemma LitStrNoStar(c: CE)
    requires PyStr.IsAlpha(c.symbol)
    ensures '*' !in LitStr(c) && LitStr(c)[0] != '*'
  {
  }

  /** For products over letters, `AndExpr.to_str` is the sorted renderings joined with `'*'`. */
  /** The renderings of letters hold no `'*'` and are not empty. */
  lemma LitStrsNoStar(ps: seq<CE>)
    requires Lettered(ps)
    ensures forall k :: 0 <= k < |LitStrs(ps)| ==> '*' !in LitStrs(ps)[k] && |LitStrs(ps)[k]| > 0 && LitStrs(ps)[k][0] != '*'
  {
    forall k | 0 <= k < |ps| ensures '*' !in LitStr(ps[k]) && LitStr(ps[k])[0] != '*' {
      assert ps[k] in ps;
      LitStrNoStar(ps[k]);
    }
  }

  /** Splitting the stripped loop output of `AndExpr.to_str` gives back the renderings. */
  lemma StarredSplits(ps: seq<CE>)
    requires ps != [] && Lettered(ps)
    ensures PyStr.SplitOn(PyStr.Strip(Starred(ps), {'*'}), '*') == LitStrs(ps)
  {
    var xs := LitStrs(ps);
    var j := PyStr.Join(xs, "*");
    StarredJoin(ps);
    LitStrsNoStar(ps);
    JoinStarEnds(xs);
    StripOneStar(j);
    assert PyStr.Strip(Starred(ps), {'*'}) == j;
    PyStr.SplitJoin(xs, '*');
  }

  /** Joining non-empty pieces without `'*'` neither starts nor ends with `'*'`. */
  lemma JoinStarEnds(xs: seq<string>)
    requires |xs| > 0 && forall k :: 0 <= k < |xs| ==> '*' !in xs[k] && |xs[k]| > 0
    ensures var j := PyStr.Join(xs, "*"); |j| > 0 && j[0] != '*' && j[|j| - 1] != '*'
  {
    JoinEnds(xs, "*");
    var last := xs[|xs| - 1];
    assert last[|last| - 1] in last;
    assert xs[0][0] in xs[0];
  }

  lemma AndStrSorted(ps: seq<CE>)
    requires ps != [] && Lettered(ps)
    ensures AndStr(ps) == PyStr.Join(PyStr.SortStrs(LitStrs(ps)), "*")
    ensures PyStr.SplitOn(AndStr(ps), '*') == PyStr.SortStrs(LitStrs(ps))
  {
    var xs := LitStrs(ps);
    StarredSplits(ps);
    LitStrsNoStar(ps);
    var ys := PyStr.SortStrs(xs);
    forall k | 0 <= k < |ys| ensures '*' !in ys[k] {
      assert ys[k] in multiset(xs);
    }
    PyStr.SplitJoin(ys, '*');
  }

  /** `AndExpr.to_str` does not depend on the order of the literals. */
  lemma AndStrOrderFree(ps: seq<CE>, qs: seq<CE>)
    requires Lettered(ps) && multiset(ps) == multiset(qs)
    ensures AndStr(ps) == AndStr(qs)
  {
    assert forall c :: c in qs <==> c in multiset(qs);
    assert forall c :: c in ps <==> c in multiset(ps);
    if ps != [] {
      assert qs != [] by { assert ps[0] in multiset(qs); }
      AndStrSorted(ps);
      AndStrSorted(qs);
      LitStrsMultiset(ps, qs);
      PyStr.SortStrsPermutationInvariant(LitStrs(ps), LitStrs(qs));
    } else {
      assert |qs| == |multiset(qs)| == 0;
    }
  }

  /** Equal renderings of non-empty products over letters mean equal literal multisets, so
      comparing renderings compares products. */
  lemma AndStrInjective(ps: seq<CE>, qs: seq<CE>)
    requires ps != [] && qs != [] && Lettered(ps) && Lettered(qs) && AndStr(ps) == AndStr(qs)
    ensures multiset(ps) == multiset(qs)
  {
    AndStrSorted(ps);
    AndStrSorted(qs);
    LitStrsMultiset(ps, qs);
  }

  // ---------------------------------------------------------------- generateAnd

  /** The pieces parsed one by one, failing at the first bad piece. */
  function ParseLits(xs: seq<string>): (r: Result<seq<CE>>)
    ensures r.Ok? ==> |r.value| == |xs| && forall k :: 0 <= k < |xs| ==> ParseLit(xs[k]) == Ok(r.value[k])
    ensures r.Raise? ==> exists k :: 0 <= k < |xs| && ParseLit(xs[k]).Raise?
  {
    if xs == [] then Ok([])
    else
      var h := ParseLit(xs[0]);
      if h.Raise? then Raise(h.error)
      else
        var t := ParseLits(xs[1..]);
        if t.Raise? then
          ghost var k :| 0 <= k < |xs[1..]| && ParseLit(xs[1..][k]).Raise?;
          assert ParseLit(xs[k + 1]).Raise?;
          Raise(t.error)
        else Ok([h.value] + t.value)
  }

  /** `generateAnd(s)`: split at `'*'` and parse every piece into a literal. */
  function GenerateAndSpec(s: string): Result<Term>
  {
    var r := ParseLits(PyStr.SplitOn(s, '*'));
    if r.Raise? then Raise(r.error) else Ok(And(r.value))
  }

  /** Pieces that are renderings of literals over letters parse back into those literals. */
  lemma {:induction false} ParsePieces(ps: seq<CE>, xs: seq<string>)
    requires Lettered(ps)
    requires forall k :: 0 <= k < |xs| ==> xs[k] in LitStrs(ps)
    ensures ParseLits(xs).Ok? && LitStrs(ParseLits(xs).value) == xs
  {
    if xs != [] {
      ParsePieces(ps, xs[1..]);
      var j :| 0 <= j < |ps| && LitStrs(ps)[j] == xs[0];
      assert ps[j] in ps;
      assert ParseLit(xs[0]) == Ok(ps[j]);
      var t := ParseLits(xs[1..]).value;
      assert ParseLits(xs).value == [ps[j]] + t;
      assert LitStrs([ps[j]] + t) == [LitStr(ps[j])] + LitStrs(t) by {
        assert ([ps[j]] + t)[1..] == t;
      }
    }
  }

  /** `generateAnd(p.to_str())` rebuilds `p`: a product with the same literals, equal to `p`
      under `AndExpr.__eq__`. */
  lemma GenerateAndRoundTrip(ps: seq<CE>)
    requires ps != [] && Lettered(ps)
    ensures GenerateAndSpec(AndStr(ps)).Ok?
    ensures GenerateAndSpec(AndStr(ps)).value.And?
    ensures multiset(GenerateAndSpec(AndStr(ps)).value.ps) == multiset(ps)
    ensures Eq(GenerateAndSpec(AndStr(ps)).value, And(ps)) == Ok(true)
  {
    AndStrSorted(ps);
    var xs := PyStr.SortStrs(LitStrs(ps));
    forall k | 0 <= k < |xs| ensures xs[k] in LitStrs(ps) {
      assert xs[k] in multiset(LitStrs(ps));
    }
    ParsePieces(ps, xs);
    var qs := ParseLits(xs).value;
    assert GenerateAndSpec(AndStr(ps)) == Ok(And(qs));
    LitStrsMultiset(qs, ps);
    SameMultiset(qs, ps);
  }

  /** Lists with equal multisets have equal lengths and equal members. */
  lemma SameMultiset(qs: seq<CE>, ps: seq<CE>)
    requires multiset(qs) == multiset(ps)
    ensures |qs| == |ps| && forall c :: c in qs <==> c in ps
  {
    assert forall c :: c in qs <==> c in multiset(qs);
    assert forall c :: c in ps <==> c in multiset(ps);
    assert |qs| == |multiset(qs)| == |multiset(ps)| == |ps|;
  }

  // ---------------------------------------------------------------- quirks

  /** `CE + true_obj()` returns the class `true_obj`, whose `to_str` and `copy` then fail for
      want of an instance. */
  lemma LiteralPlusOneGivesClass(a: CE)
    ensures Plus(Lit(a), One) == Ok(OneClass)
    ensures Render(OneClass).Raise? && Copy(OneClass).Raise?
  {
  }

  /** `A·B + A`: the absorption A + A·B = A gives a bare literal, which has no list to reverse,
      so the reversed order raises although the other order simplifies. */
  lemma ProductPlusAbsorbedLiteralFails(a: CE, b: CE)
    requires a != b
    ensures Plus(Lit(a), And([a, b])) == Ok(Lit(a))
    ensures Plus(And([a, b]), Lit(a)) == Raise("AttributeError")
  {
  }

  /** A + !A·B deletes the first `!A` from the product and gives the sum A + B. */
  lemma LiteralPlusNegationInProduct(a: CE, b: CE)
    requires b != Negate(a) && b != a
    ensures Plus(Lit(a), And([Negate(a), b])) == Ok(Or([Lit(a), And([b])]))
  {
    assert [Negate(a), b][1..] == [b];
  }

  /** A·B + A·!B: the common part A survives, the complementary leftovers cancel. */
  lemma ComplementaryLeftoversCancel(a: CE, b: CE)
    requires a.symbol != b.symbol
    ensures Plus(And([a, b]), And([a, Negate(b)])) == Ok(And([a]))
  {
    var ps, qs := [a, b], [a, Negate(b)];
    assert Keep(ps, qs) == [a] by {
      assert Keep(ps[1..], qs) == [];
    }
    assert Drop([b], [a]) == [b] by { assert b !in [a]; assert [b][1..] == []; }
    assert Drop(ps, [a]) == [b] by { assert ps[0] in [a]; assert ps[1..] == [b]; }
    assert Drop(qs, [a]) == [Negate(b)] by { assert qs[1..] == [Negate(b)] && [Negate(b)][1..] == []; }
    assert PlusLit(b, Lit(Negate(b))) == Ok(One);
    assert Mul(And([a]), One) == Ok(And([a]));
  }
}
