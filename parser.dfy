/**
 * `create_ast` (tools/logical_evaluator/algo.py, lines 78-185): the token-list rewriter that
 * folds a lexed expression into a tree.
 *
 * Node construction registers bare-variable children with the register, so the outcome of the
 * rewriter is a result together with the sequence of variable objects registered on the way,
 * in order; errors keep the registrations that happened before them.
 */
module Parser {
  import opened Types
  import opened Logic
  import opened Registry
  import opened Nodes
  import opened Algo

  /** An outcome and the variable objects registered while computing it. */
  datatype Run<T> = Run(res: Result<T>, regs: seq<ConstExpr>)

  /** `r` preceded by the registrations `regs`. */
  function After<T>(regs: seq<ConstExpr>, r: Run<T>): Run<T>
  {
    Run(r.res, regs + r.regs)
  }

  lemma AfterOk<T>(a: seq<ConstExpr>, x: T, b: seq<ConstExpr>, ab: seq<ConstExpr>)
    requires ab == a + b
    ensures After(a, Run(Ok(x), b)) == Run(Ok(x), ab)
  {
  }

  lemma AfterAfter<T>(a: seq<ConstExpr>, b: seq<ConstExpr>, r: Run<T>)
    ensures After(a, After(b, r)) == After(a + b, r)
  {
    assert a + (b + r.regs) == (a + b) + r.regs;
  }

  // ---------------------------------------------------------------- the specification

  /** `Op(tokens[i-1], tokens[i+1])` followed by `replace_with(tokens, i-1, i+2, node)`. */
  function FoldAt(op: BinOp, ts: seq<Token>, i: int): (r: Run<seq<Token>>)
    ensures r.res.Ok? ==> |r.res.value| == |ts| - 2
  {
    var a := PyGet(ts, i - 1);
    if a.Raise? then Run(Raise(a.error), [])
    else
      var b := PyGet(ts, i + 1);
      if b.Raise? then Run(Raise(b.error), [])
      else Run(ReplaceSpec(ts, i - 1, i + 2, BinNode(op, a.value, b.value)), Bare([a.value, b.value]))
  }

  /** The `'!'` loop from position `i`; `stop` is `len(tokens) - tokens.count('!')` on entry. */
  function NotsFrom(ts: seq<Token>, i: nat, stop: int): Run<seq<Token>>
    decreases stop - i
  {
    if i >= stop then Run(Ok(ts), [])
    else
      var g := PyGet(ts, i);
      if g.Raise? then Run(Raise(g.error), [])
      else if g.value != Raw('!') then NotsFrom(ts, i + 1, stop)
      else
        var b := PyGet(ts, i + 1);
        if b.Raise? then Run(Raise(b.error), [])
        else
          var d := ReplaceSpec(ts, i, i + 2, NotNode(b.value));
          if d.Raise? then Run(Raise(d.error), Bare([b.value]))
          else After(Bare([b.value]), NotsFrom(d.value, i + 1, stop))
  }

  function Nots(ts: seq<Token>): Run<seq<Token>>
  {
    NotsFrom(ts, 0, |ts| - Count(ts, '!'))
  }

  /** A left-to-right loop for operator character `c` from position `i`; `limit` is
      `len(tokens) - 2*tokens.count(c)` on entry. After a fold the index stays put. */
  function LeftFrom(op: BinOp, c: char, ts: seq<Token>, i: nat, limit: int): Run<seq<Token>>
    decreases |ts|, limit - i
  {
    if i > limit || Count(ts, c) == 0 then Run(Ok(ts), [])
    else
      var g := PyGet(ts, i);
      if g.Raise? then Run(Raise(g.error), [])
      else if g.value != Raw(c) then LeftFrom(op, c, ts, i + 1, limit)
      else
        var f := FoldAt(op, ts, i);
        if f.res.Raise? then f else After(f.regs, LeftFrom(op, c, f.res.value, i, limit))
  }

  function Lefts(op: BinOp, c: char, ts: seq<Token>): Run<seq<Token>>
  {
    LeftFrom(op, c, ts, 0, |ts| - 2 * Count(ts, c))
  }

  /** The right-to-left `'$'` loop from position `i` down to 0. */
  function RightFrom(ts: seq<Token>, i: int): Run<seq<Token>>
    decreases i + 1
  {
    if i < 0 || Count(ts, '$') == 0 then Run(Ok(ts), [])
    else
      var g := PyGet(ts, i);
      if g.Raise? then Run(Raise(g.error), [])
      else if g.value != Raw('$') then RightFrom(ts, i - 1)
      else
        var f := FoldAt(ImplOp, ts, i);
        if f.res.Raise? then f else After(f.regs, RightFrom(f.res.value, i - 1))
  }

  function Rights(ts: seq<Token>): Run<seq<Token>>
  {
    RightFrom(ts, |ts| - 1)
  }

  /** The operator stages in the order `create_ast` runs them: `! * + ^ $ #`. */
  function Stage(k: nat, ts: seq<Token>): Run<seq<Token>>
  {
    if k == 0 then Nots(ts)
    else if k == 1 then Lefts(AndOp, '*', ts)
    else if k == 2 then Lefts(OrOp, '+', ts)
    else if k == 3 then Lefts(XorOp, '^', ts)
    else if k == 4 then Rights(ts)
    else Lefts(EquivOp, '#', ts)
  }

  const StageCount := 6

  function StagesFrom(k: nat, ts: seq<Token>): Run<seq<Token>>
    decreases StageCount - k
  {
    if k >= StageCount then Run(Ok(ts), [])
    else
      var s := Stage(k, ts);
      if s.res.Raise? then s else After(s.regs, StagesFrom(k + 1, s.res.value))
  }

  /** `tree.set_expr(tokens[0])`: the root is the first token, whatever follows it. */
  function Root(ts: seq<Token>): Run<Token>
  {
    var g := PyGet(ts, 0);
    if g.Raise? then Run(Raise(g.error), []) else Run(Ok(Tree(g.value)), Bare([g.value]))
  }

  /** One round of the parenthesis loop: the innermost pair is parsed recursively and its
      span, parentheses included, is replaced by the result. An unmatched `'('` makes
      `find_braces` return None, which the loop then indexes: TypeError. */
  function ParenRound(ts: seq<Token>): (p: Run<seq<Token>>)
    ensures p.res.Ok? ==> |p.res.value| < |ts|
    decreases |ts|, 0
  {
    var pair := FindBracesSpec(ts);
    if pair.None? then Run(Raise("TypeError"), [])
    else
      var l, r := pair.value.0, pair.value.1;
      var sub := CreateAstSpec(ts[l + 1..r]);
      if sub.res.Raise? then Run(Raise(sub.res.error), sub.regs)
      else Run(Ok(ts[..l] + [sub.res.value] + ts[r + 1..]), sub.regs)
  }

  /** The parenthesis loop: rounds while a `'('` is left. */
  function ResolveParens(ts: seq<Token>): Run<seq<Token>>
    decreases |ts|, 1
  {
    if Count(ts, '(') == 0 then Run(Ok(ts), [])
    else
      var p := ParenRound(ts);
      if p.res.Raise? then p else After(p.regs, ResolveParens(p.res.value))
  }

  /** `create_ast(tokens)`; Python's None for an empty list is `NoneVal`. */
  function CreateAstSpec(ts: seq<Token>): Run<Token>
    decreases |ts|, 2
  {
    if |ts| == 0 then Run(Ok(NoneVal), [])
    else
      var p := ResolveParens(ts);
      if p.res.Raise? then Run(Raise(p.res.error), p.regs)
      else After(p.regs, FinishFrom(0, p.res.value))
  }

  /** The operator stages from stage `k` on, then the root. */
  function FinishFrom(k: nat, ts: seq<Token>): Run<Token>
  {
    var s := StagesFrom(k, ts);
    if s.res.Raise? then Run(Raise(s.res.error), s.regs) else After(s.regs, Root(s.res.value))
  }

  /** Running stage `k` advances `FinishFrom` by one stage. */
  lemma FinishStep(k: nat, ts: seq<Token>)
    requires k < StageCount
    ensures var st := Stage(k, ts);
      FinishFrom(k, ts) == if st.res.Raise? then Run(Raise(st.res.error), st.regs) else After(st.regs, FinishFrom(k + 1, st.res.value))
  {
    var st := Stage(k, ts);
    if st.res.Ok? {
      var rest := StagesFrom(k + 1, st.res.value);
      assert StagesFrom(k, ts) == After(st.regs, rest);
      if rest.res.Ok? {
        var root := Root(rest.res.value);
        assert (st.regs + rest.regs) + root.regs == st.regs + (rest.regs + root.regs);
      }
    }
  }

  lemma LeftsFrom(op: BinOp, c: char, ts: seq<Token>, limit: int)
    requires limit == |ts| - 2 * Count(ts, c)
    ensures Lefts(op, c, ts) == LeftFrom(op, c, ts, 0, limit)
  {
  }

  /** A left-to-right loop passes over a token that is not its operator. */
  lemma LeftSkip(op: BinOp, c: char, ts: seq<Token>, i: nat, limit: int)
    requires i <= limit && Count(ts, c) != 0 && i < |ts| && ts[i] != Raw(c)
    ensures LeftFrom(op, c, ts, i, limit) == LeftFrom(op, c, ts, i + 1, limit)
  {
  }

  /** A left-to-right loop folds its operator and stays at the same index. */
  lemma LeftFold(op: BinOp, c: char, ts: seq<Token>, i: nat, limit: int, xs: seq<Token>, regs: seq<ConstExpr>)
    requires i <= limit && Count(ts, c) != 0 && i < |ts| && ts[i] == Raw(c)
    requires FoldAt(op, ts, i) == Run(Ok(xs), regs)
    ensures LeftFrom(op, c, ts, i, limit) == After(regs, LeftFrom(op, c, xs, i, limit))
  {
  }

  /** The `'$'` loop passes over a token that is not `'$'`. */
  lemma RightSkip(ts: seq<Token>, i: int)
    requires 0 <= i < |ts| && Count(ts, '$') != 0 && ts[i] != Raw('$')
    ensures RightFrom(ts, i) == RightFrom(ts, i - 1)
  {
  }

  /** The `'$'` loop folds at `i` and goes on from `i - 1`. */
  lemma RightFold(ts: seq<Token>, i: int, xs: seq<Token>, regs: seq<ConstExpr>)
    requires 0 <= i < |ts| && Count(ts, '$') != 0 && ts[i] == Raw('$')
    requires FoldAt(ImplOp, ts, i) == Run(Ok(xs), regs)
    ensures RightFrom(ts, i) == After(regs, RightFrom(xs, i - 1))
  {
  }

  /** A left-to-right loop past its limit, or with no operator left, stops. */
  lemma LeftStops(op: BinOp, c: char, ts: seq<Token>, i: nat, limit: int)
    requires i > limit || Count(ts, c) == 0
    ensures LeftFrom(op, c, ts, i, limit) == Run(Ok(ts), [])
  {
  }

  /** A left-to-right loop whose index is out of range raises. */
  lemma LeftIndexFails(op: BinOp, c: char, ts: seq<Token>, i: nat, limit: int)
    requires i <= limit && Count(ts, c) != 0 && PyGet(ts, i).Raise?
    ensures LeftFrom(op, c, ts, i, limit) == Run(Raise(PyGet(ts, i).error), [])
  {
  }

  /** A left-to-right loop whose fold raises stops with that error. */
  lemma LeftFoldFails(op: BinOp, c: char, ts: seq<Token>, i: nat, limit: int)
    requires i <= limit && Count(ts, c) != 0 && i < |ts| && ts[i] == Raw(c) && FoldAt(op, ts, i).res.Raise?
    ensures LeftFrom(op, c, ts, i, limit) == FoldAt(op, ts, i)
  {
  }

  /** `LeftFold` behind the registrations `done` made before it. */
  lemma LeftFoldAfter(op: BinOp, c: char, ts: seq<Token>, i: nat, limit: int, xs: seq<Token>, regs: seq<ConstExpr>, done: seq<ConstExpr>)
    requires i <= limit && Count(ts, c) != 0 && i < |ts| && ts[i] == Raw(c)
    requires FoldAt(op, ts, i) == Run(Ok(xs), regs)
    ensures After(done, LeftFrom(op, c, ts, i, limit)) == After(done + regs, LeftFrom(op, c, xs, i, limit))
  {
    LeftFold(op, c, ts, i, limit, xs, regs);
    AfterAfter(done, regs, LeftFrom(op, c, xs, i, limit));
  }

  /** One step of a left-to-right loop that has not stopped: after a fold the loop goes on
      from the same index. */
  lemma LeftFromAt(op: BinOp, c: char, ts: seq<Token>, i: nat, limit: int)
    requires i <= limit && Count(ts, c) != 0
    ensures var g := PyGet(ts, i);
      var f := FoldAt(op, ts, i);
      LeftFrom(op, c, ts, i, limit) ==
        if g.Raise? then Run(Raise(g.error), [])
        else if g.value != Raw(c) then LeftFrom(op, c, ts, i + 1, limit)
        else if f.res.Raise? then f
        else After(f.regs, LeftFrom(op, c, f.res.value, i, limit))
  {
  }

  /** One step of the `'$'` loop that has not stopped: after a fold the loop goes on from
      the index before. */
  lemma RightFromAt(ts: seq<Token>, i: int)
    requires 0 <= i && Count(ts, '$') != 0
    ensures var g := PyGet(ts, i);
      var f := FoldAt(ImplOp, ts, i);
      RightFrom(ts, i) ==
        if g.Raise? then Run(Raise(g.error), [])
        else if g.value != Raw('$') then RightFrom(ts, i - 1)
        else if f.res.Raise? then f
        else After(f.regs, RightFrom(f.res.value, i - 1))
  {
  }

  /** A round of the parenthesis loop while a `'('` is left. */
  lemma ResolveParensRound(ts: seq<Token>)
    requires Count(ts, '(') != 0
    ensures var p := ParenRound(ts);
      ResolveParens(ts) == if p.res.Raise? then p else After(p.regs, ResolveParens(p.res.value))
  {
  }

  /** `create_ast` of a non-empty list: the parentheses, then the stages. */
  lemma CreateAstParens(ts: seq<Token>)
    requires |ts| > 0
    ensures var p := ResolveParens(ts);
      CreateAstSpec(ts) == if p.res.Raise? then Run(Raise(p.res.error), p.regs) else After(p.regs, FinishFrom(0, p.res.value))
  {
  }

  // ---------------------------------------------------------------- the loops

  /** The `'!'` loop (algo.py lines 100-104). */
  method NotsLoop(reg: Register, tokens: seq<Token>) returns (r: Result<seq<Token>>)
    modifies reg
    ensures r == Nots(tokens).res
    ensures reg.State() == EnrollAll(old(reg.State()), Nots(tokens).regs)
  {
    var ts := tokens;
    var stop := |ts| - Count(ts, '!');
    ghost var done: seq<ConstExpr> := [];
    var i := 0;
    while i < stop
      invariant reg.State() == EnrollAll(old(reg.State()), done)
      invariant After(done, NotsFrom(ts, i, stop)) == Nots(tokens)
      decreases stop - i
    {
      var g := PyGet(ts, i);
      if g.Raise? {
        assert NotsFrom(ts, i, stop) == Run(Raise(g.error), []);
        assert done + [] == done;
        return Raise(g.error);
      }
      if g.value != Raw('!') {
        assert NotsFrom(ts, i, stop) == NotsFrom(ts, i + 1, stop);
      } else {
        var b := PyGet(ts, i + 1);
        if b.Raise? {
          assert done + [] == done;
          return Raise(b.error);
        }
        var node := NewNot(reg, b.value);
        EnrollAllAppend(old(reg.State()), done, Bare([b.value]));
        var d := ReplaceWith(ts, i, i + 2, node);
        if d.Raise? {
          return Raise(d.error);
        }
        AfterAfter(done, Bare([b.value]), NotsFrom(d.value, i + 1, stop));
        done := done + Bare([b.value]);
        ts := d.value;
      }
      i := i + 1;
    }
    assert done + [] == done;
    r := Ok(ts);
  }

  /** `node = Op(tokens[i-1], tokens[i+1])` then `replace_with(tokens, i-1, i+2, node)`. */
  method FoldStep(reg: Register, op: BinOp, ts: seq<Token>, i: int) returns (r: Result<seq<Token>>)
    modifies reg
    ensures r == FoldAt(op, ts, i).res
    ensures reg.State() == EnrollAll(old(reg.State()), FoldAt(op, ts, i).regs)
  {
    var a := PyGet(ts, i - 1);
    if a.Raise? {
      return Raise(a.error);
    }
    var b := PyGet(ts, i + 1);
    if b.Raise? {
      return Raise(b.error);
    }
    var node := NewBinary(reg, op, a.value, b.value);
    r := ReplaceWith(ts, i - 1, i + 2, node);
  }

  /** One of the left-to-right loops for `*`, `+`, `^` and `#` (algo.py lines 106-142, 171-181). */
  method LeftLoop(reg: Register, op: BinOp, c: char, tokens: seq<Token>) returns (r: Result<seq<Token>>)
    modifies reg
    ensures r == Lefts(op, c, tokens).res
    ensures reg.State() == EnrollAll(old(reg.State()), Lefts(op, c, tokens).regs)
  {
    var ts := tokens;
    var i: nat := 0;
    var limit := |ts| - 2 * Count(ts, c);
    ghost var done: seq<ConstExpr> := [];
    ghost var s0 := reg.State();
    ghost var goal := Lefts(op, c, tokens);
    while i <= limit
      invariant reg.State() == EnrollAll(s0, done)
      invariant After(done, LeftFrom(op, c, ts, i, limit)) == goal
      decreases |ts|, limit - i
    {
      if Count(ts, c) == 0 {
        break;
      }
      var g := PyGet(ts, i);
      if g.Raise? {
        LeftIndexFails(op, c, ts, i, limit);
        assert done + [] == done;
        return Raise(g.error);
      }
      if g.value != Raw(c) {
        LeftSkip(op, c, ts, i, limit);
        i := i + 1;
      } else {
        // after a fold `i -= 1` and `i += 1` leave the index where it was
        var f := FoldStep(reg, op, ts, i);
        ghost var fregs := FoldAt(op, ts, i).regs;
        EnrollAllAppend(s0, done, fregs);
        if f.Raise? {
          LeftFoldFails(op, c, ts, i, limit);
          return f;
        }
        LeftFoldAfter(op, c, ts, i, limit, f.value, fregs, done);
        done := done + fregs;
        ts := f.value;
      }
    }
    LeftStops(op, c, ts, i, limit);
    assert done + [] == done;
    r := Ok(ts);
  }

  /** The right-to-left `'$'` loop (algo.py lines 160-168); the `i += 1` in its body has no
      effect on a Python `for` loop. */
  method RightLoop(reg: Register, tokens: seq<Token>) returns (r: Result<seq<Token>>)
    modifies reg
    ensures r == Rights(tokens).res
    ensures reg.State() == EnrollAll(old(reg.State()), Rights(tokens).regs)
  {
    var ts := tokens;
    var i := |ts| - 1;
    ghost var done: seq<ConstExpr> := [];
    while i >= 0
      invariant reg.State() == EnrollAll(old(reg.State()), done)
      invariant After(done, RightFrom(ts, i)) == Rights(tokens)
      decreases i + 1
    {
      if Count(ts, '$') == 0 {
        break;
      }
      var g := PyGet(ts, i);
      if g.Raise? {
        RightFromAt(ts, i);
        assert done + [] == done;
        return Raise(g.error);
      }
      if g.value != Raw('$') {
        RightSkip(ts, i);
      } else {
        var f := FoldStep(reg, ImplOp, ts, i);
        EnrollAllAppend(old(reg.State()), done, FoldAt(ImplOp, ts, i).regs);
        if f.Raise? {
          RightFromAt(ts, i);
          return f;
        }
        RightFold(ts, i, f.value, FoldAt(ImplOp, ts, i).regs);
        AfterAfter(done, FoldAt(ImplOp, ts, i).regs, RightFrom(f.value, i - 1));
        done := done + FoldAt(ImplOp, ts, i).regs;
        ts := f.value;
      }
      i := i - 1;
    }
    assert done + [] == done;
    r := Ok(ts);
  }

  /** Stage `k` of `create_ast`: the loop for its operator. */
  method StageLoop(reg: Register, k: nat, ts: seq<Token>) returns (r: Result<seq<Token>>)
    requires k < StageCount
    modifies reg
    ensures r == Stage(k, ts).res
    ensures reg.State() == EnrollAll(old(reg.State()), Stage(k, ts).regs)
  {
    if k == 0 {
      r := NotsLoop(reg, ts);
    } else if k == 1 {
      r := LeftLoop(reg, AndOp, '*', ts);
    } else if k == 2 {
      r := LeftLoop(reg, OrOp, '+', ts);
    } else if k == 3 {
      r := LeftLoop(reg, XorOp, '^', ts);
    } else if k == 4 {
      r := RightLoop(reg, ts);
    } else {
      r := LeftLoop(reg, EquivOp, '#', ts);
    }
  }

  /** The part of `create_ast` after the parentheses: the stages in order (algo.py lines
      99-181), then `tree.set_expr(tokens[0])` (line 183). */
  method FoldStages(reg: Register, tokens: seq<Token>) returns (r: Result<Token>)
    modifies reg
    ensures r == FinishFrom(0, tokens).res
    ensures reg.State() == EnrollAll(old(reg.State()), FinishFrom(0, tokens).regs)
  {
    var ts := tokens;
    ghost var acc: seq<ConstExpr> := [];
    assert acc + FinishFrom(0, ts).regs == FinishFrom(0, ts).regs;
    for k := 0 to StageCount
      invariant reg.State() == EnrollAll(old(reg.State()), acc)
      invariant After(acc, FinishFrom(k, ts)) == FinishFrom(0, tokens)
    {
      var t := StageLoop(reg, k, ts);
      Passed(old(reg.State()), acc, k, ts, t);
      if t.Raise? {
        return Raise(t.error);
      }
      acc, ts := acc + Stage(k, ts).regs, t.value;
    }
    assert StagesFrom(StageCount, ts) == Run(Ok(ts), []);
    assert FinishFrom(StageCount, ts) == Root(ts);
    var root := PyGet(ts, 0);
    if root.Raise? {
      assert acc + [] == acc;
      return Raise(root.error);
    }
    var tree := NewTree(reg, root.value);
    EnrollAllAppend(old(reg.State()), acc, Bare([root.value]));
    r := Ok(tree);
  }

  /** The bookkeeping after stage `k` has produced `t`: the register and the remaining
      specification both move past the stage. */
  lemma Passed(s0: RegState, acc: seq<ConstExpr>, k: nat, ts: seq<Token>, t: Result<seq<Token>>)
    requires k < StageCount && t == Stage(k, ts).res
    ensures t.Raise? ==> After(acc, FinishFrom(k, ts)) == Run(Raise(t.error), acc + Stage(k, ts).regs)
    ensures t.Ok? ==> After(acc, FinishFrom(k, ts)) == After(acc + Stage(k, ts).regs, FinishFrom(k + 1, t.value))
    ensures EnrollAll(s0, acc + Stage(k, ts).regs) == EnrollAll(EnrollAll(s0, acc), Stage(k, ts).regs)
  {
    FinishStep(k, ts);
    EnrollAllAppend(s0, acc, Stage(k, ts).regs);
    if t.Ok? {
      AfterAfter(acc, Stage(k, ts).regs, FinishFrom(k + 1, t.value));
    }
  }

  /** One round of the parenthesis loop (algo.py lines 88-91). */
  method ParenRoundStep(reg: Register, ts: seq<Token>) returns (r: Result<seq<Token>>)
    modifies reg
    ensures r == ParenRound(ts).res
    ensures reg.State() == EnrollAll(old(reg.State()), ParenRound(ts).regs)
    decreases |ts|, 0
  {
    var res := FindBraces(ts);
    if res.None? {
      return Raise("TypeError");
    }
    var lpar, rpar := res.value.0, res.value.1;
    var sub := CreateAst(reg, ts[lpar + 1..rpar]);
    if sub.Raise? {
      return Raise(sub.error);
    }
    var next := Splice(ts, lpar, rpar, sub.value);
    r := Ok(next);
  }

  /** `replace_with(tokens, lpar, rpar + 1, value)` with the pair `find_braces` returned. */
  method Splice(ts: seq<Token>, lpar: nat, rpar: nat, value: Token) returns (next: seq<Token>)
    requires lpar < rpar < |ts|
    ensures next == ts[..lpar] + [value] + ts[rpar + 1..]
  {
    var r := ReplaceWith(ts, lpar, rpar + 1, value);
    ReplaceInRange(ts, lpar, rpar + 1, value);
    next := r.value;
  }

  /** `create_ast(tokens)` (algo.py lines 78-185). */
  method CreateAst(reg: Register, tokens: seq<Token>) returns (r: Result<Token>)
    modifies reg
    ensures r == CreateAstSpec(tokens).res
    ensures reg.State() == EnrollAll(old(reg.State()), CreateAstSpec(tokens).regs)
    decreases |tokens|, 1
  {
    var tree := NewTree(reg, NoneVal);
    if |tokens| == 0 {
      return Ok(NoneVal);
    }
    var ts := tokens;
    ghost var acc: seq<ConstExpr> := [];
    while Count(ts, '(') > 0
      invariant |ts| <= |tokens|
      invariant reg.State() == EnrollAll(old(reg.State()), acc)
      invariant After(acc, ResolveParens(ts)) == ResolveParens(tokens)
      decreases |ts|
    {
      var round := ParenRoundStep(reg, ts);
      EnrollAllAppend(old(reg.State()), acc, ParenRound(ts).regs);
      ResolveParensRound(ts);
      if round.Raise? {
        return Raise(round.error);
      }
      AfterAfter(acc, ParenRound(ts).regs, ResolveParens(round.value));
      acc := acc + ParenRound(ts).regs;
      ts := round.value;
    }
    assert ResolveParens(ts) == Run(Ok(ts), []);
    assert acc + [] == acc;
    CreateAstParens(tokens);
    assert CreateAstSpec(tokens) == After(acc, FinishFrom(0, ts));
    r := FoldStages(reg, ts);
    EnrollAllAppend(old(reg.State()), acc, FinishFrom(0, ts).regs);
  }
}

/**
 * What `create_ast` guarantees the truth table: every variable object of the tree it returns
 * has been registered. A bare variable token has not necessarily been registered yet, but
 * everything inside a node has.
 */
module ParserFacts {
  import opened Types
  import opened Logic
  import opened Registry
  import opened Nodes
  import opened Algo
  import opened Parser

  /** Every variable inside a non-variable token of `ts` is among `regs`. */
  ghost predicate Covered(ts: seq<Token>, regs: seq<ConstExpr>)
  {
    forall t, v :: t in ts && !t.Var? && v in Vars(t) ==> v in regs
  }

  /** A token list as the lexers produce it: letters, constants and characters only. */
  predicate Lexed(ts: seq<Token>)
  {
    forall k :: 0 <= k < |ts| ==> ts[k].Raw? || ts[k].Var? || ts[k].TrueConst? || ts[k].FalseConst?
  }

  lemma LexedCovered(ts: seq<Token>)
    requires Lexed(ts)
    ensures Covered(ts, [])
  {
    forall t | t in ts && !t.Var? ensures Vars(t) == {} {
      var k :| 0 <= k < |ts| && ts[k] == t;
    }
  }

  lemma {:induction false} LexerOutputIsLexed(ts: seq<Token>, xs: seq<Lexeme>)
    requires Matches(ts, xs)
    ensures Lexed(ts)
  {
    forall k | 0 <= k < |ts| ensures ts[k].Raw? || ts[k].Var? || ts[k].TrueConst? || ts[k].FalseConst? {
      assert Is(ts[k], xs[k]);
    }
  }

  /** A node built from two tokens of a covered list is covered once its bare children are
      registered, and so is the list it is spliced into. */
  lemma FoldAtCovers(op: BinOp, ts: seq<Token>, i: int, regs: seq<ConstExpr>)
    requires Covered(ts, regs)
    ensures var f := FoldAt(op, ts, i); f.res.Ok? ==> Covered(f.res.value, regs + f.regs)
  {
    var f := FoldAt(op, ts, i);
    if f.res.Ok? {
      var a, b := PyGet(ts, i - 1).value, PyGet(ts, i + 1).value;
      var node := BinNode(op, a, b);
      var bare := Bare([a, b]);
      assert a in ts && b in ts;
      assert f.res == ReplaceSpec(ts, i - 1, i + 2, node);
      forall t, v | t in f.res.value && !t.Var? && v in Vars(t) ensures v in regs + bare {
        assert t in ts || t == node;
        if t == node {
          assert Vars(t) == Vars(a) + Vars(b);
          if v in Vars(a) {
            if a.Var? { assert Vars(a) == {a.v}; assert [a, b][0] == a && v == a.v && v in bare; } else { assert v in regs; }
          } else {
            if b.Var? { assert Vars(b) == {b.v}; assert [a, b][1] == b && v == b.v && v in bare; } else { assert v in regs; }
          }
        } else {
          assert v in regs;
        }
      }
    }
  }

  lemma {:induction false} NotsFromCovers(ts: seq<Token>, i: nat, stop: int, regs: seq<ConstExpr>)
    requires Covered(ts, regs)
    ensures var n := NotsFrom(ts, i, stop); n.res.Ok? ==> Covered(n.res.value, regs + n.regs)
    decreases stop - i
  {
    if i < stop {
      var g := PyGet(ts, i);
      if g.Ok? && g.value != Raw('!') {
        NotsFromCovers(ts, i + 1, stop, regs);
      } else if g.Ok? && PyGet(ts, i + 1).Ok? {
        var b := PyGet(ts, i + 1).value;
        var d := ReplaceSpec(ts, i, i + 2, NotNode(b));
        if d.Ok? {
          var bare := Bare([b]);
          assert b in ts;
          forall t, v | t in d.value && !t.Var? && v in Vars(t) ensures v in regs + bare {
            assert t in ts || t == NotNode(b);
            if t == NotNode(b) {
              if b.Var? { assert Vars(t) == Vars(b) == {b.v}; assert [b][0] == b && v == b.v && v in bare; } else { assert v in regs; }
            } else {
              assert v in regs;
            }
          }
          NotsFromCovers(d.value, i + 1, stop, regs + bare);
          assert regs + bare + NotsFrom(d.value, i + 1, stop).regs == regs + NotsFrom(ts, i, stop).regs;
        }
      }
    } else {
      assert regs + [] == regs;
    }
  }

  /** Registrations made earlier and later add up. */
  lemma CoveredAfter(regs: seq<ConstExpr>, a: seq<ConstExpr>, r: Run<seq<Token>>)
    requires r.res.Ok? ==> Covered(r.res.value, regs + a + r.regs)
    ensures var n := After(a, r); n.res.Ok? ==> Covered(n.res.value, regs + n.regs)
  {
    assert regs + a + r.regs == regs + (a + r.regs);
  }

  lemma {:induction false} LeftFromCovers(op: BinOp, c: char, ts: seq<Token>, i: nat, limit: int, regs: seq<ConstExpr>)
    requires Covered(ts, regs)
    ensures var n := LeftFrom(op, c, ts, i, limit); n.res.Ok? ==> Covered(n.res.value, regs + n.regs)
    decreases |ts|, limit - i, 1
  {
    if i > limit || Count(ts, c) == 0 {
      assert regs + [] == regs;
    } else if i < |ts| && ts[i] != Raw(c) {
      LeftSkip(op, c, ts, i, limit);
      LeftFromCovers(op, c, ts, i + 1, limit, regs);
    } else if i < |ts| {
      LeftFoldCovers(op, c, ts, i, limit, regs);
    } else {
      LeftFromAt(op, c, ts, i, limit);
    }
  }

  /** The fold branch of `LeftFromCovers`. */
  lemma {:induction false} LeftFoldCovers(op: BinOp, c: char, ts: seq<Token>, i: nat, limit: int, regs: seq<ConstExpr>)
    requires Covered(ts, regs)
    requires i <= limit && Count(ts, c) != 0 && i < |ts| && ts[i] == Raw(c)
    ensures var n := LeftFrom(op, c, ts, i, limit); n.res.Ok? ==> Covered(n.res.value, regs + n.regs)
    decreases |ts|, limit - i, 0
  {
    var f := FoldAt(op, ts, i);
    if f.res.Ok? {
      LeftFold(op, c, ts, i, limit, f.res.value, f.regs);
      FoldAtCovers(op, ts, i, regs);
      LeftFromCovers(op, c, f.res.value, i, limit, regs + f.regs);
      CoveredAfter(regs, f.regs, LeftFrom(op, c, f.res.value, i, limit));
    } else {
      LeftFromAt(op, c, ts, i, limit);
    }
  }

  lemma {:induction false} RightFromCovers(ts: seq<Token>, i: int, regs: seq<ConstExpr>)
    requires Covered(ts, regs)
    ensures var n := RightFrom(ts, i); n.res.Ok? ==> Covered(n.res.value, regs + n.regs)
    decreases i + 1, 1
  {
    if i < 0 || Count(ts, '$') == 0 {
      assert regs + [] == regs;
    } else if i < |ts| && ts[i] != Raw('$') {
      RightSkip(ts, i);
      RightFromCovers(ts, i - 1, regs);
    } else if i < |ts| {
      RightFoldCovers(ts, i, regs);
    } else {
      RightFromAt(ts, i);
    }
  }

  /** The fold branch of `RightFromCovers`. */
  lemma {:induction false} RightFoldCovers(ts: seq<Token>, i: int, regs: seq<ConstExpr>)
    requires Covered(ts, regs)
    requires 0 <= i < |ts| && Count(ts, '$') != 0 && ts[i] == Raw('$')
    ensures var n := RightFrom(ts, i); n.res.Ok? ==> Covered(n.res.value, regs + n.regs)
    decreases i + 1, 0
  {
    var f := FoldAt(ImplOp, ts, i);
    if f.res.Ok? {
      RightFold(ts, i, f.res.value, f.regs);
      FoldAtCovers(ImplOp, ts, i, regs);
      RightFromCovers(f.res.value, i - 1, regs + f.regs);
      CoveredAfter(regs, f.regs, RightFrom(f.res.value, i - 1));
    } else {
      RightFromAt(ts, i);
    }
  }

  lemma StageCovers(k: nat, ts: seq<Token>, regs: seq<ConstExpr>)
    requires Covered(ts, regs)
    ensures var n := Stage(k, ts); n.res.Ok? ==> Covered(n.res.value, regs + n.regs)
  {
    if k == 0 {
      NotsFromCovers(ts, 0, |ts| - Count(ts, '!'), regs);
    } else if k == 4 {
      RightFromCovers(ts, |ts| - 1, regs);
    } else {
      var op, c := if k == 1 then AndOp else if k == 2 then OrOp else if k == 3 then XorOp else EquivOp,
                   if k == 1 then '*' else if k == 2 then '+' else if k == 3 then '^' else '#';
      LeftFromCovers(op, c, ts, 0, |ts| - 2 * Count(ts, c), regs);
    }
  }

  /** Every variable object of the tree `r` produces is among the registrations. */
  ghost predicate TreeCovered(r: Run<Token>, regs: seq<ConstExpr>)
  {
    r.res.Ok? ==> forall v :: v in Vars(r.res.value) ==> v in regs + r.regs
  }

  lemma TreeCoveredAfter(regs: seq<ConstExpr>, a: seq<ConstExpr>, r: Run<Token>)
    requires TreeCovered(r, regs + a)
    ensures TreeCovered(After(a, r), regs)
  {
    assert regs + a + r.regs == regs + (a + r.regs);
  }

  /** The root token of a covered list is covered. */
  lemma RootCovers(ts: seq<Token>, regs: seq<ConstExpr>)
    requires Covered(ts, regs)
    ensures TreeCovered(Root(ts), regs)
  {
    var g := PyGet(ts, 0);
    if g.Ok? {
      assert g.value in ts;
      if g.value.Var? { assert [g.value][0].Var?; }
    }
  }

  lemma FinishDone(k: nat, ts: seq<Token>)
    requires k >= StageCount
    ensures FinishFrom(k, ts) == After([], Root(ts))
  {
  }

  lemma {:induction false} FinishFromCovers(k: nat, ts: seq<Token>, regs: seq<ConstExpr>)
    requires Covered(ts, regs)
    ensures TreeCovered(FinishFrom(k, ts), regs)
    decreases StageCount - k
  {
    if k < StageCount {
      FinishStep(k, ts);
      var st := Stage(k, ts);
      if st.res.Ok? {
        StageCovers(k, ts, regs);
        FinishFromCovers(k + 1, st.res.value, regs + st.regs);
        TreeCoveredAfter(regs, st.regs, FinishFrom(k + 1, st.res.value));
      }
    } else {
      FinishDone(k, ts);
      RootCovers(ts, regs);
      assert regs + [] == regs;
      TreeCoveredAfter(regs, [], Root(ts));
    }
  }

  lemma SliceCovered(ts: seq<Token>, lo: nat, hi: nat, regs: seq<ConstExpr>)
    requires Covered(ts, regs) && lo <= hi <= |ts|
    ensures Covered(ts[lo..hi], regs)
  {
    forall t, v | t in ts[lo..hi] && !t.Var? && v in Vars(t) ensures v in regs {
      assert t in ts;
    }
  }

  /** Replacing the span `l..r` by a covered token keeps the list covered. */
  lemma SpliceCovered(ts: seq<Token>, l: nat, r: nat, x: Token, regs: seq<ConstExpr>, more: seq<ConstExpr>)
    requires Covered(ts, regs) && l < r < |ts|
    requires forall v :: v in Vars(x) ==> v in regs + more
    ensures Covered(ts[..l] + [x] + ts[r + 1..], regs + more)
  {
    var next := ts[..l] + [x] + ts[r + 1..];
    forall t, v | t in next && !t.Var? && v in Vars(t) ensures v in regs + more {
      if t != x {
        assert t in ts[..l] || t in ts[r + 1..];
        assert t in ts;
      }
    }
  }

  /** A round whose pair is `(l, r)` and whose inner parse succeeds splices the result in. */
  lemma ParenRoundOk(ts: seq<Token>, l: nat, r: nat, sub: Run<Token>)
    requires FindBracesSpec(ts) == Some((l, r)) && sub == CreateAstSpec(ts[l + 1..r]) && sub.res.Ok?
    ensures ParenRound(ts) == Run(Ok(ts[..l] + [sub.res.value] + ts[r + 1..]), sub.regs)
  {
    var pair := FindBracesSpec(ts);
    assert pair.value.0 == l && pair.value.1 == r;
  }

  /** A round whose pair is `(l, r)` and whose inner parse fails fails. */
  lemma ParenRoundFails(ts: seq<Token>, l: nat, r: nat)
    requires FindBracesSpec(ts) == Some((l, r)) && CreateAstSpec(ts[l + 1..r]).res.Raise?
    ensures ParenRound(ts).res.Raise?
  {
    var pair := FindBracesSpec(ts);
    assert pair.value.0 == l && pair.value.1 == r;
  }

  lemma {:induction false} ParenRoundCovers(ts: seq<Token>, regs: seq<ConstExpr>)
    requires Covered(ts, regs)
    ensures var n := ParenRound(ts); n.res.Ok? ==> Covered(n.res.value, regs + n.regs)
    decreases |ts|, 1
  {
    var pair := FindBracesSpec(ts);
    if pair.Some? {
      ParenPairCovers(ts, pair.value.0, pair.value.1, regs);
    }
  }

  lemma {:induction false} ParenPairCovers(ts: seq<Token>, l: nat, r: nat, regs: seq<ConstExpr>)
    requires Covered(ts, regs) && FindBracesSpec(ts) == Some((l, r))
    ensures var n := ParenRound(ts); n.res.Ok? ==> Covered(n.res.value, regs + n.regs)
    decreases |ts|, 0
  {
    var inner := ts[l + 1..r];
    var sub := CreateAstSpec(inner);
    if sub.res.Ok? {
      SliceCovered(ts, l + 1, r, regs);
      CreateAstCovers(inner, regs);
      ParenRoundOk(ts, l, r, sub);
      SpliceCovered(ts, l, r, sub.res.value, regs, sub.regs);
    } else {
      ParenRoundFails(ts, l, r);
    }
  }

  lemma {:induction false} ResolveParensCovers(ts: seq<Token>, regs: seq<ConstExpr>)
    requires Covered(ts, regs)
    ensures var n := ResolveParens(ts); n.res.Ok? ==> Covered(n.res.value, regs + n.regs)
    decreases |ts|, 2
  {
    if Count(ts, '(') == 0 {
      assert regs + [] == regs;
    } else {
      var p := ParenRound(ts);
      if p.res.Ok? {
        ResolveParensRound(ts);
        ParenRoundCovers(ts, regs);
        ResolveParensCovers(p.res.value, regs + p.regs);
        CoveredAfter(regs, p.regs, ResolveParens(p.res.value));
      }
    }
  }

  lemma {:induction false} CreateAstCovers(ts: seq<Token>, regs: seq<ConstExpr>)
    requires Covered(ts, regs)
    ensures TreeCovered(CreateAstSpec(ts), regs)
    decreases |ts|, 3
  {
    if |ts| > 0 {
      var p := ResolveParens(ts);
      if p.res.Ok? {
        CreateAstParens(ts);
        ResolveParensCovers(ts, regs);
        FinishFromCovers(0, p.res.value, regs + p.regs);
        TreeCoveredAfter(regs, p.regs, FinishFrom(0, p.res.value));
      }
    }
  }

  /** After `create_ast` on lexer output, every variable object of the tree is in `objs`, and a
      consistent (complete) register stays consistent (complete). */
  lemma TreeVarsRegistered(s: RegState, ts: seq<Token>)
    requires Lexed(ts)
    ensures var n := CreateAstSpec(ts);
      n.res.Ok? ==> forall v :: v in Vars(n.res.value) ==> v in EnrollAll(s, n.regs).objs
    ensures Consistent(s) ==> Consistent(EnrollAll(s, CreateAstSpec(ts).regs))
    ensures Consistent(s) && Complete(s) ==> Complete(EnrollAll(s, CreateAstSpec(ts).regs))
  {
    var n := CreateAstSpec(ts);
    LexedCovered(ts);
    CreateAstCovers(ts, []);
    assert [] + n.regs == n.regs;
    EnrollAllObjs(s, n.regs);
    if Consistent(s) {
      EnrollAllKeeps(s, n.regs);
    }
  }

  // ---------------------------------------------------------------- worked examples

  lemma {:induction false} NotsIdle(ts: seq<Token>, i: nat, stop: int)
    requires Raw('!') !in ts && stop <= |ts|
    ensures NotsFrom(ts, i, stop) == Run(Ok(ts), [])
    decreases stop - i
  {
    if i < stop {
      assert ts[i] != Raw('!');
      NotsIdle(ts, i + 1, stop);
    }
  }

  lemma LeftsIdle(op: BinOp, c: char, ts: seq<Token>)
    requires Raw(c) !in ts
    ensures Lefts(op, c, ts) == Run(Ok(ts), [])
  {
  }

  lemma RightsIdle(ts: seq<Token>)
    requires Raw('$') !in ts
    ensures Rights(ts) == Run(Ok(ts), [])
  {
  }

  /** The operator character of stage `k`. */
  function OpChar(k: nat): char
  {
    if k == 0 then '!' else if k == 1 then '*' else if k == 2 then '+'
    else if k == 3 then '^' else if k == 4 then '$' else '#'
  }

  /** A stage on a list without its operator character leaves the list as it is. */
  lemma StageQuiet(k: nat, ts: seq<Token>)
    requires k < StageCount && Raw(OpChar(k)) !in ts
    ensures Stage(k, ts) == Run(Ok(ts), [])
  {
    if k == 0 {
      NotsIdle(ts, 0, |ts| - Count(ts, '!'));
    } else if k == 4 {
      RightsIdle(ts);
    } else if k == 1 {
      LeftsIdle(AndOp, '*', ts);
    } else if k == 2 {
      LeftsIdle(OrOp, '+', ts);
    } else if k == 3 {
      LeftsIdle(XorOp, '^', ts);
    } else {
      LeftsIdle(EquivOp, '#', ts);
    }
  }

  /** A stage that succeeds hands its list to the next one. */
  lemma StageThrough(k: nat, ts: seq<Token>, xs: seq<Token>, regs: seq<ConstExpr>)
    requires k < StageCount && Stage(k, ts) == Run(Ok(xs), regs)
    ensures StagesFrom(k, ts) == After(regs, StagesFrom(k + 1, xs))
  {
  }

  /** A stage that leaves the list as it is can be skipped. */
  lemma StageSkip(k: nat, ts: seq<Token>)
    requires k < StageCount && Stage(k, ts) == Run(Ok(ts), [])
    ensures StagesFrom(k, ts) == StagesFrom(k + 1, ts)
  {
    StageThrough(k, ts, ts, []);
    var rest := StagesFrom(k + 1, ts);
    assert [] + rest.regs == rest.regs;
  }

  /** The stages from `k` on do nothing on a list without their operator characters. */
  lemma {:induction false} StagesIdle(k: nat, ts: seq<Token>)
    requires forall j :: k <= j < StageCount ==> Raw(OpChar(j)) !in ts
    ensures StagesFrom(k, ts) == Run(Ok(ts), [])
    decreases StageCount - k
  {
    if k < StageCount {
      StageQuiet(k, ts);
      StageSkip(k, ts);
      StagesIdle(k + 1, ts);
    }
  }

  lemma NoParens(ts: seq<Token>)
    requires Raw('(') !in ts
    ensures ResolveParens(ts) == Run(Ok(ts), [])
  {
  }

  /** `create_ast` of a list without parentheses: the stages, then the first token left. */
  lemma CreateAstOf(ts: seq<Token>, xs: seq<Token>, regs: seq<ConstExpr>)
    requires |ts| > 0 && Raw('(') !in ts && StagesFrom(0, ts) == Run(Ok(xs), regs) && |xs| > 0
    ensures CreateAstSpec(ts) == Run(Ok(Tree(xs[0])), regs + Bare([xs[0]]))
  {
    NoParens(ts);
    CreateAstParens(ts);
    assert PyGet(xs, 0) == Ok(xs[0]);
    assert Root(xs) == Run(Ok(Tree(xs[0])), Bare([xs[0]]));
    assert [] + (regs + Bare([xs[0]])) == regs + Bare([xs[0]]);
  }

  /** The stages before `$` do nothing on a list holding none of `! * + ^`. */
  lemma EarlyStagesIdle(ts: seq<Token>)
    requires Raw('!') !in ts && Raw('*') !in ts && Raw('+') !in ts && Raw('^') !in ts
    ensures StagesFrom(0, ts) == StagesFrom(4, ts)
  {
    StageQuiet(0, ts);
    StageSkip(0, ts);
    StageQuiet(1, ts);
    StageSkip(1, ts);
    StageQuiet(2, ts);
    StageSkip(2, ts);
    StageQuiet(3, ts);
    StageSkip(3, ts);
  }

  lemma StageAnd(ts: seq<Token>)
    ensures Stage(1, ts) == Lefts(AndOp, '*', ts)
  {
  }

  lemma StageRights(ts: seq<Token>)
    ensures Stage(4, ts) == Rights(ts)
  {
  }

  lemma ImplFoldInner(a: ConstExpr, b: ConstExpr, c: ConstExpr)
    ensures var inner := BinNode(ImplOp, Var(b), Var(c));
      FoldAt(ImplOp, [Var(a), Raw('$'), Var(b), Raw('$'), Var(c)], 3) == Run(Ok([Var(a), Raw('$'), inner]), [b, c])
  {
    var ts := [Var(a), Raw('$'), Var(b), Raw('$'), Var(c)];
    var inner := BinNode(ImplOp, Var(b), Var(c));
    ReplaceInRange(ts, 2, 5, inner);
    assert ts[..2] + [inner] + ts[5..] == [Var(a), Raw('$'), inner];
    BarePair(Var(b), Var(c));
    BarePair(Var(c), Var(c));
  }
  lemma ImplFoldOuter(a: ConstExpr, inner: Token)
    requires !inner.Var?
    ensures FoldAt(ImplOp, [Var(a), Raw('$'), inner], 1) == Run(Ok([BinNode(ImplOp, Var(a), inner)]), [a])
  {
    var ts2 := [Var(a), Raw('$'), inner];
    var outer := BinNode(ImplOp, Var(a), inner);
    ReplaceInRange(ts2, 0, 3, outer);
    assert ts2[..0] + [outer] + ts2[3..] == [outer];
    BarePair(Var(a), inner);
    BarePair(inner, inner);
  }
  /** The `'$'` loop over `A$B$C` folds `B$C` first ... */
  lemma ImplRightInner(a: ConstExpr, b: ConstExpr, c: ConstExpr)
    ensures Rights([Var(a), Raw('$'), Var(b), Raw('$'), Var(c)])
      == After([b, c], RightFrom([Var(a), Raw('$'), BinNode(ImplOp, Var(b), Var(c))], 2))
  {
    var ts := [Var(a), Raw('$'), Var(b), Raw('$'), Var(c)];
    assert ts[3] == Raw('$') && |ts| - 1 == 4;
    RightFromAt(ts, 4);
    RightFromAt(ts, 3);
    ImplFoldInner(a, b, c);
  }
  /** ... then `A$(B$C)`. */
  lemma ImplRightOuter(a: ConstExpr, inner: Token)
    requires !inner.Var? && inner != Raw('$')
    ensures RightFrom([Var(a), Raw('$'), inner], 2) == Run(Ok([BinNode(ImplOp, Var(a), inner)]), [a])
  {
    var ts2 := [Var(a), Raw('$'), inner];
    var outer := BinNode(ImplOp, Var(a), inner);
    assert ts2[1] == Raw('$');
    RightFromAt(ts2, 2);
    RightFromAt(ts2, 1);
    ImplFoldOuter(a, inner);
    assert Raw('$') !in [outer];
    assert RightFrom([outer], 0) == Run(Ok([outer]), []);
    assert [a] + [] == [a];
  }
  lemma ImplStage(a: ConstExpr, b: ConstExpr, c: ConstExpr)
    ensures Rights([Var(a), Raw('$'), Var(b), Raw('$'), Var(c)]) ==
      Run(Ok([BinNode(ImplOp, Var(a), BinNode(ImplOp, Var(b), Var(c)))]), [b, c, a])
  {
    var inner := BinNode(ImplOp, Var(b), Var(c));
    ImplRightInner(a, b, c);
    ImplRightOuter(a, inner);
    AfterOk([b, c], [BinNode(ImplOp, Var(a), inner)], [a], [b, c, a]);
  }

  lemma ImplStages(a: ConstExpr, b: ConstExpr, c: ConstExpr)
    ensures StagesFrom(0, [Var(a), Raw('$'), Var(b), Raw('$'), Var(c)]) ==
      Run(Ok([BinNode(ImplOp, Var(a), BinNode(ImplOp, Var(b), Var(c)))]), [b, c, a])
  {
    var ts := [Var(a), Raw('$'), Var(b), Raw('$'), Var(c)];
    var outer := BinNode(ImplOp, Var(a), BinNode(ImplOp, Var(b), Var(c)));
    EarlyStagesIdle(ts);
    StageRights(ts);
    ImplStage(a, b, c);
    StageThrough(4, ts, [outer], [b, c, a]);
    StagesIdle(5, [outer]);
    AfterOk([b, c, a], [outer], [], [b, c, a]);
  }

  /** `A$B$C` is `A -> (B -> C)`: the implication loop runs from the right. B and C are
      registered before A. */
  lemma ImplicationNestsRight(a: ConstExpr, b: ConstExpr, c: ConstExpr)
    ensures CreateAstSpec([Var(a), Raw('$'), Var(b), Raw('$'), Var(c)]) ==
      Run(Ok(Tree(BinNode(ImplOp, Var(a), BinNode(ImplOp, Var(b), Var(c))))), [b, c, a])
  {
    var outer := BinNode(ImplOp, Var(a), BinNode(ImplOp, Var(b), Var(c)));
    ImplStages(a, b, c);
    CreateAstOf([Var(a), Raw('$'), Var(b), Raw('$'), Var(c)], [outer], [b, c, a]);
    BarePair(outer, outer);
    assert [b, c, a] + [] == [b, c, a];
  }

  /** `A*`: the loop bound `len - 2*count` stops before the trailing `*`, which is left in the
      list, and the root is A. */
  lemma TrailingOperatorIgnored(a: ConstExpr)
    ensures CreateAstSpec([Var(a), Raw('*')]) == Run(Ok(Tree(Var(a))), [a])
  {
    var ts := [Var(a), Raw('*')];
    StageQuiet(0, ts);
    StageSkip(0, ts);
    StageAnd(ts);
    assert |ts| - 2 * Count(ts, '*') == 0;
    LeftFromAt(AndOp, '*', ts, 0, 0);
    assert Stage(1, ts) == Run(Ok(ts), []);
    StageSkip(1, ts);
    StagesIdle(2, ts);
    CreateAstOf(ts, ts, []);
    BarePair(Var(a), Var(a));
  }

  /** `(A+B`: a `'('` with no `')'` after it makes `find_braces` return None: TypeError. */
  lemma UnmatchedParenthesis(a: ConstExpr, b: ConstExpr)
    ensures CreateAstSpec([Raw('('), Var(a), Raw('+'), Var(b)]) == Run(Raise("TypeError"), [])
  {
    var ts := [Raw('('), Var(a), Raw('+'), Var(b)];
    assert FirstClose(ts, 1) == None;
    assert BracesBelow(ts, 1) == None;
    assert BracesBelow(ts, 2) == None;
    assert BracesBelow(ts, 3) == None;
    assert BracesBelow(ts, 4) == None;
    assert ParenRound(ts) == Run(Raise("TypeError"), []);
  }
  lemma AndFoldFirst(a: ConstExpr, b: ConstExpr, c: ConstExpr)
    ensures FoldAt(AndOp, [Var(a), Raw('*'), Var(b), Raw('*'), Var(c)], 1)
      == Run(Ok([BinNode(AndOp, Var(a), Var(b)), Raw('*'), Var(c)]), [a, b])
  {
    var ts := [Var(a), Raw('*'), Var(b), Raw('*'), Var(c)];
    var n1 := BinNode(AndOp, Var(a), Var(b));
    ReplaceInRange(ts, 0, 3, n1);
    assert ts[..0] + [n1] + ts[3..] == [n1, Raw('*'), Var(c)];
    BarePair(Var(a), Var(b));
    BarePair(Var(b), Var(b));
  }
  lemma AndFoldSecond(n1: Token, c: ConstExpr)
    requires !n1.Var?
    ensures FoldAt(AndOp, [n1, Raw('*'), Var(c)], 1) == Run(Ok([BinNode(AndOp, n1, Var(c))]), [c])
  {
    var ts := [n1, Raw('*'), Var(c)];
    var n2 := BinNode(AndOp, n1, Var(c));
    ReplaceInRange(ts, 0, 3, n2);
    assert ts[..0] + [n2] + ts[3..] == [n2];
    BarePair(n1, Var(c));
    BarePair(Var(c), Var(c));
  }
  /** The `*` loop over `[A*B, '*', C]` ... */
  lemma AndLeftOuter(n1: Token, c: ConstExpr)
    requires !n1.Var? && n1 != Raw('*')
    ensures LeftFrom(AndOp, '*', [n1, Raw('*'), Var(c)], 1, 1) == Run(Ok([BinNode(AndOp, n1, Var(c))]), [c])
  {
    var ts1 := [n1, Raw('*'), Var(c)];
    var n2 := BinNode(AndOp, n1, Var(c));
    assert Count(ts1, '*') != 0 by {
      assert ts1[1..][0] == Raw('*');
    }
    AndFoldSecond(n1, c);
    LeftFold(AndOp, '*', ts1, 1, 1, [n2], [c]);
    assert Raw('*') !in [n2];
    assert LeftFrom(AndOp, '*', [n2], 1, 1) == Run(Ok([n2]), []);
    assert [c] + [] == [c];
  }

  lemma AndCount(a: ConstExpr, b: ConstExpr, c: ConstExpr)
    ensures Count([Var(a), Raw('*'), Var(b), Raw('*'), Var(c)], '*') == 2
  {
    var ts := [Var(a), Raw('*'), Var(b), Raw('*'), Var(c)];
    var t1, t2, t3, t4 := ts[1..], ts[2..], ts[3..], ts[4..];
    assert t4[1..] == [] && Count(t4, '*') == 0;
    assert t3[1..] == t4 && Count(t3, '*') == 1;
    assert t2[1..] == t3 && Count(t2, '*') == 1;
    assert t1[1..] == t2 && Count(t1, '*') == 2;
  }

  lemma AndStage(a: ConstExpr, b: ConstExpr, c: ConstExpr)
    ensures Lefts(AndOp, '*', [Var(a), Raw('*'), Var(b), Raw('*'), Var(c)]) ==
      Run(Ok([BinNode(AndOp, BinNode(AndOp, Var(a), Var(b)), Var(c))]), [a, b, c])
  {
    var ts := [Var(a), Raw('*'), Var(b), Raw('*'), Var(c)];
    var n1 := BinNode(AndOp, Var(a), Var(b));
    var n2 := BinNode(AndOp, n1, Var(c));
    AndCount(a, b, c);
    LeftsFrom(AndOp, '*', ts, 1);
    LeftSkip(AndOp, '*', ts, 0, 1);
    AndFoldFirst(a, b, c);
    LeftFold(AndOp, '*', ts, 1, 1, [n1, Raw('*'), Var(c)], [a, b]);
    AndLeftOuter(n1, c);
    AfterOk([a, b], [n2], [c], [a, b, c]);
  }

  lemma AndStages(a: ConstExpr, b: ConstExpr, c: ConstExpr)
    ensures StagesFrom(0, [Var(a), Raw('*'), Var(b), Raw('*'), Var(c)]) ==
      Run(Ok([BinNode(AndOp, BinNode(AndOp, Var(a), Var(b)), Var(c))]), [a, b, c])
  {
    var ts := [Var(a), Raw('*'), Var(b), Raw('*'), Var(c)];
    var n2 := BinNode(AndOp, BinNode(AndOp, Var(a), Var(b)), Var(c));
    StageQuiet(0, ts);
    StageSkip(0, ts);
    StageAnd(ts);
    AndStage(a, b, c);
    StageThrough(1, ts, [n2], [a, b, c]);
    StagesIdle(2, [n2]);
    AfterOk([a, b, c], [n2], [], [a, b, c]);
  }

  /** `A*B*C` is `(A*B)*C`: after a fold the loop index stays on the next operator. A, B
      and C are registered in that order. */
  lemma ConjunctionNestsLeft(a: ConstExpr, b: ConstExpr, c: ConstExpr)
    ensures CreateAstSpec([Var(a), Raw('*'), Var(b), Raw('*'), Var(c)]) ==
      Run(Ok(Tree(BinNode(AndOp, BinNode(AndOp, Var(a), Var(b)), Var(c)))), [a, b, c])
  {
    var n2 := BinNode(AndOp, BinNode(AndOp, Var(a), Var(b)), Var(c));
    AndStages(a, b, c);
    CreateAstOf([Var(a), Raw('*'), Var(b), Raw('*'), Var(c)], [n2], [a, b, c]);
    BarePair(n2, n2);
    assert [a, b, c] + [] == [a, b, c];
  }
}
