/**
 * The constructors of the expression nodes (tools/logical_evaluator/logic.py): besides building
 * the node, each one registers the children that are bare variables with the register, left
 * child before right child.
 */
module Nodes {
  import opened Logic
  import opened Registry

  /** The children a constructor registers: the ones that are bare `ConstExpr`s, in order. */
  function Bare(ts: seq<Token>): (vs: seq<ConstExpr>)
    ensures forall k :: 0 <= k < |ts| && ts[k].Var? ==> ts[k].v in vs
    ensures forall i :: 0 <= i < |vs| ==> Var(vs[i]) in ts
  {
    if ts == [] then []
    else
      var rest := Bare(ts[1..]);
      assert forall i :: 0 <= i < |rest| ==> Var(rest[i]) in ts by {
        forall i | 0 <= i < |rest| ensures Var(rest[i]) in ts { assert Var(rest[i]) in ts[1..]; }
      }
      (if ts[0].Var? then [ts[0].v] else []) + rest
  }

  lemma BarePair(l: Token, r: Token)
    ensures Bare([l]) == if l.Var? then [l.v] else []
    ensures Bare([l, r]) == Bare([l]) + Bare([r])
  {
    assert [l][1..] == [];
    assert [l, r][1..] == [r];
  }

  /** `reg.objs.append(v)` and `reg.add_constant_expr(v.symbol)` for a bare variable child. */
  method Enlist(reg: Register, t: Token)
    modifies reg
    ensures reg.State() == EnrollAll(old(reg.State()), Bare([t]))
  {
    if t.Var? {
      reg.objs := reg.objs + [t.v];
      reg.AddConstantExpr(t.v.symbol);
    }
  }

  /** `Not(e)` */
  method NewNot(reg: Register, e: Token) returns (t: Token)
    modifies reg
    ensures t == NotNode(e)
    ensures reg.State() == EnrollAll(old(reg.State()), Bare([e]))
  {
    Enlist(reg, e);
    t := NotNode(e);
  }

  /** `And(l, r)`, `Or(l, r)`, `Xor(l, r)`, `Implication(l, r)`, `Equivalence(l, r)` */
  method NewBinary(reg: Register, op: BinOp, l: Token, r: Token) returns (t: Token)
    modifies reg
    ensures t == BinNode(op, l, r)
    ensures reg.State() == EnrollAll(old(reg.State()), Bare([l, r]))
  {
    Enlist(reg, l);
    Enlist(reg, r);
    BarePair(l, r);
    EnrollAllAppend(old(reg.State()), Bare([l]), Bare([r]));
    t := BinNode(op, l, r);
  }

  /** `AbstractSyntaxTree(e)`, and equally `tree.set_expr(e)` on a tree that holds None: the
      wrapper takes `e` and registers it when it is a bare variable. */
  method NewTree(reg: Register, e: Token) returns (t: Token)
    modifies reg
    ensures t == Tree(e)
    ensures reg.State() == EnrollAll(old(reg.State()), Bare([e]))
  {
    Enlist(reg, e);
    t := Tree(e);
  }

  /** A register kept by node construction alone stays consistent and complete, and its objects
      are the old ones followed by the registered children. */
  lemma ConstructionKeeps(s: RegState, ts: seq<Token>)
    requires Consistent(s)
    ensures Consistent(EnrollAll(s, Bare(ts)))
    ensures Complete(s) ==> Complete(EnrollAll(s, Bare(ts)))
    ensures EnrollAll(s, Bare(ts)).objs == s.objs + Bare(ts)
  {
    EnrollAllKeeps(s, Bare(ts));
    EnrollAllObjs(s, Bare(ts));
  }
}
