/**
 * The truth table of the logical evaluator (tools/logical_evaluator/truth_table.py).
 *
 * `generate` enumerates the rows in counting order: row `i` holds the binary digits of `i`,
 * column 0 the most significant, and each row's value is what the tree evaluates to after the
 * register has loaded the row into the variable objects. `simplify` hands the rows whose value
 * is true, as products of literals, to the two minimisers.
 */
module TruthTables {
  import opened Types
  import opened Logic
  import opened Registry
  import opened Terms
  import Sast
  import SastFacts
  import Extended
  import PyStr

  // ---------------------------------------------------------------- counting in binary

  /** The binary digits of `i` on `n` columns, column 0 the most significant. */
  function Bits(n: nat, i: nat): (b: seq<bool>)
    ensures |b| == n
  {
    seq(n, j requires 0 <= j < n => (i / PyStr.Pow2(n - 1 - j)) % 2 == 1)
  }

  /** The number a row spells, column 0 the most significant. */
  function ToNat(b: seq<bool>): nat
  {
    if b == [] then 0 else (if b[0] then PyStr.Pow2(|b| - 1) else 0) + ToNat(b[1..])
  }

  /** Counting from `i - 1` to `i` flips the digit of weight `m` exactly when `m` divides `i`. */
  lemma DigitStep(i: nat, m: nat)
    requires i >= 1 && m >= 1
    ensures ((i / m) % 2 == 1) <==> ((((i - 1) / m) % 2 == 1) != (i % m == 0))
  {
    var q, r := (i - 1) / m, (i - 1) % m;
    assert i - 1 == q * m + r;
    if r == m - 1 {
      assert i == (q + 1) * m + 0;
      PyStr.DivModUnique(i, m, q + 1, 0);
    } else {
      assert i == q * m + (r + 1);
      PyStr.DivModUnique(i, m, q, r + 1);
    }
  }

  /** Column `j` of row `i`. */
  lemma BitAt(n: nat, i: nat, j: nat)
    requires j < n
    ensures Bits(n, i)[j] == ((i / PyStr.Pow2(n - 1 - j)) % 2 == 1)
  {
  }

  /** The inner loop of `generate` turns row `i - 1` into row `i`: column `j` flips exactly when
      `pow(2, n - j - 1)` divides `i`. */
  lemma BitsStep(n: nat, i: nat, j: nat)
    requires i >= 1 && j < n
    ensures Bits(n, i)[j] == (Bits(n, i - 1)[j] != (i % PyStr.Pow2(n - j - 1) == 0))
  {
    BitAt(n, i, j);
    BitAt(n, i - 1, j);
    DigitStep(i, PyStr.Pow2(n - 1 - j));
  }

  /** Row 0 is all false. */
  lemma BitsZero(n: nat)
    ensures Bits(n, 0) == Sast.Falses(n)
  {
    forall j | 0 <= j < n ensures Bits(n, 0)[j] == false {
      BitAt(n, 0, j);
    }
  }

  /** Adding a multiple of `2 * e` to a number does not change the parity of its quotient by
      `e`. */
  lemma EvenShift(i: int, a: nat, big: int, r: int, e: int, h: nat)
    requires e >= 1 && big == 2 * h * e && 0 <= r < big && i == a * big + r
    ensures (i / e) % 2 == (r / e) % 2
  {
    var m := a * h;
    assert a * big == 2 * m * e by {
      assert a * big == a * (2 * h * e);
    }
    PyStr.DivModUnique(i, e, 2 * m + r / e, r % e);
    PyStr.DivModUnique(2 * m + r / e, 2, m + (r / e) / 2, (r / e) % 2);
  }

  /** Column `j >= 1` of row `i` on `n` columns is column `j - 1` of the remainder's row. */
  lemma BitsTailAt(n: nat, i: nat, j: nat, a: nat)
    requires 1 <= j < n && a <= 1
    requires a * PyStr.Pow2(n - 1) <= i < (a + 1) * PyStr.Pow2(n - 1)
    ensures Bits(n, i)[j] == Bits(n - 1, i - a * PyStr.Pow2(n - 1))[j - 1]
  {
    var big, e := PyStr.Pow2(n - 1), PyStr.Pow2(n - 1 - j);
    var r := i - a * big;
    BitAt(n, i, j);
    BitAt(n - 1, r, j - 1);
    assert n - 1 - 1 - (j - 1) == n - 1 - j;
    PyStr.Pow2Add(j, n - 1 - j);
    assert j == (j - 1) + 1;
    assert PyStr.Pow2(j) == 2 * PyStr.Pow2(j - 1);
    EvenShift(i, a, big, r, e, PyStr.Pow2(j - 1));
  }

  /** Dropping the most significant column of a row below `2^n` leaves the row of the
      remainder. */
  lemma BitsTail(n: nat, i: nat)
    requires 1 <= n && i < PyStr.Pow2(n)
    ensures Bits(n, i)[0] == (i >= PyStr.Pow2(n - 1))
    ensures Bits(n, i)[1..] == Bits(n - 1, i % PyStr.Pow2(n - 1))
  {
    var big := PyStr.Pow2(n - 1);
    assert PyStr.Pow2(n) == 2 * big;
    var a := if i >= big then 1 else 0;
    PyStr.DivModUnique(i, big, a, i - a * big);
    forall j | 1 <= j < n
      ensures Bits(n, i)[j] == Bits(n - 1, i % big)[j - 1]
    {
      BitsTailAt(n, i, j, a);
    }
  }

  /** Row `i` spells `i`. */
  lemma {:induction false} ToNatBits(n: nat, i: nat)
    requires i < PyStr.Pow2(n)
    ensures ToNat(Bits(n, i)) == i
    decreases n
  {
    if n > 0 {
      var b := Bits(n, i);
      var big := PyStr.Pow2(n - 1);
      BitsTail(n, i);
      var a := if i >= big then 1 else 0;
      assert i == a * big + (i - a * big);
      PyStr.DivModUnique(i, big, a, i - a * big);
      ToNatBits(n - 1, i % big);
      assert ToNat(b) == (if b[0] then big else 0) + ToNat(b[1..]);
    }
  }

  /** The rows of a table are all different. */
  lemma BitsInjective(n: nat, i: nat, k: nat)
    requires i < PyStr.Pow2(n) && k < PyStr.Pow2(n) && Bits(n, i) == Bits(n, k)
    ensures i == k
  {
    ToNatBits(n, i);
    ToNatBits(n, k);
  }

  /** Flipping column `j` moves the number by the column's weight. */
  lemma {:induction false} ToNatFlip(b: seq<bool>, j: nat)
    requires j < |b|
    ensures ToNat(b[j := !b[j]]) == if b[j] then ToNat(b) - PyStr.Pow2(|b| - j - 1) else ToNat(b) + PyStr.Pow2(|b| - j - 1)
    decreases j
  {
    var f := b[j := !b[j]];
    if j > 0 {
      assert f[1..] == b[1..][j - 1 := !b[1..][j - 1]];
      ToNatFlip(b[1..], j - 1);
    } else {
      assert f[1..] == b[1..];
    }
  }

  /** Row `i` with a fixed starting vector folded in: the table counts from `start` on, and the
      first call of `generate` starts from all false. */
  function RowOf(start: seq<bool>, i: nat): (r: seq<bool>)
    ensures |r| == |start|
  {
    seq(|start|, j requires 0 <= j < |start| => start[j] != Bits(|start|, i)[j])
  }

  // ---------------------------------------------------------------- rows

  /** The assignment a loaded row gives the letters: each letter gets its column, a letter the
      register does not know gets false. */
  function RowEnv(es: seq<Entry>, ls: seq<bool>): char -> bool
    requires |ls| == |es|
  {
    c => RowValue(es, ls, c)
  }

  /** The literals of the columns `str` shows: the letter, negated where the row is false. */
  function Shown(literals: seq<char>, ls: seq<bool>, simplified: seq<bool>): (ps: seq<CE>)
    requires |literals| <= |ls| && |literals| <= |simplified|
    decreases |literals|
  {
    if literals == [] then []
    else
      var n := |literals| - 1;
      Shown(literals[..n], ls, simplified) + (if simplified[n] then [] else [CE(literals[n], !ls[n])])
  }

  /** One row of the table. `ls` is a copy of the vector taken when the row was made, so later
      changes to the table's vector do not reach it. */
  class TruthTableRow {
    const literals: seq<char>
    const ls: seq<bool>
    const value: bool
    var simplified: seq<bool>

    constructor(ls: seq<bool>, value: bool, literals: seq<char>)
      ensures this.literals == literals && this.ls == ls && this.value == value
      ensures simplified == Sast.Falses(|literals|)
    {
      this.literals := literals;
      this.ls := ls;
      this.value := value;
      simplified := Sast.Falses(|literals|);
    }

    /** `get_index_for_tt(index, tt_index)` */
    function GetIndexForTt(index: nat, ttIndex: int): int
      requires index < |ls| && index < |literals|
    {
      if ls[index] then ttIndex - PyStr.Pow2(|literals| - index - 1) else ttIndex + PyStr.Pow2(|literals| - index - 1)
    }

    /** `delete_index(index)`: the column is only marked, the row keeps its vector. */
    method DeleteIndex(index: nat)
      requires index < |simplified|
      modifies this
      ensures simplified == old(simplified)[index := true]
    {
      simplified := simplified[index := true];
    }

    /** `str()` */
    method Str() returns (s: string)
      requires |literals| <= |ls| && |literals| <= |simplified|
      ensures s == PyStr.Join(LitStrs(Shown(literals, ls, simplified)), "*")
    {
      var result: seq<string> := [];
      var i := 0;
      while i < |literals|
        invariant 0 <= i <= |literals|
        invariant result == LitStrs(Shown(literals[..i], ls, simplified))
      {
        assert literals[..i + 1][..i] == literals[..i];
        assert Shown(literals[..i + 1], ls, simplified)
          == Shown(literals[..i], ls, simplified) + (if simplified[i] then [] else [CE(literals[i], !ls[i])]);
        if !simplified[i] {
          assert LitStr(CE(literals[i], !ls[i])) == if ls[i] then [literals[i]] else "!" + [literals[i]];
          LitStrsAppend(Shown(literals[..i], ls, simplified), CE(literals[i], !ls[i]));
          result := result + [if ls[i] then [literals[i]] else "!" + [literals[i]]];
        }
        i := i + 1;
      }
      assert literals[..i] == literals;
      s := PyStr.Join(result, "*");
    }
  }

  lemma LitStrsAppend(ps: seq<CE>, c: CE)
    ensures LitStrs(ps + [c]) == LitStrs(ps) + [LitStr(c)]
  {
  }

  /** `get_index_for_tt(index, i)` on the row that spells `i` is the number of the row that
      differs from it in column `index` alone. */
  lemma GetIndexForTtFlips(row: TruthTableRow, index: nat)
    requires |row.ls| == |row.literals| && index < |row.ls|
    ensures row.GetIndexForTt(index, ToNat(row.ls)) == ToNat(row.ls[index := !row.ls[index]])
  {
    ToNatFlip(row.ls, index);
  }

  /** Equal renderings of literals over letters are equal literals. */
  lemma {:induction false} LitStrsInjective(ps: seq<CE>, qs: seq<CE>)
    requires LitStrs(ps) == LitStrs(qs)
    ensures ps == qs
  {
    forall k | 0 <= k < |ps| ensures ps[k] == qs[k] {
      assert LitStr(ps[k]) == LitStrs(ps)[k] == LitStrs(qs)[k] == LitStr(qs[k]);
      assert Decode(LitStr(ps[k])) == Some(ps[k]);
    }
  }

  /** `generateAnd(row.str())` gives back the product of the literals `str` shows. */
  lemma StrParsesBack(literals: seq<char>, ls: seq<bool>, simplified: seq<bool>)
    requires |literals| <= |ls| && |literals| <= |simplified|
    requires forall k :: 0 <= k < |literals| ==> PyStr.IsAlpha(literals[k])
    requires Shown(literals, ls, simplified) != []
    ensures GenerateAndSpec(PyStr.Join(LitStrs(Shown(literals, ls, simplified)), "*")) == Ok(And(Shown(literals, ls, simplified)))
  {
    var ps := Shown(literals, ls, simplified);
    ShownLettered(literals, ls, simplified);
    var xs := LitStrs(ps);
    forall k | 0 <= k < |xs| ensures '*' !in xs[k] { LitStrNoStar(ps[k]); }
    PyStr.SplitJoin(xs, '*');
    ParsePieces(ps, xs);
    LitStrsInjective(ParseLits(xs).value, ps);
  }

  lemma {:induction false} ShownLettered(literals: seq<char>, ls: seq<bool>, simplified: seq<bool>)
    requires |literals| <= |ls| && |literals| <= |simplified|
    requires forall k :: 0 <= k < |literals| ==> PyStr.IsAlpha(literals[k])
    ensures Lettered(Shown(literals, ls, simplified))
    decreases |literals|
  {
    if literals != [] {
      ShownLettered(literals[..|literals| - 1], ls, simplified);
    }
  }

  // ---------------------------------------------------------------- the table

  /** After `load_values(ls)` every registered object holds its letter's column, so every
      variable of a registered tree is bound to the row. */
  lemma LoadedBound(s: RegState, ls: seq<bool>, t: Token)
    requires Consistent(s) && Complete(s) && |ls| == |s.expressions|
    requires forall v :: v in Vars(t) ==> v in s.objs
    requires forall k, j :: 0 <= k < |s.expressions| && 0 <= j < |s.expressions[k].indexes| ==>
      s.objs[s.expressions[k].indexes[j]].value == ls[k]
    ensures BoundTo(t, RowEnv(s.expressions, ls))
  {
    var es := s.expressions;
    forall v | v in Vars(t) ensures v.value == RowEnv(es, ls)(v.symbol) {
      var i :| 0 <= i < |s.objs| && s.objs[i] == v;
      var p := KeyPos(es, v.symbol);
      assert p.Some? && i in es[p.value].indexes;
      var j :| 0 <= j < |es[p.value].indexes| && es[p.value].indexes[j] == i;
    }
  }

  /** The rows `generate` has added so far: row `k` counts `k` on from `start`, is labelled with
      the headers, and holds what the tree evaluates to on it. */
  predicate RowsFrom(added: seq<TruthTableRow>, headers: seq<char>, tree: Token, es: seq<Entry>, start: seq<bool>)
  {
    && |start| == |es|
    && forall k :: 0 <= k < |added| ==>
      added[k].ls == RowOf(start, k) && added[k].literals == headers
      && EvalIn(tree, RowEnv(es, added[k].ls)) == Some(added[k].value)
  }

  /** One more row, counting on from the rows already added, keeps them counting. */
  lemma RowsFromSnoc(added: seq<TruthTableRow>, row: TruthTableRow, headers: seq<char>, tree: Token,
                     es: seq<Entry>, start: seq<bool>)
    requires RowsFrom(added, headers, tree, es, start)
    requires row.ls == RowOf(start, |added|) && row.literals == headers
    requires EvalIn(tree, RowEnv(es, row.ls)) == Some(row.value)
    ensures RowsFrom(added + [row], headers, tree, es, start)
  {
  }

  /** The outcome of `simplify`: a string, the variable limit, or an exception of a minimiser. */
  datatype Verdict = Done(s: string) | TooLong | Failed(error: string)

  /** The sweeps pass 1 may take here; the source sweeps until nothing changes. */
  const SastSweeps := 1000

  /** `[i.value for i in rows]` */
  function Values(rows: seq<TruthTableRow>): (vs: seq<bool>)
    ensures |vs| == |rows| && forall k :: 0 <= k < |rows| ==> vs[k] == rows[k].value
  {
    seq(|rows|, k requires 0 <= k < |rows| => rows[k].value)
  }

  /** The product a row stands for: each header, negated where the row is false. */
  function Minterm(headers: seq<char>, ls: seq<bool>): (ps: seq<CE>)
    requires |headers| <= |ls|
    ensures |ps| == |headers| && forall j :: 0 <= j < |headers| ==> ps[j] == CE(headers[j], !ls[j])
  {
    seq(|headers|, j requires 0 <= j < |headers| => CE(headers[j], !ls[j]))
  }

  predicate Labelled(rows: seq<TruthTableRow>, headers: seq<char>)
  {
    forall k :: 0 <= k < |rows| ==> |headers| <= |rows[k].ls|
  }

  /** The terms `simplify` hands to `SAST`: one product per true row, in row order. */
  function Minterms(headers: seq<char>, rows: seq<TruthTableRow>): seq<Term>
    requires Labelled(rows, headers)
    decreases |rows|
  {
    if rows == [] then []
    else
      var n := |rows| - 1;
      Minterms(headers, rows[..n]) + (if rows[n].value then [And(Minterm(headers, rows[n].ls))] else [])
  }

  /** What `simplify` makes of the rows. */
  function SimplifyVerdict(headers: seq<char>, rows: seq<TruthTableRow>): Verdict
    requires Labelled(rows, headers)
  {
    var vs := Values(rows);
    if false !in vs then Done("1")
    else if true !in vs then Done("0")
    else if |headers| >= 7 then TooLong
    else
      var s := Sast.SimplifySpec(Minterms(headers, rows), SastSweeps);
      if s.Raise? then Failed(s.error)
      else
        var e := Extended.Es2Spec(false, s.value);
        if e.Raise? then Failed(e.error) else Done(e.value)
  }

  class TruthTable {
    const headers: seq<char>
    const ceCount: nat
    const objects: seq<ConstExpr>
    const tree: Token
    const boolValues: array<bool>
    var rows: seq<TruthTableRow>
    const data: seq<seq<bool>>
    var simplifiedStr: string
    const powered: nat
    var truthResult: Option<seq<bool>>

    /** The vector has one column per header, and so has every row. */
    predicate Valid()
      reads this
    {
      && boolValues.Length == ceCount == |headers|
      && powered == PyStr.Pow2(ceCount)
      && forall k :: 0 <= k < |rows| ==> |rows[k].ls| == ceCount && rows[k].literals == headers
    }

    constructor(headers: seq<char>, listByRef: seq<ConstExpr>, tree: Token)
      ensures this.headers == headers && ceCount == |headers| && objects == listByRef && this.tree == tree
      ensures fresh(boolValues) && boolValues[..] == Sast.Falses(|headers|)
      ensures rows == [] && data == [Sast.Falses(|headers|)] && simplifiedStr == "" && truthResult == None
      ensures Valid()
    {
      this.headers := headers;
      ceCount := |headers|;
      objects := listByRef;
      this.tree := tree;
      boolValues := new bool[|headers|](_ => false);
      rows := [];
      data := [Sast.Falses(|headers|)];
      simplifiedStr := "";
      powered := PyStr.Pow2(|headers|);
      truthResult := None;
    }

    /** `reg_global.load_values(self.bool_values)` followed by
        `self.rows.append(TruthTableRow(self.bool_values, self.tree.eval(), self.headers))`. */
    method Record(reg: Register, ghost start: seq<bool>, ghost i: nat) returns (st: Status)
      requires Valid() && Consistent(reg.State()) && Complete(reg.State())
      requires forall v :: v in Vars(tree) ==> v in reg.objs
      requires |start| == ceCount && boolValues[..] == RowOf(start, i)
      modifies this, set k | 0 <= k < |reg.objs| :: reg.objs[k]
      ensures Valid() && boolValues[..] == old(boolValues[..])
      ensures ceCount != |reg.expressions| ==> st == Failure("ValueError") && rows == old(rows)
      ensures ceCount == |reg.expressions| ==>
        var v := EvalIn(tree, RowEnv(reg.expressions, RowOf(start, i)));
        && (v.None? ==> st == Failure("AttributeError") && rows == old(rows))
        && (v.Some? ==>
              && st == Success && |rows| == |old(rows)| + 1 && rows[..|old(rows)|] == old(rows)
              && rows[|old(rows)|].ls == RowOf(start, i) && rows[|old(rows)|].literals == headers
              && rows[|old(rows)|].value == v.value)
    {
      var ls := boolValues[..];
      st := reg.LoadValues(ls);
      if st.Failure? {
        return;
      }
      LoadedBound(reg.State(), ls, tree);
      EvalBound(tree, RowEnv(reg.expressions, ls));
      var v := Eval(tree);
      if v.None? {
        return Failure("AttributeError");
      }
      var row := new TruthTableRow(ls, v.value, headers);
      rows := rows + [row];
    }

    /** The inner loop of `generate`: flip column `j` when `pow(2, n - j - 1)` divides `i`. */
    method Advance(ghost start: seq<bool>, i: nat)
      requires Valid() && i >= 1 && |start| == ceCount && boolValues[..] == RowOf(start, i - 1)
      modifies boolValues
      ensures boolValues[..] == RowOf(start, i)
    {
      var n := ceCount;
      for j := 0 to n
        invariant forall k :: 0 <= k < j ==> boolValues[k] == RowOf(start, i)[k]
        invariant forall k :: j <= k < n ==> boolValues[k] == RowOf(start, i - 1)[k]
      {
        BitsStep(n, i, j);
        if i % PyStr.Pow2(n - j - 1) == 0 {
          boolValues[j] := !boolValues[j];
        }
      }
    }

    /** `generate()`: the rows counting on from the current vector, `2^n` of them unless loading
        or evaluating fails on the way. */
    method Generate(reg: Register) returns (st: Status)
      requires Valid() && Consistent(reg.State()) && Complete(reg.State())
      requires forall v :: v in Vars(tree) ==> v in reg.objs
      modifies this, boolValues, set k | 0 <= k < |reg.objs| :: reg.objs[k]
      ensures Valid() && |old(rows)| <= |rows| && rows[..|old(rows)|] == old(rows)
      ensures ceCount != |reg.expressions| ==> st == Failure("ValueError") && rows == old(rows)
      ensures ceCount == |reg.expressions| ==>
        var added := rows[|old(rows)|..];
        var start := old(boolValues[..]);
        && RowsFrom(added, headers, tree, reg.expressions, start)
        && |added| <= PyStr.Pow2(ceCount)
        && (st == Success <==> |added| == PyStr.Pow2(ceCount))
        && (st != Success ==>
              && st == Failure("AttributeError")
              && EvalIn(tree, RowEnv(reg.expressions, RowOf(start, |added|))).None?)
    {
      ghost var start := boolValues[..];
      ghost var base := rows;
      ghost var s0 := reg.State();
      assert start == RowOf(start, 0) by { BitsZero(ceCount); }
      st := Record(reg, start, 0);
      if st.Failure? {
        assert rows[|base|..] == [];
        return;
      }
      var i := 1;
      while i < powered
        invariant 1 <= i <= powered && Valid() && reg.State() == s0
        invariant boolValues[..] == RowOf(start, i - 1)
        invariant ceCount == |reg.expressions| && st == Success
        invariant |rows| == |base| + i && rows[..|base|] == base
        invariant RowsFrom(rows[|base|..], headers, tree, reg.expressions, start)
      {
        st := Step(reg, start, i, base);
        if st.Failure? {
          return;
        }
        i := i + 1;
      }
    }

    /** One pass of the outer loop of `generate`: count the vector on to row `i` and record
        that row. */
    method Step(reg: Register, ghost start: seq<bool>, i: nat, ghost base: seq<TruthTableRow>)
      returns (st: Status)
      requires Valid() && Consistent(reg.State()) && Complete(reg.State())
      requires forall v :: v in Vars(tree) ==> v in reg.objs
      requires i >= 1 && |start| == ceCount && boolValues[..] == RowOf(start, i - 1)
      requires ceCount == |reg.expressions| && |rows| == |base| + i && rows[..|base|] == base
      requires RowsFrom(rows[|base|..], headers, tree, reg.expressions, start)
      modifies this, boolValues, set k | 0 <= k < |reg.objs| :: reg.objs[k]
      ensures Valid() && boolValues[..] == RowOf(start, i) && |base| <= |rows| && rows[..|base|] == base
      ensures st == Success ==> |rows| == |base| + i + 1 && RowsFrom(rows[|base|..], headers, tree, reg.expressions, start)
      ensures st != Success ==>
        && st == Failure("AttributeError") && rows == old(rows)
        && EvalIn(tree, RowEnv(reg.expressions, RowOf(start, i))).None?
    {
      Advance(start, i);
      ghost var prev := rows[|base|..];
      st := Record(reg, start, i);
      if st.Success? {
        assert |prev| == i && rows[|base|..] == prev + [rows[|base| + i]];
        RowsFromSnoc(prev, rows[|base| + i], headers, tree, reg.expressions, start);
      }
    }

    /** `simplify()` */
    method Simplify() returns (v: Verdict)
      requires Valid()
      modifies this
      ensures Valid() && rows == old(rows)
      ensures truthResult == Some(Values(rows))
      ensures v == SimplifyVerdict(headers, rows)
      ensures simplifiedStr == if v.Done? then v.s else old(simplifiedStr)
    {
      var ls: seq<bool> := [];
      for k := 0 to |rows|
        invariant ls == Values(rows[..k])
      {
        ls := ls + [rows[k].value];
      }
      assert rows[..|rows|] == rows;
      truthResult := Some(ls);
      if false !in ls {
        simplifiedStr := "1";
        return Done("1");
      } else if true !in ls {
        simplifiedStr := "0";
        return Done("0");
      }
      if |headers| >= 7 {
        return TooLong;
      }
      var terms := CollectMinterms();
      var s := Sast.Simplify(terms, SastSweeps);
      if s.Raise? {
        return Failed(s.error);
      }
      var e := new Extended.ExtendedSast2(false, s.value);
      if e.simplified.Raise? {
        return Failed(e.simplified.error);
      }
      simplifiedStr := e.simplified.value;
      v := Done(e.simplified.value);
    }

    /** The loop of `simplify` that builds `ls_for_sast`. */
    method CollectMinterms() returns (terms: seq<Term>)
      requires Valid()
      ensures Labelled(rows, headers) && terms == Minterms(headers, rows)
    {
      terms := [];
      for k := 0 to |rows|
        invariant Labelled(rows[..k], headers)
        invariant terms == Minterms(headers, rows[..k])
      {
        assert rows[..k + 1][..k] == rows[..k];
        if rows[k].value {
          var ps: seq<CE> := [];
          for j := 0 to |headers|
            invariant ps == Minterm(headers[..j], rows[k].ls)
          {
            ps := ps + [CE(headers[j], !rows[k].ls[j])];
          }
          assert headers[..|headers|] == headers;
          terms := terms + [And(ps)];
        }
      }
      assert rows[..|rows|] == rows;
    }
  }

  // ---------------------------------------------------------------- what the table means

  /** A constant function is reported as `'1'` or `'0'` whatever the number of variables; the
      variable limit applies exactly to the functions that are not constant. */
  lemma VerdictCases(headers: seq<char>, rows: seq<TruthTableRow>)
    requires Labelled(rows, headers)
    ensures (forall k :: 0 <= k < |rows| ==> rows[k].value) ==> SimplifyVerdict(headers, rows) == Done("1")
    ensures rows != [] && (forall k :: 0 <= k < |rows| ==> !rows[k].value) ==> SimplifyVerdict(headers, rows) == Done("0")
    ensures SimplifyVerdict(headers, rows) == TooLong <==>
      |headers| >= 7 && (exists k :: 0 <= k < |rows| && rows[k].value) && (exists k :: 0 <= k < |rows| && !rows[k].value)
  {
    var vs := Values(rows);
    if exists k :: 0 <= k < |rows| && rows[k].value {
      var k :| 0 <= k < |rows| && rows[k].value;
      assert vs[k];
    }
    if exists k :: 0 <= k < |rows| && !rows[k].value {
      var k :| 0 <= k < |rows| && !rows[k].value;
      assert !vs[k];
    }
    if rows != [] && forall k :: 0 <= k < |rows| ==> !rows[k].value {
      assert !vs[0];
    }
  }

  /** Two rows counted on from the same start are the same row only for the same count. */
  lemma RowOfInjective(start: seq<bool>, m: nat, k: nat)
    requires m < PyStr.Pow2(|start|) && k < PyStr.Pow2(|start|) && RowOf(start, m) == RowOf(start, k)
    ensures m == k
  {
    var n := |start|;
    forall j | 0 <= j < n ensures Bits(n, m)[j] == Bits(n, k)[j] {
      assert RowOf(start, m)[j] == RowOf(start, k)[j];
    }
    BitsInjective(n, m, k);
  }

  /** With the headers in the register's order, the product of row `b` holds on row `c` exactly
      when the two rows are the same. */
  lemma MintermHolds(es: seq<Entry>, headers: seq<char>, b: seq<bool>, c: seq<bool>)
    requires DistinctKeys(es) && headers == Headers(es) && |b| == |es| && |c| == |es|
    ensures ProdVal(Minterm(headers, b), RowEnv(es, c)) <==> b == c
  {
    var env := RowEnv(es, c);
    var ps := Minterm(headers, b);
    forall j | 0 <= j < |headers| ensures env(headers[j]) == c[j] {
      KeyPosUnique(es, j);
    }
    if ProdVal(ps, env) {
      forall j | 0 <= j < |b| ensures b[j] == c[j] {
        assert ps[j] in ps;
      }
    }
    if b == c {
      forall x | x in ps ensures LitVal(x, env) {
        var j :| 0 <= j < |ps| && ps[j] == x;
      }
    }
  }

  /** The products `simplify` collects are those of the true rows. */
  lemma {:induction false} MintermsMembers(headers: seq<char>, rows: seq<TruthTableRow>, t: Term)
    requires Labelled(rows, headers)
    ensures t in Minterms(headers, rows) <==>
      exists m :: 0 <= m < |rows| && rows[m].value && t == And(Minterm(headers, rows[m].ls))
    decreases |rows|
  {
    if rows != [] {
      var n := |rows| - 1;
      var front := rows[..n];
      MintermsMembers(headers, front, t);
      if t in Minterms(headers, front) {
        var m :| 0 <= m < |front| && front[m].value && t == And(Minterm(headers, front[m].ls));
        assert rows[m] == front[m];
      }
      if exists m :: 0 <= m < |rows| && rows[m].value && t == And(Minterm(headers, rows[m].ls)) {
        var m :| 0 <= m < |rows| && rows[m].value && t == And(Minterm(headers, rows[m].ls));
        if m < n { assert front[m] == rows[m]; }
      }
    }
  }

  /** On a full table, the products of the true rows, read as a sum, take on every row the
      value the table holds there: the list `SAST` receives is the table's function. */
  lemma MintermsMean(headers: seq<char>, rows: seq<TruthTableRow>, tree: Token, es: seq<Entry>, start: seq<bool>, k: nat)
    requires DistinctKeys(es) && headers == Headers(es)
    requires RowsFrom(rows, headers, tree, es, start) && |rows| == PyStr.Pow2(|start|) && k < |rows|
    ensures Labelled(rows, headers)
    ensures SumVal(Minterms(headers, rows), RowEnv(es, rows[k].ls)) == rows[k].value
  {
    var env := RowEnv(es, rows[k].ls);
    var ts := Minterms(headers, rows);
    if rows[k].value {
      var t := And(Minterm(headers, rows[k].ls));
      MintermsMembers(headers, rows, t);
      MintermHolds(es, headers, rows[k].ls, rows[k].ls);
      var i :| 0 <= i < |ts| && ts[i] == t;
      assert Val(ts[i], env);
    }
    if SumVal(ts, env) {
      var i :| 0 <= i < |ts| && Val(ts[i], env);
      assert ts[i] in ts;
      MintermsMembers(headers, rows, ts[i]);
      var m :| 0 <= m < |rows| && rows[m].value && ts[i] == And(Minterm(headers, rows[m].ls));
      MintermHolds(es, headers, rows[m].ls, rows[k].ls);
      RowOfInjective(start, m, k);
    }
  }

  /** The list pass 1 settles on still takes every row's value. */
  lemma SastStageSound(headers: seq<char>, rows: seq<TruthTableRow>, tree: Token, es: seq<Entry>, start: seq<bool>, k: nat)
    requires DistinctKeys(es) && headers == Headers(es)
    requires RowsFrom(rows, headers, tree, es, start) && |rows| == PyStr.Pow2(|start|) && k < |rows|
    requires Labelled(rows, headers) && Sast.Settle(Minterms(headers, rows), SastSweeps).Ok?
    ensures SumVal(Sast.Settle(Minterms(headers, rows), SastSweeps).value, RowEnv(es, rows[k].ls)) == rows[k].value
  {
    MintermsMean(headers, rows, tree, es, start, k);
    SastFacts.SettleSound(Minterms(headers, rows), SastSweeps);
  }

  /** For an expression with no stray token, every row holds the textbook value of the
      expression under that row's assignment. */
  lemma RowsMeaning(headers: seq<char>, rows: seq<TruthTableRow>, tree: Token, es: seq<Entry>, start: seq<bool>, k: nat)
    requires Closed(tree) && RowsFrom(rows, headers, tree, es, start) && k < |rows|
    ensures rows[k].value == Meaning(tree, RowEnv(es, rows[k].ls))
  {
    EvalInMeaning(tree, RowEnv(es, rows[k].ls));
  }
}
