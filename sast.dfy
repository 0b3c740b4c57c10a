/**
 * Pass 1 of the minimiser, `SAST.simplify` (tools/logical_evaluator/sast3.py): repeatedly sweep
 * the list of terms, combine each term with the first later partner for which `+` gives
 * something other than the two terms themselves, and rebuild the list as the combined results
 * followed by the untouched terms, until a sweep changes nothing; then render the list as a
 * `'+'`-joined string.
 *
 * The source loops until a sweep changes nothing. Here the number of sweeps is bounded by a
 * `fuel` argument, and running out of it is reported as `Unfinished`.
 */
module Sast {
  import opened Types
  import opened Terms
  import PyStr

  /** Reported when the sweeps allowed by the fuel are used up before a sweep changes nothing. */
  const Unfinished := "Unfinished"

  /** One comparison of the sweep: `ls[i].copy() + ls[j].copy()`. `None` means the sum is just
      the two terms again and the sweep moves on to the next partner; otherwise the terms that
      replace the pair, one-literal products cast to literals. */
  function PairStep(x: Term, y: Term): (r: Result<Option<seq<Term>>>)
    ensures r.Ok? && r.value.Some? ==> 1 <= |r.value.value| <= 2
  {
    var cx, cy := Copy(x), Copy(y);
    if cx.Raise? then Raise(cx.error)
    else if cy.Raise? then Raise(cy.error)
    else
      var s := Plus(cx.value, cy.value);
      if s.Raise? then Raise(s.error)
      else if s.value.Or? then
        var e0 := Eq(s.value.ts[0], x);
        if e0.Raise? then Raise(e0.error)
        else
          var e1 := if e0.value then Eq(s.value.ts[1], y) else Ok(false);
          if e1.Raise? then Raise(e1.error)
          else if e1.value then Ok(None)
          else Ok(Some([CastIf(s.value.ts[0]), CastIf(s.value.ts[1])]))
      else Ok(Some([CastIf(s.value)]))
  }

  /** `is_changed` and `result_ls` during a sweep. */
  datatype Sweep = Sweep(changed: seq<bool>, out: seq<Term>)

  /** The inner loop: partners `j, j+1, ...` of term `i`, up to the first change. */
  function ScanFrom(ls: seq<Term>, i: nat, j: nat, st: Sweep): (r: Result<Sweep>)
    requires i < |ls| && i < j <= |ls| && |st.changed| == |ls|
    ensures r.Ok? ==> |r.value.changed| == |ls|
    decreases |ls| - j
  {
    if j == |ls| then Ok(st)
    else if st.changed[j] then ScanFrom(ls, i, j + 1, st)
    else
      var p := PairStep(ls[i], ls[j]);
      if p.Raise? then Raise(p.error)
      else if p.value.None? then ScanFrom(ls, i, j + 1, st)
      else Ok(Sweep(st.changed[i := true][j := true], st.out + p.value.value))
  }

  /** The outer loop of a sweep from term `i` on; terms already combined are skipped. */
  function SweepFrom(ls: seq<Term>, i: nat, st: Sweep): (r: Result<Sweep>)
    requires i <= |ls| && |st.changed| == |ls|
    ensures r.Ok? ==> |r.value.changed| == |ls|
    decreases |ls| - i
  {
    if i == |ls| then Ok(st)
    else if st.changed[i] then SweepFrom(ls, i + 1, st)
    else
      var s := ScanFrom(ls, i, i + 1, st);
      if s.Raise? then s else SweepFrom(ls, i + 1, s.value)
  }

  function Falses(n: nat): (r: seq<bool>)
    ensures |r| == n && true !in r
  {
    seq(n, _ => false)
  }

  /** One sweep over the whole list. */
  function SweepAll(ls: seq<Term>): (r: Result<Sweep>)
    ensures r.Ok? ==> |r.value.changed| == |ls|
  {
    SweepFrom(ls, 0, Sweep(Falses(|ls|), []))
  }

  /** `[ls[k] for k in range(len(ls)) if not changed[k]]` */
  function Untouched(ls: seq<Term>, changed: seq<bool>): (r: seq<Term>)
    requires |changed| == |ls|
    ensures forall t :: t in r ==> t in ls
  {
    if ls == [] then []
    else
      var n := |ls| - 1;
      var front := Untouched(ls[..n], changed[..n]);
      assert forall t :: t in front ==> t in ls by {
        forall t | t in front ensures t in ls { assert t in ls[..n]; }
      }
      front + (if changed[n] then [] else [ls[n]])
  }

  /** The `while` loop of `SAST.simplify`: sweep until a sweep changes nothing. */
  function Settle(ls: seq<Term>, fuel: nat): Result<seq<Term>>
    decreases fuel
  {
    if fuel == 0 then Raise(Unfinished)
    else
      var s := SweepAll(ls);
      if s.Raise? then Raise(s.error)
      else if true !in s.value.changed then Ok(ls)
      else Settle(s.value.out + Untouched(ls, s.value.changed), fuel - 1)
  }

  /** `SAST(ls).simplified`: `""` for no terms, `'1'`/`'0'` for a lone constant, otherwise the
      rendering of the settled list. */
  function SimplifySpec(ls: seq<Term>, fuel: nat): Result<string>
  {
    if |ls| == 0 then Ok("")
    else if |ls| == 1 && ls[0].One? then Ok("1")
    else if |ls| == 1 && ls[0].Zero? then Ok("0")
    else
      var s := Settle(ls, fuel);
      if s.Raise? then Raise(s.error) else Render(Or(s.value))
  }

  // ---------------------------------------------------------------- the methods

  /** `a + r` when `r` is a string, `r` itself when it is an exception. */
  function Prefixed(a: string, r: Result<string>): Result<string>
  {
    if r.Raise? then r else Ok(a + r.value)
  }

  /** One term of `OrExpr.to_str`'s loop. */
  lemma PlussedStep(t: Term, k: nat)
    requires t.Or? && k < |t.ts|
    ensures Render(t.ts[k]).Raise? ==> Plussed(t, k) == Raise(Render(t.ts[k]).error)
    ensures Render(t.ts[k]).Ok? ==> Plussed(t, k) == Prefixed(Render(t.ts[k]).value + "+", Plussed(t, k + 1))
  {
  }

  lemma PrefixedTwice(a: string, b: string, r: Result<string>)
    ensures Prefixed(a, Prefixed(b, r)) == Prefixed(a + b, r)
  {
    if r.Ok? { assert a + (b + r.value) == (a + b) + r.value; }
  }

  /** The rendering loop shared by both passes: every term's `to_str()` followed by `'+'`, then
      the `'+'`s at both ends stripped. */
  method RenderSum(ls: seq<Term>) returns (r: Result<string>)
    ensures r == Render(Or(ls))
  {
    ghost var t := Or(ls);
    var acc := "";
    var k := 0;
    assert Prefixed("", Plussed(t, 0)) == Plussed(t, 0) by {
      if Plussed(t, 0).Ok? { assert "" + Plussed(t, 0).value == Plussed(t, 0).value; }
    }
    while k < |ls|
      invariant 0 <= k <= |ls|
      invariant Plussed(t, 0) == Prefixed(acc, Plussed(t, k))
    {
      var a := Render(ls[k]);
      PlussedStep(t, k);
      if a.Raise? {
        RenderOr(ls);
        return Raise(a.error);
      }
      PrefixedTwice(acc, a.value + "+", Plussed(t, k + 1));
      acc := acc + (a.value + "+");
      k := k + 1;
    }
    assert Plussed(t, k) == Ok("");
    assert acc + "" == acc;
    RenderOr(ls);
    r := Ok(PyStr.Strip(acc, {'+'}));
  }

  lemma RenderOr(ls: seq<Term>)
    ensures Plussed(Or(ls), 0).Raise? ==> Render(Or(ls)) == Plussed(Or(ls), 0)
    ensures Plussed(Or(ls), 0).Ok? ==> Render(Or(ls)) == Ok(PyStr.Strip(Plussed(Or(ls), 0).value, {'+'}))
  {
  }

  /** One sweep of the `while` loop of `SAST.simplify`. */
  method Sweeping(ls: seq<Term>) returns (r: Result<Sweep>)
    ensures r == SweepAll(ls)
  {
    var changed := Falses(|ls|);
    var out: seq<Term> := [];
    var i := 0;
    while i < |ls|
      invariant 0 <= i <= |ls| && |changed| == |ls|
      invariant SweepFrom(ls, i, Sweep(changed, out)) == SweepAll(ls)
    {
      if !changed[i] {
        var s := Scanning(ls, i, changed, out);
        if s.Raise? {
          return s;
        }
        changed, out := s.value.changed, s.value.out;
      }
      i := i + 1;
    }
    r := Ok(Sweep(changed, out));
  }

  /** The inner loop of a sweep: look for a partner of term `i` among the later untouched
      terms and stop at the first pair that combines. */
  method Scanning(ls: seq<Term>, i: nat, changed0: seq<bool>, out0: seq<Term>) returns (r: Result<Sweep>)
    requires i < |ls| && |changed0| == |ls|
    ensures r == ScanFrom(ls, i, i + 1, Sweep(changed0, out0))
  {
    var changed, out := changed0, out0;
    var j := i + 1;
    var done := false;
    while j < |ls| && !done
      invariant i < j <= |ls| && |changed| == |ls|
      invariant !done ==> changed == changed0 && out == out0
      invariant !done ==> ScanFrom(ls, i, j, Sweep(changed, out)) == ScanFrom(ls, i, i + 1, Sweep(changed0, out0))
      invariant done ==> Ok(Sweep(changed, out)) == ScanFrom(ls, i, i + 1, Sweep(changed0, out0))
      decreases |ls| - j
    {
      if !changed[j] {
        var p := PairStep(ls[i], ls[j]);
        if p.Raise? {
          return Raise(p.error);
        }
        if p.value.Some? {
          changed := changed[i := true][j := true];
          out := out + p.value.value;
          done := true;
        }
      }
      j := j + 1;
    }
    r := Ok(Sweep(changed, out));
  }


  /** The terms a sweep left alone, in order. */
  method Unchanged(ls: seq<Term>, changed: seq<bool>) returns (filtered: seq<Term>)
    requires |changed| == |ls|
    ensures filtered == Untouched(ls, changed)
  {
    filtered := [];
    var k := 0;
    while k < |ls|
      invariant 0 <= k <= |ls|
      invariant filtered == Untouched(ls[..k], changed[..k])
    {
      assert ls[..k + 1][..k] == ls[..k] && changed[..k + 1][..k] == changed[..k];
      if !changed[k] {
        filtered := filtered + [ls[k]];
      }
      k := k + 1;
    }
    assert ls[..k] == ls && changed[..k] == changed;
  }

  /** A sweep that combined something starts another round. */
  lemma SettleStep(ls: seq<Term>, fuel: nat, st: Sweep, next: seq<Term>)
    requires fuel > 0 && SweepAll(ls) == Ok(st) && true in st.changed
    requires next == st.out + Untouched(ls, st.changed)
    ensures Settle(ls, fuel) == Settle(next, fuel - 1)
  {
  }


  /** A sweep that combined nothing ends the loop with the list as it is. */
  lemma SettleDone(ls: seq<Term>, fuel: nat)
    requires fuel > 0 && SweepAll(ls).Ok? && true !in SweepAll(ls).value.changed
    ensures Settle(ls, fuel) == Ok(ls)
  {
  }

  /** `SimplifySpec` past its constant cases, with the settled list given. */
  lemma SimplifyBy(ls: seq<Term>, fuel: nat, settled: Result<seq<Term>>)
    requires |ls| != 0 && !(|ls| == 1 && (ls[0].One? || ls[0].Zero?)) && settled == Settle(ls, fuel)
    ensures SimplifySpec(ls, fuel) == if settled.Raise? then Raise(settled.error) else Render(Or(settled.value))
  {
  }

  /** One round of the `while` loop of `SAST.simplify`: a sweep, and the list for the next
      round unless the sweep combined nothing. */
  method SweepRound(ls: seq<Term>, ghost fuel: nat) returns (r: Result<Option<seq<Term>>>)
    requires fuel > 0
    ensures r.Raise? ==> Settle(ls, fuel) == Raise(r.error)
    ensures r == Ok(None) ==> Settle(ls, fuel) == Ok(ls)
    ensures r.Ok? && r.value.Some? ==> Settle(ls, fuel) == Settle(r.value.value, fuel - 1)
  {
    var s := Sweeping(ls);
    if s.Raise? {
      return Raise(s.error);
    }
    var changed := s.value.changed;
    if true !in changed {
      SettleDone(ls, fuel);
      return Ok(None);
    }
    var filtered := Unchanged(ls, changed);
    var next := s.value.out + filtered;
    SettleStep(ls, fuel, s.value, next);
    r := Ok(Some(next));
  }

  /** `SAST(ls).simplified`, with at most `fuel` sweeps. */
  method Simplify(terms: seq<Term>, fuel: nat) returns (r: Result<string>)
    ensures r == SimplifySpec(terms, fuel)
  {
    if |terms| == 0 {
      return Ok("");
    } else if |terms| == 1 && terms[0].One? {
      return Ok("1");
    } else if |terms| == 1 && terms[0].Zero? {
      return Ok("0");
    }
    var ls := terms;
    var rounds := fuel;
    ghost var goal := Settle(terms, fuel);
    while true
      invariant Settle(ls, rounds) == goal
      decreases rounds
    {
      if rounds == 0 {
        SimplifyBy(terms, fuel, goal);
        return Raise(Unfinished);
      }
      var next := SweepRound(ls, rounds);
      if next.Raise? {
        SimplifyBy(terms, fuel, goal);
        return Raise(next.error);
      }
      if next.value.None? {
        break;
      }
      ls, rounds := next.value.value, rounds - 1;
    }
    SimplifyBy(terms, fuel, goal);
    r := RenderSum(ls);
  }
}

/**
 * What pass 1 guarantees: every sweep replaces disjoint pairs of terms by one or two terms that
 * mean their sum, so the list never grows and always stands for the same function, and the
 * list it settles on is one a further sweep leaves alone.
 */
module SastFacts {
  import opened Types
  import opened Terms
  import opened Sast

  /** Some term already combined in this sweep holds. */
  predicate ChangedVal(ls: seq<Term>, changed: seq<bool>, env: Env)
    requires |changed| == |ls|
  {
    exists k :: 0 <= k < |ls| && changed[k] && Val(ls[k], env)
  }

  function CountTrue(bs: seq<bool>): nat
  {
    multiset(bs)[true]
  }

  /** The results gathered so far mean exactly the terms combined so far, and combined terms
      come in pairs, each pair giving one or two terms. */
  ghost predicate Accounted(ls: seq<Term>, st: Sweep)
    requires |st.changed| == |ls|
  {
    && (forall env :: SumVal(st.out, env) == ChangedVal(ls, st.changed, env))
    && CountTrue(st.changed) % 2 == 0
    && CountTrue(st.changed) <= 2 * |st.out|
    && |st.out| <= CountTrue(st.changed)
  }

  lemma SumValAppend(a: seq<Term>, b: seq<Term>, env: Env)
    ensures SumVal(a + b, env) == (SumVal(a, env) || SumVal(b, env))
  {
    if SumVal(a + b, env) {
      var k :| 0 <= k < |a + b| && Val((a + b)[k], env);
      if k >= |a| { assert b[k - |a|] == (a + b)[k]; }
    }
    if SumVal(b, env) {
      var k :| 0 <= k < |b| && Val(b[k], env);
      assert (a + b)[|a| + k] == b[k];
    }
    if SumVal(a, env) {
      var k :| 0 <= k < |a| && Val(a[k], env);
      assert (a + b)[k] == a[k];
    }
  }

  /** A pair step's replacement terms mean the sum of the pair. */
  lemma PairStepSound(x: Term, y: Term, env: Env)
    requires PairStep(x, y).Ok? && PairStep(x, y).value.Some?
    ensures SumVal(PairStep(x, y).value.value, env) == (Val(x, env) || Val(y, env))
  {
    var s := Plus(x, y);
    assert Copy(x) == Ok(x) && Copy(y) == Ok(y);
    PlusSound(x, y, env);
    var ts := PairStep(x, y).value.value;
    if s.value.Or? {
      var a, b := s.value.ts[0], s.value.ts[1];
      assert ts == [CastIf(a), CastIf(b)];
      PairVal(a, b, env);
      assert s.value == Or([a, b]);
      assert SumVal(ts, env) == (Val(ts[0], env) || Val(ts[1], env)) by {
        if SumVal(ts, env) {
          var k :| 0 <= k < |ts| && Val(ts[k], env);
        }
      }
    } else {
      assert ts == [CastIf(s.value)];
      assert SumVal(ts, env) == Val(ts[0], env) by {
        if SumVal(ts, env) {
          var k :| 0 <= k < |ts| && Val(ts[k], env);
        }
      }
    }
  }

  /** Marking two untouched terms adds two to the count. */
  lemma MarkPair(c: seq<bool>, i: nat, j: nat)
    requires i < |c| && j < |c| && i != j && !c[i] && !c[j]
    ensures CountTrue(c[i := true][j := true]) == CountTrue(c) + 2
  {
    assert multiset(c[i := true]) == multiset(c) - multiset{false} + multiset{true};
    var d := c[i := true];
    assert !d[j];
    assert multiset(d[j := true]) == multiset(d) - multiset{false} + multiset{true};
  }

  lemma MarkPairVal(ls: seq<Term>, c: seq<bool>, i: nat, j: nat, env: Env)
    requires |c| == |ls| && i < |c| && j < |c|
    ensures ChangedVal(ls, c[i := true][j := true], env) == (ChangedVal(ls, c, env) || Val(ls[i], env) || Val(ls[j], env))
  {
    var d := c[i := true][j := true];
    if ChangedVal(ls, d, env) {
      var k :| 0 <= k < |ls| && d[k] && Val(ls[k], env);
      if k != i && k != j { assert c[k]; }
    }
    if ChangedVal(ls, c, env) {
      var k :| 0 <= k < |ls| && c[k] && Val(ls[k], env);
      assert d[k];
    }
    assert d[i] && d[j];
  }

  lemma {:induction false} ScanAccounted(ls: seq<Term>, i: nat, j: nat, st: Sweep)
    requires i < |ls| && i < j <= |ls| && |st.changed| == |ls|
    requires !st.changed[i] && Accounted(ls, st)
    ensures ScanFrom(ls, i, j, st).Ok? ==> Accounted(ls, ScanFrom(ls, i, j, st).value)
    decreases |ls| - j
  {
    if j < |ls| {
      if st.changed[j] {
        ScanAccounted(ls, i, j + 1, st);
      } else {
        var p := PairStep(ls[i], ls[j]);
        if p.Ok? && p.value.None? {
          ScanAccounted(ls, i, j + 1, st);
        } else if p.Ok? {
          PairAccounted(ls, i, j, st);
        }
      }
    }
  }

  /** Combining the untouched pair `i`, `j` keeps a sweep state accounted. */
  lemma PairAccounted(ls: seq<Term>, i: nat, j: nat, st: Sweep)
    requires i < j < |ls| && |st.changed| == |ls|
    requires !st.changed[i] && !st.changed[j] && Accounted(ls, st)
    requires PairStep(ls[i], ls[j]).Ok? && PairStep(ls[i], ls[j]).value.Some?
    ensures Accounted(ls, Sweep(st.changed[i := true][j := true], st.out + PairStep(ls[i], ls[j]).value.value))
  {
    var ts := PairStep(ls[i], ls[j]).value.value;
    var st' := Sweep(st.changed[i := true][j := true], st.out + ts);
    MarkPair(st.changed, i, j);
    forall env ensures SumVal(st'.out, env) == ChangedVal(ls, st'.changed, env) {
      SumValAppend(st.out, ts, env);
      PairStepSound(ls[i], ls[j], env);
      MarkPairVal(ls, st.changed, i, j, env);
    }
  }

  lemma {:induction false} SweepAccounted(ls: seq<Term>, i: nat, st: Sweep)
    requires i <= |ls| && |st.changed| == |ls| && Accounted(ls, st)
    ensures SweepFrom(ls, i, st).Ok? ==> Accounted(ls, SweepFrom(ls, i, st).value)
    decreases |ls| - i
  {
    if i < |ls| {
      if st.changed[i] {
        SweepAccounted(ls, i + 1, st);
      } else {
        ScanAccounted(ls, i, i + 1, st);
        var s := ScanFrom(ls, i, i + 1, st);
        if s.Ok? {
          SweepAccounted(ls, i + 1, s.value);
        }
      }
    }
  }

  /** The untouched terms are as many as the unmarked flags. */
  lemma {:induction false} UntouchedCount(ls: seq<Term>, c: seq<bool>)
    requires |c| == |ls|
    ensures |Untouched(ls, c)| == |ls| - CountTrue(c)
    decreases |ls|
  {
    if ls != [] {
      var n := |ls| - 1;
      UntouchedCount(ls[..n], c[..n]);
      assert c == c[..n] + [c[n]];
      assert multiset(c) == multiset(c[..n]) + multiset{c[n]};
    }
  }

  /** The sum of the untouched terms holds when one of the unmarked terms does. */
  lemma {:induction false} UntouchedFacts(ls: seq<Term>, c: seq<bool>, env: Env)
    requires |c| == |ls|
    ensures |Untouched(ls, c)| == |ls| - CountTrue(c)
    ensures SumVal(Untouched(ls, c), env) == exists k :: 0 <= k < |ls| && !c[k] && Val(ls[k], env)
    decreases |ls|
  {
    UntouchedCount(ls, c);
    if ls != [] {
      var n := |ls| - 1;
      UntouchedFacts(ls[..n], c[..n], env);
      var tail := if c[n] then [] else [ls[n]];
      UntouchedSplit(ls, c, env);
      if exists k :: 0 <= k < |ls| && !c[k] && Val(ls[k], env) {
        var k :| 0 <= k < |ls| && !c[k] && Val(ls[k], env);
        if k < n {
          assert ls[..n][k] == ls[k] && c[..n][k] == c[k];
        } else {
          assert tail == [ls[n]] && Val(tail[0], env);
        }
      }
      if exists k :: 0 <= k < n && !c[..n][k] && Val(ls[..n][k], env) {
        var k :| 0 <= k < n && !c[..n][k] && Val(ls[..n][k], env);
        assert ls[..n][k] == ls[k] && c[..n][k] == c[k];
      }
    }
  }

  /** One unfolding of `Untouched` for the sum: the front, then the last term if unmarked. */
  lemma UntouchedSplit(ls: seq<Term>, c: seq<bool>, env: Env)
    requires |c| == |ls| && ls != []
    ensures var n := |ls| - 1;
      SumVal(Untouched(ls, c), env) == (SumVal(Untouched(ls[..n], c[..n]), env) || (!c[n] && Val(ls[n], env)))
  {
    var n := |ls| - 1;
    var tail := if c[n] then [] else [ls[n]];
    SumValAppend(Untouched(ls[..n], c[..n]), tail, env);
    if SumVal(tail, env) {
      assert Val(tail[0], env);
    }
    if !c[n] && Val(ls[n], env) {
      assert tail[0] == ls[n];
    }
  }


  /** One sweep keeps the meaning of the list and never lengthens it; if it changes anything,
      at least two terms were combined. */
  lemma SweepSound(ls: seq<Term>)
    requires SweepAll(ls).Ok?
    ensures var s := SweepAll(ls).value;
      && Equivalent(s.out + Untouched(ls, s.changed), ls)
      && |s.out + Untouched(ls, s.changed)| <= |ls|
      && (true in s.changed ==> CountTrue(s.changed) >= 2)
  {
    var st := Sweep(Falses(|ls|), []);
    assert CountTrue(st.changed) == 0 by { assert true !in multiset(st.changed); }
    forall env ensures SumVal(st.out, env) == ChangedVal(ls, st.changed, env) { }
    SweepAccounted(ls, 0, st);
    var s := SweepAll(ls).value;
    forall env ensures SumVal(s.out + Untouched(ls, s.changed), env) == SumVal(ls, env) {
      SumValAppend(s.out, Untouched(ls, s.changed), env);
      UntouchedFacts(ls, s.changed, env);
      if SumVal(ls, env) {
        var k :| 0 <= k < |ls| && Val(ls[k], env);
        if s.changed[k] { assert ChangedVal(ls, s.changed, env); }
      }
    }
    UntouchedFacts(ls, s.changed, (_ => false));
    if true in s.changed {
      assert true in multiset(s.changed);
    }
  }

  /** The list `SAST.simplify` settles on means what its input means, is no longer than it,
      and is left unchanged by one more sweep. */
  lemma {:induction false} SettleSound(ls: seq<Term>, fuel: nat)
    requires Settle(ls, fuel).Ok?
    ensures Equivalent(Settle(ls, fuel).value, ls)
    ensures |Settle(ls, fuel).value| <= |ls|
    ensures SweepAll(Settle(ls, fuel).value).Ok? && true !in SweepAll(Settle(ls, fuel).value).value.changed
    decreases fuel
  {
    var s := SweepAll(ls);
    if true in s.value.changed {
      var next := s.value.out + Untouched(ls, s.value.changed);
      SweepSound(ls);
      SettleSound(next, fuel - 1);
    }
  }
}
