/**
 * The second minimisation pass, `ExtendedSast2` (tools/logical_evaluator/sast3.py). It reads
 * the first pass's output back from its string form, then repeats rounds of one rule: when
 * products `S*a`, `S*b`, ... share the part `S` and the product `!a*!b*...` of the negated
 * leftovers is itself one of the terms, the products `S*a`, `S*b`, ... are replaced by `S`.
 * The products each rendering size belongs to are kept in the `lookup` table.
 *
 * The spec functions take a flag `fixed`. With `fixed` false they follow the code as written;
 * with `fixed` true they use the corrected suitability test `IsExtension` and treat a leftover
 * count beyond the table as "not found" rather than failing on the missing key.
 */
module Extended {
  import opened Types
  import opened Terms
  import opened Sast
  import PyStr

  /** The number of rounds `simplify` runs at most. */
  const MaxRounds := 50

  /** `ls` prefixed to the list in `r`, or the exception in `r`. */
  function Appended<T>(ls: seq<T>, r: Result<seq<T>>): Result<seq<T>>
  {
    if r.Raise? then Raise(r.error) else Ok(ls + r.value)
  }

  /** Prefixing nothing, and prefixing in two steps. */
  lemma AppendedSteps<T>(ls: seq<T>, c: T, r: Result<seq<T>>)
    ensures Appended([], r) == r
    ensures Appended(ls, Appended([c], r)) == Appended(ls + [c], r)
  {
    if r.Ok? {
      assert [] + r.value == r.value;
      assert ls + ([c] + r.value) == ls + [c] + r.value;
    }
  }

  // ---------------------------------------------------------------- reading the input

  /** `generateAnd(string)`: the loop over the `'*'`-separated pieces. */
  method GenerateAnd(s: string) returns (r: Result<Term>)
    ensures r == GenerateAndSpec(s)
  {
    var out := PyStr.SplitOn(s, '*');
    var ls: seq<CE> := [];
    var k := 0;
    assert out[0..] == out;
    AppendedSteps(ls, CE('A', false), ParseLits(out));
    while k < |out|
      invariant 0 <= k <= |out|
      invariant ParseLits(out) == Appended(ls, ParseLits(out[k..]))
    {
      assert out[k..][1..] == out[k + 1..];
      var p := out[k];
      if |p| == 0 {
        return Raise("IndexError");
      }
      var c;
      if p[0] == '!' {
        if |p| < 2 {
          return Raise("IndexError");
        }
        c := CE(p[1], true);
      } else {
        c := CE(p[0], false);
      }
      AppendedSteps(ls, c, ParseLits(out[k + 1..]));
      ls := ls + [c];
      k := k + 1;
    }
    assert out[k..] == [];
    assert ls + [] == ls;
    r := Ok(And(ls));
  }

  /** `[generateAnd(i) for i in pieces]`, failing at the first bad piece. */
  function Products(pieces: seq<string>): (r: Result<seq<Term>>)
    ensures r.Ok? ==> |r.value| == |pieces| && forall k :: 0 <= k < |r.value| ==> r.value[k].And?
  {
    if pieces == [] then Ok([])
    else
      var h := GenerateAndSpec(pieces[0]);
      if h.Raise? then Raise(h.error) else Appended([h.value], Products(pieces[1..]))
  }

  /** The cast loop: one-literal products become literals. */
  function Casts(ls: seq<Term>): (r: seq<Term>)
    ensures |r| == |ls| && forall k :: 0 <= k < |ls| ==> r[k] == CastIf(ls[k])
  {
    seq(|ls|, k requires 0 <= k < |ls| => CastIf(ls[k]))
  }

  /** The terms `simplify` starts from: split at `'+'`, parse each piece, cast. */
  function ParseSumSpec(input: string): (r: Result<seq<Term>>)
    ensures r.Ok? ==> AllFlat(r.value) && r.value != []
  {
    var p := Products(PyStr.SplitOn(input, '+'));
    if p.Raise? then p else Ok(Casts(p.value))
  }

  /** Literals and products only. */
  predicate AllFlat(ls: seq<Term>)
  {
    forall k :: 0 <= k < |ls| ==> Flat(ls[k])
  }

  /** `[generateAnd(i) for i in out]` */
  method GenerateAll(out: seq<string>) returns (r: Result<seq<Term>>)
    ensures r == Products(out)
  {
    var ls: seq<Term> := [];
    var k := 0;
    assert out[0..] == out;
    AppendedSteps(ls, One, Products(out));
    while k < |out|
      invariant 0 <= k <= |out|
      invariant Products(out) == Appended(ls, Products(out[k..]))
    {
      assert out[k..][1..] == out[k + 1..];
      var g := GenerateAnd(out[k]);
      if g.Raise? {
        return Raise(g.error);
      }
      AppendedSteps(ls, g.value, Products(out[k + 1..]));
      ls := ls + [g.value];
      k := k + 1;
    }
    assert out[k..] == [];
    assert ls + [] == ls;
    r := Ok(ls);
  }

  /** The first lines of `simplify`: split at `'+'`, parse the pieces, then the cast loop. */
  method ParseSum(input: string) returns (r: Result<seq<Term>>)
    ensures r == ParseSumSpec(input)
    ensures r.Ok? ==> AllFlat(r.value) && r.value != []
  {
    var g := GenerateAll(PyStr.SplitOn(input, '+'));
    if g.Raise? {
      return g;
    }
    var ls := CastAll(g.value);
    r := Ok(ls);
  }

  /** The cast loop of `simplify`: a product of one literal becomes the literal. */
  method CastAll(terms: seq<Term>) returns (ls: seq<Term>)
    ensures ls == Casts(terms)
  {
    ls := terms;
    var i := 0;
    while i < |ls|
      invariant 0 <= i <= |ls| == |terms|
      invariant forall m :: 0 <= m < i ==> ls[m] == CastIf(terms[m])
      invariant forall m :: i <= m < |ls| ==> ls[m] == terms[m]
    {
      if ls[i].And? && |ls[i].ps| == 1 {
        ls := ls[i := Lit(ls[i].ps[0])];
      }
      i := i + 1;
    }
  }

  // ---------------------------------------------------------------- the lookup table

  /** `to_str()` of a literal or a product. */
  function TermStr(t: Term): string
    requires Flat(t)
  {
    if t.Lit? then LitStr(t.c) else AndStr(t.ps)
  }

  /** The largest `size()` in the list, `maxlen`. */
  function MaxSize(ls: seq<Term>): (m: nat)
    requires AllFlat(ls)
    ensures forall k :: 0 <= k < |ls| ==> Size(ls[k]) <= m
  {
    if ls == [] then 0
    else
      var rest := MaxSize(ls[1..]);
      assert forall k :: 1 <= k < |ls| ==> ls[k] == ls[1..][k - 1];
      if Size(ls[0]) > rest then Size(ls[0]) else rest
  }

  /** The renderings of the terms of size `n`, in list order. */
  function SizedStrs(ls: seq<Term>, n: nat): seq<string>
    requires AllFlat(ls)
  {
    if ls == [] then []
    else
      var m := |ls| - 1;
      SizedStrs(ls[..m], n) + (if Size(ls[m]) == n then [TermStr(ls[m])] else [])
  }

  /** The buckets of a prefix one term longer. */
  lemma SizedStrsStep(ls: seq<Term>, k: nat, n: nat)
    requires AllFlat(ls) && k < |ls|
    ensures SizedStrs(ls[..k + 1], n) == SizedStrs(ls[..k], n) + (if Size(ls[k]) == n then [TermStr(ls[k])] else [])
  {
    assert ls[..k + 1][..k] == ls[..k];
  }

  /** Filing term `k` under its size turns the buckets of the first `k` terms into those of
      the first `k + 1`. */
  lemma BucketStep(ls: seq<Term>, k: nat, buckets: seq<seq<string>>, next: seq<seq<string>>, maxlen: nat)
    requires AllFlat(ls) && k < |ls| && Size(ls[k]) <= maxlen && |buckets| == maxlen + 1
    requires forall n :: 0 <= n <= maxlen ==> buckets[n] == SizedStrs(ls[..k], n)
    requires next == buckets[Size(ls[k]) := buckets[Size(ls[k])] + [TermStr(ls[k])]]
    ensures AllFlat(ls[..k + 1]) && forall n :: 0 <= n <= maxlen ==> next[n] == SizedStrs(ls[..k + 1], n)
  {
    forall n | 0 <= n <= maxlen {
      SizedStrsStep(ls, k, n);
    }
  }

  /** One more term within the table. */
  lemma FitsStep(ls: seq<Term>, k: nat, maxlen: nat)
    requires AllFlat(ls) && k < |ls| && Size(ls[k]) <= maxlen
    requires forall m :: 0 <= m < k ==> Size(ls[m]) <= maxlen
    ensures forall m :: 0 <= m < k + 1 ==> Size(ls[m]) <= maxlen
  {
  }

  /** `register_all(ls, max(sizes))`: bucket `n` lists the renderings of the size-`n` terms. */
  function Lookup(ls: seq<Term>): (r: seq<seq<string>>)
    requires AllFlat(ls)
    ensures |r| == MaxSize(ls) + 1
  {
    seq(MaxSize(ls) + 1, n requires 0 <= n => SizedStrs(ls, n))
  }

  // ---------------------------------------------------------------- one pass of the i loop

  /** `get_same(p, q)`: the common literals, when there are some, `p` has exactly one literal
      besides them and `q` at least one. */
  function GetSame(p: seq<CE>, q: seq<CE>): Option<seq<CE>>
  {
    var same := Keep(p, q);
    if |same| == 0 then None
    else if |Different(p, same)| == 1 && |Different(q, same)| != 0 then Some(same)
    else None
  }

  /** `is_suitable(q, same)`: exactly one literal lies in one of the two and not in both. */
  predicate IsSuitable(q: seq<CE>, same: seq<CE>)
  {
    |Different(q, same)| == 1
  }

  /** The test `is_suitable` stands for: `q` is `same` times one more literal. */
  predicate IsExtension(q: seq<CE>, same: seq<CE>)
  {
    IsSuitable(q, same) && forall c :: c in same ==> c in q
  }

  predicate Suitable(fixed: bool, q: seq<CE>, same: seq<CE>)
  {
    if fixed then IsExtension(q, same) else IsSuitable(q, same)
  }

  /** `samePattern`, `cache` and `extracted` while the partners of term `i` are scanned. */
  datatype Scan = Scan(same: Option<seq<CE>>, cache: seq<CE>, extracted: seq<bool>)

  /** One partner `j` of product `i`: extend the current pattern, or look for one. */
  function Visit(fixed: bool, ls: seq<Term>, i: nat, j: nat, st: Scan): (r: Scan)
    requires i < j < |ls| && ls[i].And? && ls[j].And? && |st.extracted| == |ls|
    requires st.cache != [] ==> st.same.Some?
    ensures |r.extracted| == |ls| && (r.cache != [] ==> r.same.Some?)
  {
    var p, q := ls[i].ps, ls[j].ps;
    if st.same.Some? then
      if Suitable(fixed, q, st.same.value) then
        Scan(st.same, st.cache + [Different(q, st.same.value)[0]], st.extracted[j := true])
      else st
    else
      var same := GetSame(p, q);
      if same.None? then st
      else
        var o1, o2 := Different(p, same.value), Different(q, same.value);
        if |o1| == 1 && |o2| == 1 then Scan(same, [o1[0], o2[0]], st.extracted[i := true][j := true])
        else st
  }

  /** The `j` loop from partner `j` on. */
  function ScanPartners(fixed: bool, ls: seq<Term>, i: nat, j: nat, st: Scan): (r: Scan)
    requires i < j <= |ls| && |st.extracted| == |ls|
    requires st.cache != [] ==> st.same.Some?
    ensures |r.extracted| == |ls| && (r.cache != [] ==> r.same.Some?)
    decreases |ls| - j
  {
    if j == |ls| then st
    else if ls[i].And? && ls[j].And? then ScanPartners(fixed, ls, i, j + 1, Visit(fixed, ls, i, j, st))
    else ScanPartners(fixed, ls, i, j + 1, st)
  }

  /** The scan of all partners of term `i`, starting with nothing found. */
  function Partnered(fixed: bool, ls: seq<Term>, i: nat): (r: Scan)
    requires i < |ls|
    ensures |r.extracted| == |ls| && (r.cache != [] ==> r.same.Some?)
  {
    ScanPartners(fixed, ls, i, i + 1, Scan(None, [], Falses(|ls|)))
  }

  /** Every literal negated. */
  function Negs(cache: seq<CE>): (r: seq<CE>)
    ensures |r| == |cache| && forall k :: 0 <= k < |cache| ==> r[k] == Negate(cache[k])
  {
    seq(|cache|, k requires 0 <= k < |cache| => Negate(cache[k]))
  }

  /** The terms a merge keeps, and the common part it appends, are literals or products. */
  lemma FlatMerged(ls: seq<Term>, extracted: seq<bool>, same: seq<CE>)
    requires AllFlat(ls) && |extracted| == |ls|
    ensures AllFlat(Untouched(ls, extracted) + [CastIf(And(same))])
  {
    var kept := Untouched(ls, extracted);
    forall k | 0 <= k < |kept| ensures Flat(kept[k]) {
      assert kept[k] in kept;
      var m :| 0 <= m < |ls| && ls[m] == kept[k];
    }
  }

  /** One pass of the `i` loop: when the negated leftovers render like a term of the list,
      the extracted terms give way to their common part, appended at the end. */
  function MergeAt(fixed: bool, ls: seq<Term>, i: nat): (r: Result<seq<Term>>)
    requires i < |ls| && AllFlat(ls)
    ensures r.Ok? ==> AllFlat(r.value)
  {
    var st := Partnered(fixed, ls, i);
    var size := |st.cache|;
    if size == 0 then Ok(ls)
    else
      var lookup := Lookup(ls);
      if size >= |lookup| then (if fixed then Ok(ls) else Raise("KeyError"))
      else if AndStr(Negs(st.cache)) in lookup[size] then
        FlatMerged(ls, st.extracted, st.same.value);
        Ok(Untouched(ls, st.extracted) + [CastIf(And(st.same.value))])
      else Ok(ls)
  }

  /** The `i` loop of one round from term `i` on; `n` is the list's length when the round
      began, and the loop stops early once `i` runs past the end of the shrunken list. */
  function RoundFrom(fixed: bool, ls: seq<Term>, i: nat, n: nat): (r: Result<seq<Term>>)
    requires AllFlat(ls)
    ensures r.Ok? ==> AllFlat(r.value)
    decreases n - i
  {
    if i >= n || i >= |ls| then Ok(ls)
    else
      var m := MergeAt(fixed, ls, i);
      if m.Raise? then m else RoundFrom(fixed, m.value, i + 1, n)
  }

  /** Pass `i` of a round, given its outcome `m`. */
  lemma RoundFromStep(fixed: bool, ls: seq<Term>, i: nat, n: nat, m: Result<seq<Term>>)
    requires AllFlat(ls) && i < n && i < |ls| && m == MergeAt(fixed, ls, i)
    ensures m.Raise? ==> RoundFrom(fixed, ls, i, n) == m
    ensures m.Ok? ==> RoundFrom(fixed, ls, i, n) == RoundFrom(fixed, m.value, i + 1, n)
  {
  }

  /** A round past its last pass leaves the list as it is. */
  lemma RoundFromDone(fixed: bool, ls: seq<Term>, i: nat, n: nat)
    requires AllFlat(ls) && (i >= n || i >= |ls|)
    ensures RoundFrom(fixed, ls, i, n) == Ok(ls)
  {
  }

  /** One round of the `for x in range(50)` loop. */
  function Round(fixed: bool, ls: seq<Term>): (r: Result<seq<Term>>)
    requires AllFlat(ls)
    ensures r.Ok? ==> AllFlat(r.value)
  {
    RoundFrom(fixed, ls, 0, |ls|)
  }

  /** Rounds `x, x+1, ...`: after round `x` the list is rendered as `str_out`; the loop stops
      when that equals `compared_str` (never in round 1, where `compared_str` is only set) or
      after round 49. */
  function RoundsFrom(fixed: bool, ls: seq<Term>, x: nat, compared: string): (r: Result<seq<Term>>)
    requires x < MaxRounds && AllFlat(ls)
    ensures r.Ok? ==> AllFlat(r.value)
    decreases MaxRounds - x
  {
    var next := Round(fixed, ls);
    if next.Raise? then next
    else
      var s := Render(Or(next.value));
      if s.Raise? then Raise(s.error)
      else if x != 1 && compared == s.value then next
      else if x + 1 == MaxRounds then next
      else RoundsFrom(fixed, next.value, x + 1, s.value)
  }

  /** One round of the loop, once it has run without an exception. */
  lemma RoundsFromNext(fixed: bool, ls: seq<Term>, x: nat, compared: string, next: seq<Term>, s: string)
    requires x < MaxRounds && AllFlat(ls)
    requires Round(fixed, ls) == Ok(next) && Render(Or(next)) == Ok(s)
    ensures RoundsFrom(fixed, ls, x, compared)
      == if (x != 1 && compared == s) || x + 1 == MaxRounds then Ok(next) else RoundsFrom(fixed, next, x + 1, s)
  {
  }

  /** The list `simplify` ends with. */
  function Es2Terms(fixed: bool, input: string): Result<seq<Term>>
  {
    var p := ParseSumSpec(input);
    if p.Raise? then p else RoundsFrom(fixed, p.value, 0, "")
  }

  /** The `'+'`-joined rendering of a list, or the exception instead of a list. */
  function Rendered(t: Result<seq<Term>>): Result<string>
  {
    if t.Raise? then Raise(t.error) else Render(Or(t.value))
  }

  /** `ExtendedSast2(input).simplified` */
  function Es2Spec(fixed: bool, input: string): Result<string>
  {
    Rendered(Es2Terms(fixed, input))
  }

  // ---------------------------------------------------------------- the methods

  /** The `j` loop of `simplify` for term `i`. */
  method Partners(fixed: bool, ls: seq<Term>, i: nat) returns (st: Scan)
    requires i < |ls|
    ensures st == Partnered(fixed, ls, i)
  {
    st := Scan(None, [], Falses(|ls|));
    var iIsAnd := ls[i].And?;
    var j := i + 1;
    while j < |ls|
      invariant i < j <= |ls| && |st.extracted| == |ls| && (st.cache != [] ==> st.same.Some?)
      invariant ScanPartners(fixed, ls, i, j, st) == Partnered(fixed, ls, i)
      decreases |ls| - j
    {
      ScanStep(fixed, ls, i, j, st);
      ghost var visited := if ls[i].And? && ls[j].And? then Visit(fixed, ls, i, j, st) else st;
      if iIsAnd && ls[j].And? {
        if st.same.Some? {
          if Suitable(fixed, ls[j].ps, st.same.value) {
            var o := Different(ls[j].ps, st.same.value);
            st := Scan(st.same, st.cache + [o[0]], st.extracted[j := true]);
          }
        } else {
          var temp := GetSame(ls[i].ps, ls[j].ps);
          if temp.Some? {
            var o1 := Different(ls[i].ps, temp.value);
            var o2 := Different(ls[j].ps, temp.value);
            if |o1| == 1 && |o2| == 1 {
              st := Scan(temp, [o1[0], o2[0]], st.extracted[i := true][j := true]);
            }
          }
        }
      }
      assert st == visited;
      j := j + 1;
    }
  }

  /** The scan from partner `j` is the scan from `j + 1` after visiting `j`. */
  lemma ScanStep(fixed: bool, ls: seq<Term>, i: nat, j: nat, st: Scan)
    requires i < j < |ls| && |st.extracted| == |ls| && (st.cache != [] ==> st.same.Some?)
    ensures ScanPartners(fixed, ls, i, j, st)
         == ScanPartners(fixed, ls, i, j + 1, if ls[i].And? && ls[j].And? then Visit(fixed, ls, i, j, st) else st)
  {
  }

  /** `get_negotated_chain(cache)`: negate the leftovers in place, then their count and the
      rendering of their product. */
  method NegatedChain(cache: seq<CE>) returns (size: nat, s: string)
    ensures size == |cache| && s == AndStr(Negs(cache))
  {
    var ls := cache;
    var k := 0;
    while k < |ls|
      invariant 0 <= k <= |ls| == |cache|
      invariant forall m :: 0 <= m < k ==> ls[m] == Negate(cache[m])
      invariant forall m :: k <= m < |ls| ==> ls[m] == cache[m]
    {
      ls := ls[k := Negate(ls[k])];
      k := k + 1;
    }
    assert ls == Negs(cache);
    size, s := |ls|, AndStr(ls);
  }

  /** `ExtendedSast2(input)`: `lookup` is the table of the current list, `simplified` the
      result of `simplify`. */
  class ExtendedSast2 {
    var lookup: seq<seq<string>>
    var simplified: Result<string>

    constructor(fixed: bool, input: string)
      ensures simplified == Es2Spec(fixed, input)
    {
      lookup := [];
      simplified := Ok("");
      new;
      simplified := Simplify(fixed, input);
    }

    /** `register_all(ls, maxlen)`: bucket `n`, for `n` up to `maxlen`, lists the renderings of
        the terms of size `n` in list order; a larger term has no bucket. */
    method RegisterAll(ls: seq<Term>, maxlen: nat) returns (r: Result<seq<seq<string>>>)
      requires AllFlat(ls)
      ensures r.Ok? <==> forall k :: 0 <= k < |ls| ==> Size(ls[k]) <= maxlen
      ensures r.Raise? ==> r.error == "KeyError"
      ensures r.Ok? ==> |r.value| == maxlen + 1
      ensures r.Ok? ==> forall n :: 0 <= n <= maxlen ==> r.value[n] == SizedStrs(ls, n)
    {
      var temp: seq<seq<string>> := seq(maxlen + 1, _ => []);
      var k := 0;
      while k < |ls|
        invariant 0 <= k <= |ls| && |temp| == maxlen + 1
        invariant forall m :: 0 <= m < k ==> Size(ls[m]) <= maxlen
        invariant AllFlat(ls[..k]) && forall n :: 0 <= n <= maxlen ==> temp[n] == SizedStrs(ls[..k], n)
      {
        var size := Size(ls[k]);
        if size > maxlen {
          return Raise("KeyError");
        }
        ghost var before := temp;
        temp := temp[size := temp[size] + [TermStr(ls[k])]];
        BucketStep(ls, k, before, temp, maxlen);
        FitsStep(ls, k, maxlen);
        k := k + 1;
      }
      assert ls[..k] == ls;
      r := Ok(temp);
    }

    /** The table of a list, built the way `simplify` builds it. */
    method Register(ls: seq<Term>)
      requires AllFlat(ls)
      modifies this
      ensures lookup == Lookup(ls)
    {
      var t := RegisterAll(ls, MaxSize(ls));
      lookup := t.value;
    }

    /** The body of the `i` loop. */
    method MergeStep(fixed: bool, ls: seq<Term>, i: nat) returns (r: Result<seq<Term>>)
      requires i < |ls| && AllFlat(ls) && lookup == Lookup(ls)
      modifies this
      ensures r == MergeAt(fixed, ls, i)
      ensures r.Ok? ==> lookup == Lookup(r.value)
    {
      var st := Partners(fixed, ls, i);
      var size, s := NegatedChain(st.cache);
      if size > 0 {
        if size >= |lookup| {
          if fixed {
            return Ok(ls);
          }
          return Raise("KeyError");
        }
        if s in lookup[size] {
          var next := MergeAt(fixed, ls, i).value;
          assert next == Untouched(ls, st.extracted) + [CastIf(And(st.same.value))];
          Register(next);
          return Ok(next);
        }
      }
      r := Ok(ls);
    }

    /** One round: the `i` loop over the list as it was when the round began. */
    method RunRound(fixed: bool, ls0: seq<Term>) returns (r: Result<seq<Term>>)
      requires AllFlat(ls0) && lookup == Lookup(ls0)
      modifies this
      ensures r == Round(fixed, ls0)
      ensures r.Ok? ==> lookup == Lookup(r.value)
    {
      var ls := ls0;
      var n := |ls|;
      var i := 0;
      while i < n
        invariant 0 <= i <= n && AllFlat(ls) && lookup == Lookup(ls)
        invariant RoundFrom(fixed, ls, i, n) == Round(fixed, ls0)
        decreases n - i
      {
        if i >= |ls| {
          break;
        }
        var m := MergeStep(fixed, ls, i);
        RoundFromStep(fixed, ls, i, n, m);
        if m.Raise? {
          return m;
        }
        ls := m.value;
        i := i + 1;
      }
      RoundFromDone(fixed, ls, i, n);
      r := Ok(ls);
    }

    /** `simplify(input)`: parse, build the table, then the rounds. */
    method Simplify(fixed: bool, input: string) returns (r: Result<string>)
      modifies this
      ensures r == Es2Spec(fixed, input)
    {
      var p := ParseSum(input);
      if p.Raise? {
        return Raise(p.error);
      }
      Register(p.value);
      r := RunRounds(fixed, p.value);
    }

    /** The `for x in range(50)` loop and the rendering of the list it ends with. */
    method RunRounds(fixed: bool, ls0: seq<Term>) returns (r: Result<string>)
      requires AllFlat(ls0) && lookup == Lookup(ls0)
      modifies this
      ensures r == Rendered(RoundsFrom(fixed, ls0, 0, ""))
    {
      var ls := ls0;
      var compared := "";
      var x := 0;
      while true
        invariant 0 <= x < MaxRounds && AllFlat(ls) && lookup == Lookup(ls)
        invariant RoundsFrom(fixed, ls, x, compared) == RoundsFrom(fixed, ls0, 0, "")
        decreases MaxRounds - x
      {
        var stop, res, next, s := RoundOf(fixed, ls, x, compared);
        if stop {
          return res;
        }
        ls, compared, x := next, s, x + 1;
      }
    }

    /** Round `x` of the loop: run it, render the list as `str_out`, and decide whether the
        loop stops here. */
    method RoundOf(fixed: bool, ls: seq<Term>, x: nat, compared: string)
      returns (stop: bool, r: Result<string>, next: seq<Term>, s: string)
      requires x < MaxRounds && AllFlat(ls) && lookup == Lookup(ls)
      modifies this
      ensures stop ==> r == Rendered(RoundsFrom(fixed, ls, x, compared))
      ensures !stop ==> x + 1 < MaxRounds && AllFlat(next) && lookup == Lookup(next)
      ensures !stop ==> RoundsFrom(fixed, next, x + 1, s) == RoundsFrom(fixed, ls, x, compared)
    {
      var n := RunRound(fixed, ls);
      if n.Raise? {
        return true, Raise(n.error), [], "";
      }
      var t := RenderSum(n.value);
      if t.Raise? {
        return true, Raise(t.error), [], "";
      }
      RoundsFromNext(fixed, ls, x, compared, n.value, t.value);
      if (x != 1 && compared == t.value) || x + 1 == MaxRounds {
        return true, t, [], "";
      }
      return false, t, n.value, t.value;
    }
  }
}

/**
 * What the helpers of the second pass compute, and what its rounds guarantee once the
 * suitability test is the intended one: every round keeps the meaning of the list, and the
 * pass never fails on input that parses.
 */
module ExtendedFacts {
  import opened Types
  import opened Terms
  import opened Sast
  import opened SastFacts
  import opened Extended
  import PyStr

  // ---------------------------------------------------------------- list helpers

  lemma {:induction false} DropAppend(ps: seq<CE>, qs: seq<CE>, ks: seq<CE>)
    ensures Drop(ps + qs, ks) == Drop(ps, ks) + Drop(qs, ks)
  {
    if ps == [] {
      assert ps + qs == qs;
    } else {
      var t := ps[1..];
      assert (ps + qs)[1..] == t + qs;
      DropAppend(t, qs, ks);
    }
  }

  lemma {:induction false} KeepAppend(ps: seq<CE>, qs: seq<CE>, ks: seq<CE>)
    ensures Keep(ps + qs, ks) == Keep(ps, ks) + Keep(qs, ks)
  {
    if ps == [] {
      assert ps + qs == qs;
    } else {
      var t := ps[1..];
      assert (ps + qs)[1..] == t + qs;
      KeepAppend(t, qs, ks);
    }
  }

  /** A list whose literals all occur in the other is kept whole ... */
  lemma {:induction false} AllKept(ps: seq<CE>, qs: seq<CE>)
    requires forall c :: c in ps ==> c in qs
    ensures Keep(ps, qs) == ps
  {
    if ps != [] {
      assert ps[0] in ps;
      assert forall c :: c in ps[1..] ==> c in ps;
      AllKept(ps[1..], qs);
      assert [ps[0]] + ps[1..] == ps;
    }
  }

  /** ... and one sharing none of them is dropped whole. */
  lemma {:induction false} AllDropped(ps: seq<CE>, qs: seq<CE>)
    requires forall c :: c in ps ==> c !in qs
    ensures Drop(ps, qs) == ps
  {
    if ps != [] {
      assert ps[0] in ps;
      assert forall c :: c in ps[1..] ==> c in ps;
      AllDropped(ps[1..], qs);
      assert [ps[0]] + ps[1..] == ps;
    }
  }

  lemma NoneKept(ps: seq<CE>, qs: seq<CE>)
    requires forall c :: c in ps ==> c !in qs
    ensures Keep(ps, qs) == []
  {
    if Keep(ps, qs) != [] {
      assert Keep(ps, qs)[0] in Keep(ps, qs);
    }
  }

  /** `Drop` only asks which literals of `ps` occur in the other list. */
  lemma {:induction false} DropCongruent(ps: seq<CE>, ks: seq<CE>, ms: seq<CE>)
    requires forall c :: c in ps ==> (c in ks <==> c in ms)
    ensures Drop(ps, ks) == Drop(ps, ms)
  {
    if ps != [] {
      assert forall c :: c in ps[1..] ==> c in ps;
      DropCongruent(ps[1..], ks, ms);
    }
  }

  lemma NoneDropped(ps: seq<CE>, qs: seq<CE>)
    requires forall c :: c in ps ==> c in qs
    ensures Drop(ps, qs) == []
  {
  }

  /** `extract_different` is the literals of `p` missing from `q` followed by those of `q`
      missing from `p`. */
  lemma DifferentSplit(p: seq<CE>, q: seq<CE>)
    ensures Different(p, q) == Drop(p, q) + Drop(q, p)
  {
    var k := Keep(p, q);
    DropAppend(p, q, k);
    DropCongruent(p, k, q);
    DropCongruent(q, k, p);
  }

  /** `get_same(p, q)` finds a pattern exactly when `p` and `q` share a literal, `p` has exactly
      one literal (counted with repetition) that `q` lacks, and `q` has some literal `p` lacks;
      the leftovers it leaves are those literals. */
  lemma GetSameMeaning(p: seq<CE>, q: seq<CE>)
    ensures GetSame(p, q).Some? <==> Keep(p, q) != [] && |Drop(p, q)| == 1 && Drop(q, p) != []
    ensures GetSame(p, q).Some? ==> GetSame(p, q).value == Keep(p, q)
    ensures Different(p, Keep(p, q)) == Drop(p, q) && Different(q, Keep(p, q)) == Drop(q, p)
  {
    var k := Keep(p, q);
    DifferentSplit(p, k);
    DifferentSplit(q, k);
    NoneDropped(k, p);
    NoneDropped(k, q);
    DropCongruent(p, k, q);
    DropCongruent(q, k, p);
    assert Drop(p, k) + [] == Drop(p, k) && Drop(q, k) + [] == Drop(q, k);
  }

  /** `is_suitable(q, same)` holds in two cases: `q` is `same` with one more literal, or `q`
      lacks exactly one literal of `same` and has nothing else. The corrected test keeps only
      the first, and then the leftover is the extra literal of `q`. */
  lemma SuitableCases(q: seq<CE>, same: seq<CE>)
    ensures IsSuitable(q, same) <==>
      (|Drop(q, same)| == 1 && Drop(same, q) == []) || (Drop(q, same) == [] && |Drop(same, q)| == 1)
    ensures IsExtension(q, same) <==> |Drop(q, same)| == 1 && Drop(same, q) == []
    ensures IsExtension(q, same) ==> Different(q, same) == Drop(q, same)
  {
    DifferentSplit(q, same);
    if forall c :: c in same ==> c in q {
      NoneDropped(same, q);
    }
    assert Drop(q, same) + [] == Drop(q, same);
  }

  // ---------------------------------------------------------------- the lookup table

  /** A bucket lists the rendering of every term of its size ... */
  lemma SizedStrsHas(ls: seq<Term>, n: nat, k: nat)
    requires AllFlat(ls) && k < |ls| && Size(ls[k]) == n
    ensures TermStr(ls[k]) in SizedStrs(ls, n)
  {
    SizedStrsStep(ls, k, n);
    SizedStrsGrow(ls, n, k + 1, TermStr(ls[k]));
  }

  /** A bucket of a prefix is kept in the bucket of the whole list. */
  lemma {:induction false} SizedStrsGrow(ls: seq<Term>, n: nat, j: nat, s: string)
    requires AllFlat(ls) && j <= |ls| && s in SizedStrs(ls[..j], n)
    ensures s in SizedStrs(ls, n)
    decreases |ls| - j
  {
    if j < |ls| {
      SizedStrsStep(ls, j, n);
      SizedStrsGrow(ls, n, j + 1, s);
    } else {
      assert ls[..j] == ls;
    }
  }

  /** ... and nothing else. */
  lemma {:induction false} SizedStrsFrom(ls: seq<Term>, n: nat, s: string)
    requires AllFlat(ls) && s in SizedStrs(ls, n)
    ensures exists k :: 0 <= k < |ls| && Size(ls[k]) == n && TermStr(ls[k]) == s
    decreases |ls|
  {
    var m := |ls| - 1;
    var front := ls[..m];
    if s in SizedStrs(front, n) {
      SizedStrsFrom(front, n, s);
      var k :| 0 <= k < |front| && Size(front[k]) == n && TermStr(front[k]) == s;
      assert front[k] == ls[k];
    } else {
      assert Size(ls[m]) == n && TermStr(ls[m]) == s;
    }
  }

  /** The table `simplify` keeps: one bucket per size up to the largest, each holding what
      `to_str()` gives for the terms of that size. */
  lemma LookupMeaning(ls: seq<Term>, n: nat, s: string)
    requires AllFlat(ls)
    ensures (exists k :: 0 <= k < |ls| && Size(ls[k]) == n) ==> n < |Lookup(ls)|
    ensures n < |Lookup(ls)| ==> (s in Lookup(ls)[n] <==> exists k :: 0 <= k < |ls| && Size(ls[k]) == n && TermStr(ls[k]) == s)
  {
    if n < |Lookup(ls)| && s in Lookup(ls)[n] {
      SizedStrsFrom(ls, n, s);
    }
    if exists k :: 0 <= k < |ls| && Size(ls[k]) == n && TermStr(ls[k]) == s {
      var k :| 0 <= k < |ls| && Size(ls[k]) == n && TermStr(ls[k]) == s;
      SizedStrsHas(ls, n, k);
    }
  }

  // ---------------------------------------------------------------- soundness of the corrected pass

  /** A literal or product over letters only. */
  predicate LetteredTerm(t: Term)
  {
    (t.Lit? ==> PyStr.IsAlpha(t.c.symbol)) && (t.And? ==> Lettered(t.ps))
  }

  predicate AllLettered(ls: seq<Term>)
  {
    forall k :: 0 <= k < |ls| ==> LetteredTerm(ls[k])
  }

  /** What a pattern found for term `i` promises under one assignment: every extracted term
      implies the pattern, and the pattern together with one of the leftovers implies some
      extracted term. */
  ghost predicate Covers(ls: seq<Term>, st: Scan, env: Env)
    requires |st.extracted| == |ls| && st.same.Some?
  {
    && (forall k :: 0 <= k < |ls| && st.extracted[k] && Val(ls[k], env) ==> ProdVal(st.same.value, env))
    && (ProdVal(st.same.value, env) && (exists c :: c in st.cache && LitVal(c, env)) ==>
         exists k :: 0 <= k < |ls| && st.extracted[k] && Val(ls[k], env))
  }

  /** The state of the `j` loop with the corrected test. */
  ghost predicate ScanOk(ls: seq<Term>, st: Scan)
  {
    && |st.extracted| == |ls|
    && (st.same.None? ==> st.cache == [] && forall k :: 0 <= k < |ls| ==> !st.extracted[k])
    && (st.same.Some? ==>
         && |st.cache| >= 2 && Lettered(st.same.value) && Lettered(st.cache)
         && forall env :: Covers(ls, st, env))
  }

  lemma NegateVal(c: CE, env: Env)
    ensures LitVal(Negate(c), env) == !LitVal(c, env)
  {
  }

  /** Extending a pattern by a partner that is the pattern times one more literal. */
  lemma ExtendOk(ls: seq<Term>, j: nat, st: Scan)
    requires j < |ls| && ls[j].And? && Lettered(ls[j].ps) && ScanOk(ls, st) && st.same.Some?
    requires IsExtension(ls[j].ps, st.same.value)
    ensures var q, sp := ls[j].ps, st.same.value;
      ScanOk(ls, Scan(st.same, st.cache + [Different(q, sp)[0]], st.extracted[j := true]))
  {
    var q, sp := ls[j].ps, st.same.value;
    SuitableCases(q, sp);
    var o := Different(q, sp)[0];
    assert Drop(q, sp) == [o];
    var st' := Scan(st.same, st.cache + [o], st.extracted[j := true]);
    forall env ensures Covers(ls, st', env) {
      assert Covers(ls, st, env);
      if ProdVal(sp, env) && exists c :: c in st'.cache && LitVal(c, env) {
        var c :| c in st'.cache && LitVal(c, env);
        if c in st.cache {
          var k :| 0 <= k < |ls| && st.extracted[k] && Val(ls[k], env);
        } else {
          assert c == o;
          forall d | d in q ensures LitVal(d, env) {
            if d !in sp {
              assert d in Drop(q, sp);
              assert d == o;
            }
          }
          assert st'.extracted[j] && Val(ls[j], env);
        }
      }
    }
  }

  /** Where the pattern and the one literal a product has beyond it hold, the product holds. */
  lemma Restores(p: seq<CE>, k: seq<CE>, o: CE, env: Env)
    requires Drop(p, k) == [o] && ProdVal(k, env) && LitVal(o, env)
    ensures ProdVal(p, env)
  {
    forall d | d in p ensures LitVal(d, env) {
      if d !in k {
        assert d in Drop(p, k);
      }
    }
  }

  /** The promise of a pattern shared by products `i` and `j` alone, each being the pattern
      times its own leftover. */
  lemma PairCovers(ls: seq<Term>, i: nat, j: nat, st: Scan, env: Env)
    requires i < j < |ls| && ls[i].And? && ls[j].And? && |st.extracted| == |ls| && st.same.Some?
    requires forall k :: 0 <= k < |ls| && st.extracted[k] ==> k == i || k == j
    requires st.extracted[i] && st.extracted[j]
    requires forall c :: c in st.same.value ==> c in ls[i].ps && c in ls[j].ps
    requires |st.cache| == 2
    requires Drop(ls[i].ps, st.same.value) == [st.cache[0]] && Drop(ls[j].ps, st.same.value) == [st.cache[1]]
    ensures Covers(ls, st, env)
  {
    var sp := st.same.value;
    forall k | 0 <= k < |ls| && st.extracted[k] && Val(ls[k], env) ensures ProdVal(sp, env) {
      assert k == i || k == j;
    }
    if ProdVal(sp, env) && exists c :: c in st.cache && LitVal(c, env) {
      var c :| c in st.cache && LitVal(c, env);
      if c == st.cache[0] {
        Restores(ls[i].ps, sp, c, env);
        assert Val(ls[i], env);
      } else {
        Restores(ls[j].ps, sp, c, env);
        assert Val(ls[j], env);
      }
    }
  }

  /** The pattern `get_same` finds and the leftover each product has beyond it. */
  lemma PairParts(p: seq<CE>, q: seq<CE>)
    requires GetSame(p, q).Some? && |Different(q, GetSame(p, q).value)| == 1
    ensures GetSame(p, q).value == Keep(p, q)
    ensures |Different(p, Keep(p, q))| == 1 && Drop(p, Keep(p, q)) == [Different(p, Keep(p, q))[0]]
    ensures |Different(q, Keep(p, q))| == 1 && Drop(q, Keep(p, q)) == [Different(q, Keep(p, q))[0]]
  {
    GetSameMeaning(p, q);
    var sp := Keep(p, q);
    DropCongruent(p, sp, q);
    DropCongruent(q, sp, p);
  }

  /** A pattern found between products `i` and `j`: both are the common part times one
      literal. */
  lemma PairOk(ls: seq<Term>, i: nat, j: nat, st: Scan)
    requires i < j < |ls| && ls[i].And? && ls[j].And? && Lettered(ls[i].ps) && Lettered(ls[j].ps)
    requires ScanOk(ls, st) && st.same.None? && GetSame(ls[i].ps, ls[j].ps).Some?
    requires |Different(ls[j].ps, GetSame(ls[i].ps, ls[j].ps).value)| == 1
    ensures var p, q := ls[i].ps, ls[j].ps;
      var sp := GetSame(p, q).value;
      ScanOk(ls, Scan(Some(sp), [Different(p, sp)[0], Different(q, sp)[0]], st.extracted[i := true][j := true]))
  {
    var p, q := ls[i].ps, ls[j].ps;
    PairParts(p, q);
    var sp := Keep(p, q);
    var st' := Scan(Some(sp), [Different(p, sp)[0], Different(q, sp)[0]], st.extracted[i := true][j := true]);
    forall env ensures Covers(ls, st', env) {
      PairCovers(ls, i, j, st', env);
    }
  }

  /** One step of the `j` loop keeps its state sound. */
  lemma VisitOk(ls: seq<Term>, i: nat, j: nat, st: Scan)
    requires i < j < |ls| && ls[i].And? && ls[j].And? && AllLettered(ls) && ScanOk(ls, st)
    ensures ScanOk(ls, Visit(true, ls, i, j, st))
  {
    assert LetteredTerm(ls[i]) && LetteredTerm(ls[j]);
    var p, q := ls[i].ps, ls[j].ps;
    if st.same.Some? {
      if IsExtension(q, st.same.value) {
        ExtendOk(ls, j, st);
      }
    } else {
      var same := GetSame(p, q);
      if same.Some? && |Different(p, same.value)| == 1 && |Different(q, same.value)| == 1 {
        PairOk(ls, i, j, st);
      }
    }
  }

  /** The whole `j` loop keeps its state sound. */
  lemma {:induction false} ScanPartnersOk(ls: seq<Term>, i: nat, j: nat, st: Scan)
    requires i < j <= |ls| && AllLettered(ls) && ScanOk(ls, st)
    ensures ScanOk(ls, ScanPartners(true, ls, i, j, st))
    decreases |ls| - j
  {
    if j < |ls| {
      if ls[i].And? && ls[j].And? {
        VisitOk(ls, i, j, st);
        ScanPartnersOk(ls, i, j + 1, Visit(true, ls, i, j, st));
      } else {
        ScanPartnersOk(ls, i, j + 1, st);
      }
    }
  }

  lemma NegsLettered(cache: seq<CE>)
    requires Lettered(cache)
    ensures Lettered(Negs(cache))
  {
    var negs := Negs(cache);
    forall c | c in negs ensures PyStr.IsAlpha(c.symbol) {
      var m :| 0 <= m < |negs| && negs[m] == c;
      assert cache[m] in cache;
    }
  }

  /** Where every leftover fails, every negated leftover holds. */
  lemma NegsHold(cache: seq<CE>, env: Env)
    requires forall c :: c in cache ==> !LitVal(c, env)
    ensures ProdVal(Negs(cache), env)
  {
    var negs := Negs(cache);
    forall c | c in negs ensures LitVal(c, env) {
      var m :| 0 <= m < |negs| && negs[m] == c;
      assert cache[m] in cache;
      NegateVal(cache[m], env);
    }
  }

  /** A product's value depends only on which literals it holds. */
  lemma ProdValMultiset(ps: seq<CE>, qs: seq<CE>, env: Env)
    requires multiset(ps) == multiset(qs)
    ensures ProdVal(ps, env) == ProdVal(qs, env)
  {
    assert forall c :: c in ps <==> c in multiset(qs);
  }

  /** A product over letters whose rendering is that of the negated leftovers holds exactly
      when every leftover fails. */
  lemma NegatedTermVal(t: Term, cache: seq<CE>, env: Env)
    requires Flat(t) && LetteredTerm(t) && Lettered(cache) && |cache| >= 2
    requires Size(t) == |cache| && TermStr(t) == AndStr(Negs(cache))
    requires forall c :: c in cache ==> !LitVal(c, env)
    ensures Val(t, env)
  {
    assert t.And?;
    NegsLettered(cache);
    AndStrInjective(t.ps, Negs(cache));
    NegsHold(cache, env);
    ProdValMultiset(t.ps, Negs(cache), env);
  }

  lemma SingleSum(t: Term, env: Env)
    ensures SumVal([t], env) == Val(t, env)
  {
    assert [t][0] == t;
  }

  /** Where the pattern holds, some term of the list does: an extracted one when a leftover
      holds, the product of the negated leftovers otherwise. */
  lemma PatternVal(ls: seq<Term>, st: Scan, w: nat, env: Env)
    requires |st.extracted| == |ls| && st.same.Some? && Covers(ls, st, env)
    requires |st.cache| >= 2 && Lettered(st.cache)
    requires w < |ls| && Flat(ls[w]) && LetteredTerm(ls[w])
    requires Size(ls[w]) == |st.cache| && TermStr(ls[w]) == AndStr(Negs(st.cache))
    ensures ProdVal(st.same.value, env) ==> SumVal(ls, env)
  {
    if ProdVal(st.same.value, env) {
      if exists c :: c in st.cache && LitVal(c, env) {
        var k :| 0 <= k < |ls| && st.extracted[k] && Val(ls[k], env);
      } else {
        NegatedTermVal(ls[w], st.cache, env);
      }
    }
  }

  /** Replacing the extracted terms by the pattern keeps the meaning, given a term that is the
      product of the negated leftovers. */
  lemma MergeVal(ls: seq<Term>, st: Scan, w: nat, env: Env)
    requires |st.extracted| == |ls| && st.same.Some? && Covers(ls, st, env)
    requires |st.cache| >= 2 && Lettered(st.cache)
    requires w < |ls| && Flat(ls[w]) && LetteredTerm(ls[w])
    requires Size(ls[w]) == |st.cache| && TermStr(ls[w]) == AndStr(Negs(st.cache))
    ensures SumVal(ls, env) == SumVal(Untouched(ls, st.extracted) + [CastIf(And(st.same.value))], env)
  {
    var sp := st.same.value;
    var tail := [CastIf(And(sp))];
    SumValAppend(Untouched(ls, st.extracted), tail, env);
    UntouchedFacts(ls, st.extracted, env);
    SingleSum(CastIf(And(sp)), env);
    PatternVal(ls, st, w, env);
    if SumVal(ls, env) {
      var k :| 0 <= k < |ls| && Val(ls[k], env);
    }
  }

  /** The merged list means what the list meant ... */
  lemma MergedSound(ls: seq<Term>, st: Scan, w: nat)
    requires ScanOk(ls, st) && st.same.Some?
    requires w < |ls| && Flat(ls[w]) && LetteredTerm(ls[w])
    requires Size(ls[w]) == |st.cache| && TermStr(ls[w]) == AndStr(Negs(st.cache))
    ensures Equivalent(ls, Untouched(ls, st.extracted) + [CastIf(And(st.same.value))])
  {
    forall env ensures SumVal(ls, env) == SumVal(Untouched(ls, st.extracted) + [CastIf(And(st.same.value))], env) {
      assert Covers(ls, st, env);
      MergeVal(ls, st, w, env);
    }
  }

  /** ... and stays over letters. */
  lemma MergedLettered(ls: seq<Term>, extracted: seq<bool>, sp: seq<CE>)
    requires AllLettered(ls) && |extracted| == |ls| && Lettered(sp)
    ensures AllLettered(Untouched(ls, extracted) + [CastIf(And(sp))])
  {
    var kept := Untouched(ls, extracted);
    var r := kept + [CastIf(And(sp))];
    forall k | 0 <= k < |r| ensures LetteredTerm(r[k]) {
      if k < |kept| {
        assert kept[k] in kept;
        var m :| 0 <= m < |ls| && ls[m] == kept[k];
      }
    }
  }

  /** One pass of the `i` loop, with the corrected test, keeps the meaning of the list and
      never fails. */
  lemma MergeAtSound(ls: seq<Term>, i: nat)
    requires i < |ls| && AllFlat(ls) && AllLettered(ls)
    ensures MergeAt(true, ls, i).Ok?
    ensures Equivalent(ls, MergeAt(true, ls, i).value) && AllLettered(MergeAt(true, ls, i).value)
  {
    ScanPartnersOk(ls, i, i + 1, Scan(None, [], Falses(|ls|)));
    var st := Partnered(true, ls, i);
    var size := |st.cache|;
    var lookup := Lookup(ls);
    if size > 0 && size < |lookup| && AndStr(Negs(st.cache)) in lookup[size] {
      LookupMeaning(ls, size, AndStr(Negs(st.cache)));
      var w :| 0 <= w < |ls| && Size(ls[w]) == size && TermStr(ls[w]) == AndStr(Negs(st.cache));
      assert LetteredTerm(ls[w]);
      MergedSound(ls, st, w);
      MergedLettered(ls, st.extracted, st.same.value);
    }
  }

  /** A round with the corrected test keeps the meaning of the list and never fails. */
  lemma {:induction false} RoundFromSound(ls: seq<Term>, i: nat, n: nat)
    requires AllFlat(ls) && AllLettered(ls)
    ensures RoundFrom(true, ls, i, n).Ok?
    ensures Equivalent(ls, RoundFrom(true, ls, i, n).value) && AllLettered(RoundFrom(true, ls, i, n).value)
    decreases n - i
  {
    if i < n && i < |ls| {
      MergeAtSound(ls, i);
      RoundFromSound(MergeAt(true, ls, i).value, i + 1, n);
    }
  }

  /** Literals and products always render. */
  lemma {:induction false} PlussedFlat(t: Term, k: nat)
    requires t.Or? && AllFlat(t.ts) && k <= |t.ts|
    ensures Plussed(t, k).Ok?
    decreases |t.ts| - k
  {
    if k < |t.ts| {
      PlussedFlat(t, k + 1);
    }
  }

  /** The rounds with the corrected test keep the meaning of the list and never fail. */
  lemma {:induction false} RoundsFromSound(ls: seq<Term>, x: nat, compared: string)
    requires x < MaxRounds && AllFlat(ls) && AllLettered(ls)
    ensures RoundsFrom(true, ls, x, compared).Ok?
    ensures Equivalent(ls, RoundsFrom(true, ls, x, compared).value)
    decreases MaxRounds - x
  {
    RoundFromSound(ls, 0, |ls|);
    var next := Round(true, ls).value;
    RenderFlat(next);
    var s := Render(Or(next)).value;
    RoundsFromNext(true, ls, x, compared, next, s);
    if !((x != 1 && compared == s) || x + 1 == MaxRounds) {
      RoundsFromSound(next, x + 1, s);
    }
  }

  /** A list of literals and products always renders. */
  lemma RenderFlat(ls: seq<Term>)
    requires AllFlat(ls)
    ensures Render(Or(ls)).Ok?
  {
    PlussedFlat(Or(ls), 0);
    RenderOr(ls);
  }

  /** With the corrected test, `ExtendedSast2` fails only on input that does not parse, and
      the sum it returns is the rendering of a list that means what its input meant. */
  lemma Es2Sound(input: string)
    requires ParseSumSpec(input).Ok? && AllLettered(ParseSumSpec(input).value)
    ensures Es2Terms(true, input).Ok?
    ensures Equivalent(ParseSumSpec(input).value, Es2Terms(true, input).value)
    ensures Es2Spec(true, input) == Render(Or(Es2Terms(true, input).value))
    ensures Es2Spec(true, input).Ok?
  {
    var ls := ParseSumSpec(input).value;
    assert Es2Terms(true, input) == RoundsFrom(true, ls, 0, "");
    RoundsFromSound(ls, 0, "");
    var out := Es2Terms(true, input).value;
    RenderFlat(out);
  }

  // ---------------------------------------------------------------- the code as written

  /** Five different letters. */
  predicate Letters5(a: char, b: char, c: char, d: char, e: char)
  {
    && PyStr.IsAlpha(a) && PyStr.IsAlpha(b) && PyStr.IsAlpha(c) && PyStr.IsAlpha(d) && PyStr.IsAlpha(e)
    && a != b && a != c && a != d && a != e && b != c && b != d && b != e && c != d && c != e && d != e
  }

  /** `A*B*C*D + A*B*C*E + A*B + !C*!D*!E` over the letters `a`..`e`. */
  function SubsetSum(a: char, b: char, c: char, d: char, e: char): seq<Term>
  {
    [And([CE(a, false), CE(b, false), CE(c, false), CE(d, false)]),
     And([CE(a, false), CE(b, false), CE(c, false), CE(e, false)]),
     And([CE(a, false), CE(b, false)]),
     And([CE(c, true), CE(d, true), CE(e, true)])]
  }

  lemma SubsetKeep(a: CE, b: CE, c: CE, d: CE, e: CE)
    requires a != b && a != c && a != d && a != e && b != c && b != d && b != e && c != d && c != e && d != e
    ensures Keep([a, b, c, d], [a, b, c, e]) == [a, b, c]
  {
    var q := [a, b, c, e];
    assert [a, b, c, d] == [a, b, c] + [d];
    KeepAppend([a, b, c], [d], q);
    AllKept([a, b, c], q);
    NoneKept([d], q);
    assert [a, b, c] + [] == [a, b, c];
  }

  lemma SubsetLeft(a: CE, b: CE, c: CE, d: CE, e: CE)
    requires a != b && a != c && a != d && a != e && b != c && b != d && b != e && c != d && c != e && d != e
    ensures Drop([a, b, c, d], [a, b, c, e]) == [d]
  {
    var q := [a, b, c, e];
    assert [a, b, c, d] == [a, b, c] + [d];
    DropAppend([a, b, c], [d], q);
    NoneDropped([a, b, c], q);
    AllDropped([d], q);
    assert [] + [d] == [d];
  }

  /** The pattern `A*B*C` and the leftovers `D`, `E` of the first two terms. */
  lemma SubsetPair(a: CE, b: CE, c: CE, d: CE, e: CE)
    requires a != b && a != c && a != d && a != e && b != c && b != d && b != e && c != d && c != e && d != e
    ensures GetSame([a, b, c, d], [a, b, c, e]) == Some([a, b, c])
    ensures Different([a, b, c, d], [a, b, c]) == [d] && Different([a, b, c, e], [a, b, c]) == [e]
  {
    SubsetKeep(a, b, c, d, e);
    SubsetLeft(a, b, c, d, e);
    SubsetLeft(a, b, c, e, d);
    GetSameMeaning([a, b, c, d], [a, b, c, e]);
  }

  /** `A*B` differs from `A*B*C` in `C` alone ... */
  lemma SubsetShort(a: CE, b: CE, c: CE)
    requires a != b && a != c && b != c
    ensures Different([a, b], [a, b, c]) == [c]
  {
    var p, q := [a, b], [a, b, c];
    NoneDropped(p, q);
    assert q == p + [c];
    DropAppend(p, [c], p);
    NoneDropped(p, p);
    AllDropped([c], p);
    DifferentSplit(p, q);
    assert [] + ([] + [c]) == [c];
  }

  /** ... and `!C*!D*!E` shares nothing with it. */
  lemma SubsetFar(a: CE, b: CE, c: CE, nc: CE, nd: CE, ne: CE)
    requires nc !in [a, b, c] && nd !in [a, b, c] && ne !in [a, b, c]
    ensures !IsSuitable([nc, nd, ne], [a, b, c])
  {
    AllDropped([nc, nd, ne], [a, b, c]);
    DifferentSplit([nc, nd, ne], [a, b, c]);
  }

  /** Terms 0 and 1 of `SubsetSum` give the pattern `A*B*C` with leftovers `D` and `E` ... */
  lemma SubsetVisit1(a: char, b: char, c: char, d: char, e: char)
    requires Letters5(a, b, c, d, e)
    ensures Visit(false, SubsetSum(a, b, c, d, e), 0, 1, Scan(None, [], Falses(4)))
      == Scan(Some([CE(a, false), CE(b, false), CE(c, false)]), [CE(d, false), CE(e, false)], [true, true, false, false])
  {
    SubsetPair(CE(a, false), CE(b, false), CE(c, false), CE(d, false), CE(e, false));
    assert Falses(4)[0 := true][1 := true] == [true, true, false, false];
  }

  /** ... term 2 adds the leftover `C` ... */
  lemma SubsetVisit2(a: char, b: char, c: char, d: char, e: char)
    requires Letters5(a, b, c, d, e)
    ensures var abc := [CE(a, false), CE(b, false), CE(c, false)];
      Visit(false, SubsetSum(a, b, c, d, e), 0, 2, Scan(Some(abc), [CE(d, false), CE(e, false)], [true, true, false, false]))
      == Scan(Some(abc), [CE(d, false), CE(e, false), CE(c, false)], [true, true, true, false])
  {
    SubsetShort(CE(a, false), CE(b, false), CE(c, false));
    assert [CE(d, false), CE(e, false)] + [CE(c, false)] == [CE(d, false), CE(e, false), CE(c, false)];
  }

  /** ... and term 3 is passed over. */
  lemma SubsetVisit3(a: char, b: char, c: char, d: char, e: char)
    requires Letters5(a, b, c, d, e)
    ensures var st := Scan(Some([CE(a, false), CE(b, false), CE(c, false)]), [CE(d, false), CE(e, false), CE(c, false)],
                           [true, true, true, false]);
      Visit(false, SubsetSum(a, b, c, d, e), 0, 3, st) == st
  {
    SubsetFar(CE(a, false), CE(b, false), CE(c, false), CE(c, true), CE(d, true), CE(e, true));
  }

  /** The scan of term 0's partners in `SubsetSum`. */
  lemma SubsetScan(a: char, b: char, c: char, d: char, e: char)
    requires Letters5(a, b, c, d, e)
    ensures Partnered(false, SubsetSum(a, b, c, d, e), 0)
      == Scan(Some([CE(a, false), CE(b, false), CE(c, false)]), [CE(d, false), CE(e, false), CE(c, false)],
              [true, true, true, false])
  {
    var ls := SubsetSum(a, b, c, d, e);
    var abc := [CE(a, false), CE(b, false), CE(c, false)];
    var st1 := Scan(Some(abc), [CE(d, false), CE(e, false)], [true, true, false, false]);
    var st2 := Scan(Some(abc), [CE(d, false), CE(e, false), CE(c, false)], [true, true, true, false]);
    SubsetVisit1(a, b, c, d, e);
    SubsetVisit2(a, b, c, d, e);
    SubsetVisit3(a, b, c, d, e);
    assert ScanPartners(false, ls, 0, 4, st2) == st2;
    assert ScanPartners(false, ls, 0, 3, st2) == st2;
    assert ScanPartners(false, ls, 0, 2, st1) == st2;
  }

  /** A term's rendering sits in the bucket of its size. */
  lemma InBucket(ls: seq<Term>, k: nat, s: string)
    requires AllFlat(ls) && k < |ls| && TermStr(ls[k]) == s
    ensures Size(ls[k]) < |Lookup(ls)| && s in Lookup(ls)[Size(ls[k])]
  {
    LookupMeaning(ls, Size(ls[k]), s);
  }

  lemma SubsetFlat(a: char, b: char, c: char, d: char, e: char)
    ensures AllFlat(SubsetSum(a, b, c, d, e))
    ensures SubsetSum(a, b, c, d, e)[3] == And([CE(c, true), CE(d, true), CE(e, true)])
  {
  }

  lemma SubsetNegs(c: char, d: char, e: char)
    ensures Negs([CE(d, false), CE(e, false), CE(c, false)]) == [CE(d, true), CE(e, true), CE(c, true)]
  {
  }

  lemma Rotate3(x: CE, y: CE, z: CE)
    ensures multiset([y, z, x]) == multiset([x, y, z])
  {
    assert [y, z, x] == [y, z] + [x] && [x, y, z] == [x] + [y, z];
  }

  /** The negated leftovers `!D*!E*!C` render like the last term of `SubsetSum`. */
  lemma SubsetFound(a: char, b: char, c: char, d: char, e: char)
    requires Letters5(a, b, c, d, e)
    ensures 3 < |Lookup(SubsetSum(a, b, c, d, e))|
    ensures AndStr(Negs([CE(d, false), CE(e, false), CE(c, false)])) in Lookup(SubsetSum(a, b, c, d, e))[3]
  {
    SubsetNegs(c, d, e);
    Rotate3(CE(c, true), CE(d, true), CE(e, true));
    AndStrOrderFree([CE(d, true), CE(e, true), CE(c, true)], [CE(c, true), CE(d, true), CE(e, true)]);
    SubsetFlat(a, b, c, d, e);
    InBucket(SubsetSum(a, b, c, d, e), 3, AndStr([CE(c, true), CE(d, true), CE(e, true)]));
  }

  /** Only the last term of `SubsetSum` escapes extraction. */
  lemma SubsetKept(ls: seq<Term>)
    requires |ls| == 4
    ensures Untouched(ls, [true, true, true, false]) == [ls[3]]
  {
    var ex := [true, true, true, false];
    assert Untouched(ls[..1], ex[..1]) == [];
    assert ls[..2][..1] == ls[..1] && ex[..2][..1] == ex[..1];
    assert Untouched(ls[..2], ex[..2]) == [];
    assert ls[..3][..2] == ls[..2] && ex[..3][..2] == ex[..2];
    assert Untouched(ls[..3], ex[..3]) == [];
  }

  /** A pass whose negated leftovers are found in the table merges. */
  lemma MergeAtHit(fixed: bool, ls: seq<Term>, i: nat, same: seq<CE>, cache: seq<CE>, extracted: seq<bool>, size: nat)
    requires i < |ls| && AllFlat(ls) && Partnered(fixed, ls, i) == Scan(Some(same), cache, extracted)
    requires size == |cache| && 0 < size < |Lookup(ls)| && AndStr(Negs(cache)) in Lookup(ls)[size]
    ensures MergeAt(fixed, ls, i) == Ok(Untouched(ls, extracted) + [CastIf(And(same))])
  {
  }

  /** Pass 0 over `SubsetSum` replaces its first three terms by `A*B*C`. */
  lemma SubsetMerge(a: char, b: char, c: char, d: char, e: char)
    requires Letters5(a, b, c, d, e)
    ensures var ls := SubsetSum(a, b, c, d, e);
      MergeAt(false, ls, 0) == Ok([ls[3], And([CE(a, false), CE(b, false), CE(c, false)])])
  {
    var ls := SubsetSum(a, b, c, d, e);
    var abc := [CE(a, false), CE(b, false), CE(c, false)];
    var cache := [CE(d, false), CE(e, false), CE(c, false)];
    var ex := [true, true, true, false];
    SubsetFlat(a, b, c, d, e);
    SubsetScan(a, b, c, d, e);
    SubsetFound(a, b, c, d, e);
    MergeAtHit(false, ls, 0, abc, cache, ex, 3);
    SubsetKept(ls);
    assert CastIf(And(abc)) == And(abc);
    assert [ls[3]] + [And(abc)] == [ls[3], And(abc)];
  }

  /** Where the third term alone holds, the merged list does not. */
  lemma SubsetLoses(ls: seq<Term>, r: seq<Term>, env: Env)
    requires |ls| == 4 && |r| == 2 && Val(ls[2], env) && !Val(r[0], env) && !Val(r[1], env)
    ensures !Equivalent(ls, r)
  {
    assert SumVal(ls, env);
  }

  /** `is_suitable` also accepts a partner that is the pattern minus one literal. In
      `A*B*C*D + A*B*C*E + A*B + !C*!D*!E` the pattern `A*B*C` found for the first two terms
      takes in `A*B` with leftover `C`, the negated leftovers `!C*!D*!E` are the last term, and
      the three products give way to `A*B*C`: the sum now misses A = B = D = 1, C = E = 0. */
  lemma IsSuitableAdmitsSubset(a: char, b: char, c: char, d: char, e: char)
    requires Letters5(a, b, c, d, e)
    ensures var ls := SubsetSum(a, b, c, d, e);
      var r := [ls[3], And([CE(a, false), CE(b, false), CE(c, false)])];
      MergeAt(false, ls, 0) == Ok(r) && !Equivalent(ls, r)
  {
    var ls := SubsetSum(a, b, c, d, e);
    SubsetMerge(a, b, c, d, e);
    var r := [ls[3], And([CE(a, false), CE(b, false), CE(c, false)])];
    var env: Env := x => x == a || x == b || x == d;
    assert !Val(r[0], env) by { assert CE(d, true) in r[0].ps; }
    assert !Val(r[1], env) by { assert CE(c, false) in r[1].ps; }
    SubsetLoses(ls, r, env);
  }

  /** `x*y` differs from `x` in `y` alone. */
  lemma PairBeyond(x: CE, y: CE)
    requires x != y
    ensures Different([x, y], [x]) == [y]
  {
    assert Drop([x, y], [x]) == [y] by {
      assert [x, y] == [x] + [y];
      DropAppend([x], [y], [x]);
      NoneDropped([x], [x]);
      AllDropped([y], [x]);
      assert [] + [y] == [y];
    }
    NoneDropped([x], [x, y]);
    DifferentSplit([x, y], [x]);
  }

  /** `A*D + A*E + A*F` over the letters `a`, `d`, `e`, `f`. */
  function FanSum(a: char, d: char, e: char, f: char): seq<Term>
  {
    [And([CE(a, false), CE(d, false)]), And([CE(a, false), CE(e, false)]), And([CE(a, false), CE(f, false)])]
  }

  /** The scan of term 0's partners in `FanSum`: every term shares `A`, and the three
      leftovers `D`, `E`, `F` are collected. */
  lemma FanScan(a: char, d: char, e: char, f: char)
    requires a != d && a != e && a != f && d != e
    ensures Partnered(false, FanSum(a, d, e, f), 0)
      == Scan(Some([CE(a, false)]), [CE(d, false), CE(e, false), CE(f, false)], [true, true, true])
  {
    var ls := FanSum(a, d, e, f);
    var pa, pd, pe, pf := CE(a, false), CE(d, false), CE(e, false), CE(f, false);
    assert Keep([pa, pd], [pa, pe]) == [pa] by {
      assert [pa, pd] == [pa] + [pd];
      KeepAppend([pa], [pd], [pa, pe]);
      AllKept([pa], [pa, pe]);
      NoneKept([pd], [pa, pe]);
      assert [pa] + [] == [pa];
    }
    PairBeyond(pa, pd);
    PairBeyond(pa, pe);
    PairBeyond(pa, pf);
    assert GetSame([pa, pd], [pa, pe]) == Some([pa]);
    var st0 := Scan(None, [], Falses(3));
    var st1 := Scan(Some([pa]), [pd, pe], [true, true, false]);
    var st2 := Scan(Some([pa]), [pd, pe, pf], [true, true, true]);
    assert Visit(false, ls, 0, 1, st0) == st1;
    assert Visit(false, ls, 0, 2, st1) == st2;
    assert ScanPartners(false, ls, 0, 3, st2) == st2;
    assert ScanPartners(false, ls, 0, 2, st1) == st2;
  }

  /** `simplify` looks the negated leftovers up in the bucket of their size, but three
      leftovers of products of size two have no bucket: on `A*D + A*E + A*F` the first pass
      raises `KeyError`, while the corrected pass leaves the list as it is. */
  lemma LeftoversBeyondTable(a: char, d: char, e: char, f: char)
    requires a != d && a != e && a != f && d != e
    ensures MergeAt(false, FanSum(a, d, e, f), 0) == Raise("KeyError")
  {
    var ls := FanSum(a, d, e, f);
    FanScan(a, d, e, f);
    assert AllFlat(ls);
    assert MaxSize(ls) == 2 by {
      var t := ls[1..][1..];
      assert t == [ls[2]] && t[1..] == [];
      assert MaxSize(t[1..]) == 0;
      assert MaxSize(t) == 2;
      assert MaxSize(ls[1..]) == 2;
    }
  }
}
