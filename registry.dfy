/**
 * The symbol register of the logical evaluator (tools/logical_evaluator/register.py).
 *
 * The register keeps the list `objs` of registered variable objects, the dict `expressions`
 * from each letter to the positions in `objs` registered under it, and the counter
 * `index_ptr`. A Python dict remembers insertion order, so `expressions` is a sequence of
 * entries with distinct keys; `get_headers` lists the keys in that order.
 *
 * The source keeps one process-wide register; here it is an explicit `Register` object.
 */
module Registry {
  import opened Types
  import opened Logic
  import PyStr

  /** One item of the `expressions` dict. */
  datatype Entry = Entry(symbol: char, indexes: seq<int>)

  predicate DistinctKeys(es: seq<Entry>)
  {
    forall i, j :: 0 <= i < j < |es| ==> es[i].symbol != es[j].symbol
  }

  /** `d.keys()` in insertion order. */
  function Headers(es: seq<Entry>): (hs: seq<char>)
    ensures |hs| == |es| && forall k :: 0 <= k < |es| ==> hs[k] == es[k].symbol
  {
    if es == [] then [] else [es[0].symbol] + Headers(es[1..])
  }

  /** Position of key `c`, if present. */
  function KeyPos(es: seq<Entry>, c: char): (r: Option<nat>)
    ensures r.Some? ==> r.value < |es| && es[r.value].symbol == c
    ensures r.None? <==> c !in Headers(es)
  {
    if es == [] then None
    else if es[0].symbol == c then Some(0)
    else
      var r := KeyPos(es[1..], c);
      if r.None? then None else Some(r.value + 1)
  }

  /** `d.get(c)` */
  function Lookup(es: seq<Entry>, c: char): Option<seq<int>>
  {
    var p := KeyPos(es, c);
    if p.None? then None else Some(es[p.value].indexes)
  }

  /** `d[c] = v`: an existing key keeps its place, a new key goes last. */
  function Put(es: seq<Entry>, c: char, v: seq<int>): seq<Entry>
  {
    var p := KeyPos(es, c);
    if p.Some? then es[p.value := Entry(c, v)] else es + [Entry(c, v)]
  }

  /** With distinct keys, a key sits at exactly one position. */
  lemma KeyPosUnique(es: seq<Entry>, k: nat)
    requires DistinctKeys(es) && k < |es|
    ensures KeyPos(es, es[k].symbol) == Some(k)
  {
    var p := KeyPos(es, es[k].symbol);
    assert es[k].symbol in Headers(es);
  }

  /** A dict assignment binds the key, leaves every other key as it was, and appends the key to
      the insertion order only when it is new. */
  lemma PutDistinct(es: seq<Entry>, c: char, v: seq<int>)
    ensures DistinctKeys(es) ==> DistinctKeys(Put(es, c, v))
  {
    PutFacts(es, c, v);
  }

  lemma PutFacts(es: seq<Entry>, c: char, v: seq<int>)
    ensures Lookup(Put(es, c, v), c) == Some(v)
    ensures forall d :: d != c ==> Lookup(Put(es, c, v), d) == Lookup(es, d)
    ensures Headers(Put(es, c, v)) == if c in Headers(es) then Headers(es) else Headers(es) + [c]
    ensures DistinctKeys(es) ==> DistinctKeys(Put(es, c, v))
  {
    var p := KeyPos(es, c);
    if p.Some? {
      PutUpdateFacts(es, p.value, c, v);
    } else {
      PutAppendFacts(es, c, v);
    }
  }

  lemma PutUpdateFacts(es: seq<Entry>, p: nat, c: char, v: seq<int>)
    requires KeyPos(es, c) == Some(p)
    ensures Put(es, c, v) == es[p := Entry(c, v)]
    ensures Lookup(Put(es, c, v), c) == Some(v)
    ensures forall d :: d != c ==> Lookup(Put(es, c, v), d) == Lookup(es, d)
    ensures Headers(Put(es, c, v)) == Headers(es)
    ensures DistinctKeys(es) ==> DistinctKeys(Put(es, c, v))
  {
    var r := es[p := Entry(c, v)];
    assert Put(es, c, v) == r;
    assert Headers(r) == Headers(es);
    forall d | d != c ensures Lookup(r, d) == Lookup(es, d) {
      KeyPosUpdate(es, p, Entry(c, v), d);
    }
    KeyPosSame(es, p, Entry(c, v));
  }

  lemma {:induction false} KeyPosSame(es: seq<Entry>, p: nat, e: Entry)
    requires KeyPos(es, e.symbol) == Some(p)
    ensures KeyPos(es[p := e], e.symbol) == Some(p)
  {
    if p > 0 {
      assert es[p := e][1..] == es[1..][p - 1 := e];
      KeyPosSame(es[1..], p - 1, e);
    }
  }

  lemma PutAppendFacts(es: seq<Entry>, c: char, v: seq<int>)
    requires KeyPos(es, c).None?
    ensures Put(es, c, v) == es + [Entry(c, v)]
    ensures Lookup(Put(es, c, v), c) == Some(v)
    ensures forall d :: d != c ==> Lookup(Put(es, c, v), d) == Lookup(es, d)
    ensures Headers(Put(es, c, v)) == Headers(es) + [c]
    ensures DistinctKeys(es) ==> DistinctKeys(Put(es, c, v))
  {
    var r := es + [Entry(c, v)];
    assert Put(es, c, v) == r;
    assert Headers(r) == Headers(es) + [c];
    forall d | d != c ensures Lookup(r, d) == Lookup(es, d) {
      KeyPosAppend(es, Entry(c, v), d);
    }
    KeyPosAppend(es, Entry(c, v), c);
  }

  lemma {:induction false} KeyPosUpdate(es: seq<Entry>, p: nat, e: Entry, d: char)
    requires p < |es| && es[p].symbol == e.symbol && d != e.symbol
    ensures KeyPos(es[p := e], d) == KeyPos(es, d)
  {
    var t := es[p := e];
    if p > 0 {
      assert t[0] == es[0];
      assert t[1..] == es[1..][p - 1 := e];
      KeyPosUpdate(es[1..], p - 1, e, d);
    } else {
      assert t[0].symbol == es[0].symbol;
      assert t[1..] == es[1..];
    }
  }

  lemma {:induction false} KeyPosAppend(es: seq<Entry>, e: Entry, d: char)
    ensures d != e.symbol ==> KeyPos(es + [e], d) == KeyPos(es, d)
    ensures d == e.symbol && d !in Headers(es) ==> KeyPos(es + [e], d) == Some(|es|)
  {
    if es != [] {
      assert (es + [e])[1..] == es[1..] + [e];
      KeyPosAppend(es[1..], e, d);
    }
  }

  /** The whole register as a value. */
  datatype RegState = RegState(objs: seq<ConstExpr>, expressions: seq<Entry>, indexPtr: int)

  function ListOf(o: Option<seq<int>>): seq<int>
  {
    if o.Some? then o.value else []
  }

  /** `add_constant_expr(c)` */
  function AddConstant(s: RegState, c: char): RegState
  {
    RegState(s.objs, Put(s.expressions, c, ListOf(Lookup(s.expressions, c)) + [s.indexPtr]), s.indexPtr + 1)
  }

  /** `add_constant_expr(c)` appends the current `index_ptr` to the list of `c` (a new list for a
      new letter, which goes last in the header order), changes no other letter's list and
      increments `index_ptr` by one. */
  lemma AddConstantFacts(s: RegState, c: char)
    ensures AddConstant(s, c).objs == s.objs && AddConstant(s, c).indexPtr == s.indexPtr + 1
    ensures Lookup(AddConstant(s, c).expressions, c) == Some(ListOf(Lookup(s.expressions, c)) + [s.indexPtr])
    ensures forall d :: d != c ==> Lookup(AddConstant(s, c).expressions, d) == Lookup(s.expressions, d)
    ensures Headers(AddConstant(s, c).expressions) ==
      if c in Headers(s.expressions) then Headers(s.expressions) else Headers(s.expressions) + [c]
    ensures DistinctKeys(s.expressions) ==> DistinctKeys(AddConstant(s, c).expressions)
  {
    PutFacts(s.expressions, c, ListOf(Lookup(s.expressions, c)) + [s.indexPtr]);
  }

  /** What every node constructor of logic.py does with a direct variable child:
      `objs.append(v)` followed by `add_constant_expr(v.symbol)`. */
  function Enroll(s: RegState, v: ConstExpr): RegState
  {
    AddConstant(s.(objs := s.objs + [v]), v.symbol)
  }

  function EnrollAll(s: RegState, vs: seq<ConstExpr>): RegState
    decreases |vs|
  {
    if vs == [] then s else EnrollAll(Enroll(s, vs[0]), vs[1..])
  }

  lemma {:induction false} EnrollAllAppend(s: RegState, vs: seq<ConstExpr>, ws: seq<ConstExpr>)
    ensures EnrollAll(s, vs + ws) == EnrollAll(EnrollAll(s, vs), ws)
    decreases |vs|
  {
    if vs == [] {
      assert vs + ws == ws;
    } else {
      assert (vs + ws)[0] == vs[0];
      assert (vs + ws)[1..] == vs[1..] + ws;
      EnrollAllAppend(Enroll(s, vs[0]), vs[1..], ws);
    }
  }

  /** The register invariant that registration through the node constructors keeps: keys are
      distinct, `len(objs) == index_ptr`, and every listed position names an object of that letter. */
  predicate Consistent(s: RegState)
  {
    && DistinctKeys(s.expressions)
    && |s.objs| == s.indexPtr
    && forall k, j :: 0 <= k < |s.expressions| && 0 <= j < |s.expressions[k].indexes| ==>
         0 <= s.expressions[k].indexes[j] < |s.objs| && s.objs[s.expressions[k].indexes[j]].symbol == s.expressions[k].symbol
  }

  /** Every registered object is listed under its letter. */
  predicate Complete(s: RegState)
  {
    forall i :: 0 <= i < |s.objs| ==> Lookup(s.expressions, s.objs[i].symbol).Some? && i in Lookup(s.expressions, s.objs[i].symbol).value
  }

  /** Registering one more variable keeps the invariant and lists the new object, leaving every
      earlier listing in place. */
  lemma EnrollKeeps(s: RegState, v: ConstExpr)
    requires Consistent(s)
    ensures Consistent(Enroll(s, v))
    ensures Complete(s) ==> Complete(Enroll(s, v))
  {
    EnrollListings(s, v);
    if Complete(s) {
      EnrollComplete(s, v);
    }
  }

  lemma EnrollListings(s: RegState, v: ConstExpr)
    requires Consistent(s)
    ensures Consistent(Enroll(s, v))
  {
    var t := Enroll(s, v);
    AddConstantFacts(s.(objs := s.objs + [v]), v.symbol);
    forall k, j | 0 <= k < |t.expressions| && 0 <= j < |t.expressions[k].indexes|
      ensures 0 <= t.expressions[k].indexes[j] < |t.objs| && t.objs[t.expressions[k].indexes[j]].symbol == t.expressions[k].symbol
    {
      EnrollListing(s, v, k, j);
    }
  }

  lemma EnrollComplete(s: RegState, v: ConstExpr)
    requires Consistent(s) && Complete(s)
    ensures Complete(Enroll(s, v))
  {
    var t := Enroll(s, v);
    forall i | 0 <= i < |t.objs|
      ensures Lookup(t.expressions, t.objs[i].symbol).Some? && i in Lookup(t.expressions, t.objs[i].symbol).value
    {
      EnrollLists(s, v, i);
    }
  }

  /** After enrolling `v`, object `i` is listed under its letter. */
  lemma EnrollLists(s: RegState, v: ConstExpr, i: nat)
    requires Consistent(s) && Complete(s) && i <= |s.objs|
    ensures var t := Enroll(s, v);
      i < |t.objs| && Lookup(t.expressions, t.objs[i].symbol).Some? && i in Lookup(t.expressions, t.objs[i].symbol).value
  {
    AddConstantFacts(s.(objs := s.objs + [v]), v.symbol);
    if i < |s.objs| {
      var c := s.objs[i].symbol;
      assert i in Lookup(s.expressions, c).value;
    }
  }

  lemma EnrollListing(s: RegState, v: ConstExpr, k: nat, j: nat)
    requires Consistent(s)
    requires k < |Enroll(s, v).expressions| && j < |Enroll(s, v).expressions[k].indexes|
    ensures var t := Enroll(s, v);
      0 <= t.expressions[k].indexes[j] < |t.objs| && t.objs[t.expressions[k].indexes[j]].symbol == t.expressions[k].symbol
  {
    var t := Enroll(s, v);
    AddConstantFacts(s.(objs := s.objs + [v]), v.symbol);
    var es, es2 := s.expressions, t.expressions;
    var c := es2[k].symbol;
    KeyPosUnique(es2, k);
    assert Lookup(es2, c) == Some(es2[k].indexes);
    var p := KeyPos(es, c);
    if c == v.symbol {
      if p.Some? {
        assert es2[k].indexes == es[p.value].indexes + [s.indexPtr];
        if j < |es[p.value].indexes| {
          assert es2[k].indexes[j] == es[p.value].indexes[j];
        }
      } else {
        assert es2[k].indexes == [s.indexPtr];
      }
    } else {
      assert Lookup(es2, c) == Lookup(es, c);
      assert es2[k].indexes == es[p.value].indexes;
      assert es[p.value].indexes[j] == es2[k].indexes[j];
    }
  }

  lemma {:induction false} EnrollAllObjs(s: RegState, vs: seq<ConstExpr>)
    ensures EnrollAll(s, vs).objs == s.objs + vs
    decreases |vs|
  {
    if vs != [] {
      assert Enroll(s, vs[0]).objs == s.objs + [vs[0]];
      EnrollAllObjs(Enroll(s, vs[0]), vs[1..]);
      assert s.objs + [vs[0]] + vs[1..] == s.objs + vs;
    }
  }

  lemma {:induction false} EnrollAllKeeps(s: RegState, vs: seq<ConstExpr>)
    requires Consistent(s)
    ensures Consistent(EnrollAll(s, vs))
    ensures Complete(s) ==> Complete(EnrollAll(s, vs))
    decreases |vs|
  {
    if vs != [] {
      EnrollKeeps(s, vs[0]);
      EnrollAllKeeps(Enroll(s, vs[0]), vs[1..]);
    }
  }

  /** The letters of `cs` that are not yet in `hs`, appended in order of first appearance. */
  function AppendNew(hs: seq<char>, cs: seq<char>): seq<char>
    decreases |cs|
  {
    if cs == [] then hs
    else AppendNew(if cs[0] in hs then hs else hs + [cs[0]], cs[1..])
  }

  function Symbols(vs: seq<ConstExpr>): (r: seq<char>)
    ensures |r| == |vs| && forall k :: 0 <= k < |vs| ==> r[k] == vs[k].symbol
  {
    if vs == [] then [] else [vs[0].symbol] + Symbols(vs[1..])
  }

  /** `get_headers()` lists letters in first-registration order: registering variables appends
      only letters not seen before, in the order they are first registered. */
  lemma {:induction false} EnrollAllHeaders(s: RegState, vs: seq<ConstExpr>)
    ensures Headers(EnrollAll(s, vs).expressions) == AppendNew(Headers(s.expressions), Symbols(vs))
    decreases |vs|
  {
    if vs != [] {
      AddConstantFacts(s.(objs := s.objs + [vs[0]]), vs[0].symbol);
      assert Symbols(vs)[1..] == Symbols(vs[1..]);
      EnrollAllHeaders(Enroll(s, vs[0]), vs[1..]);
    }
  }

  // ---------------------------------------------------------------- order

  /** The letters of `s`, in order: `[i for i in s if i.isalpha()]`. */
  function Letters(s: string): (r: seq<char>)
    ensures forall k :: 0 <= k < |r| ==> PyStr.IsAlpha(r[k])
    ensures forall c :: c in r <==> c in s && PyStr.IsAlpha(c)
  {
    if s == [] then [] else (if PyStr.IsAlpha(s[0]) then [s[0]] else []) + Letters(s[1..])
  }

  predicate SortedChars(cs: seq<char>)
  {
    forall i, j :: 0 <= i < j < |cs| ==> cs[i] <= cs[j]
  }

  function InsertChar(c: char, cs: seq<char>): seq<char>
  {
    if cs == [] || c <= cs[0] then [c] + cs else [cs[0]] + InsertChar(c, cs[1..])
  }

  /** Inserting before the first element not smaller adds exactly one element. */
  lemma {:induction false} InsertCharCount(c: char, cs: seq<char>)
    ensures multiset(InsertChar(c, cs)) == multiset(cs) + multiset{c}
  {
    if cs != [] && !(c <= cs[0]) {
      InsertCharCount(c, cs[1..]);
      assert cs == [cs[0]] + cs[1..];
    }
  }

  /** Inserting before the first element not smaller keeps a sorted list sorted. */
  lemma {:induction false} InsertCharSorted(c: char, cs: seq<char>)
    requires SortedChars(cs)
    ensures SortedChars(InsertChar(c, cs))
  {
    if cs != [] && !(c <= cs[0]) {
      var t := InsertChar(c, cs[1..]);
      InsertCharSorted(c, cs[1..]);
      InsertCharCount(c, cs[1..]);
      forall k | 0 <= k < |t| ensures cs[0] <= t[k] {
        assert t[k] in multiset(t);
        if t[k] != c {
          assert t[k] in multiset(cs[1..]);
        }
      }
      assert InsertChar(c, cs) == [cs[0]] + t;
    }
  }

  /** `sorted(letters)`: Python sorts one-character strings by code point. */
  function SortedLetters(s: string): (r: seq<char>)
    ensures multiset(r) == multiset(Letters(s))
    ensures SortedChars(r)
    decreases |s|
  {
    if s == [] then []
    else
      assert Letters(s) == (if PyStr.IsAlpha(s[0]) then [s[0]] else []) + Letters(s[1..]);
      var r := SortedLetters(s[1..]);
      InsertCharCount(s[0], r);
      InsertCharSorted(s[0], r);
      if PyStr.IsAlpha(s[0]) then InsertChar(s[0], r) else r
  }

  /** The loop of `order`: `expressions[c] = []` for each letter in turn. */
  function SeedKeys(es: seq<Entry>, cs: seq<char>): seq<Entry>
    decreases |cs|
  {
    if cs == [] then es else SeedKeys(Put(es, cs[0], []), cs[1..])
  }

  /** Seeding from position `k` of `cs` puts `cs[k]` and goes on from `k + 1`. */
  lemma SeedKeysStep(es: seq<Entry>, cs: seq<char>, k: nat)
    requires k < |cs|
    ensures SeedKeys(es, cs[k..]) == SeedKeys(Put(es, cs[k], []), cs[k + 1..])
  {
    assert cs[k..][1..] == cs[k + 1..];
  }

  /** Seeding binds every listed letter to an empty list, keeps every other letter's list and
      appends the new letters to the header order. */
  lemma {:induction false} SeedKeysFacts(es: seq<Entry>, cs: seq<char>)
    ensures DistinctKeys(es) ==> DistinctKeys(SeedKeys(es, cs))
    ensures Headers(SeedKeys(es, cs)) == AppendNew(Headers(es), cs)
    ensures forall c :: c in cs ==> Lookup(SeedKeys(es, cs), c) == Some([])
    ensures forall c :: c !in cs ==> Lookup(SeedKeys(es, cs), c) == Lookup(es, c)
    decreases |cs|
  {
    if cs != [] {
      PutFacts(es, cs[0], []);
      SeedKeysFacts(Put(es, cs[0], []), cs[1..]);
    }
  }

  predicate StrictlyIncreasing(cs: seq<char>)
  {
    forall i, j :: 0 <= i < j < |cs| ==> cs[i] < cs[j]
  }

  lemma {:induction false} AppendNewSorted(hs: seq<char>, cs: seq<char>)
    requires StrictlyIncreasing(hs)
    requires forall i, j :: 0 <= i < j < |cs| ==> cs[i] <= cs[j]
    requires forall i, j :: 0 <= i < |hs| && 0 <= j < |cs| ==> hs[i] <= cs[j]
    ensures StrictlyIncreasing(AppendNew(hs, cs))
    ensures forall c :: c in AppendNew(hs, cs) <==> c in hs || c in cs
    decreases |cs|
  {
    if cs != [] {
      var hs' := if cs[0] in hs then hs else hs + [cs[0]];
      if cs[0] !in hs {
        forall i | 0 <= i < |hs| ensures hs[i] < cs[0] { assert hs[i] <= cs[0] && hs[i] != cs[0]; }
      }
      AppendNewSorted(hs', cs[1..]);
    }
  }

  /** `order(s)` on a register without keys makes the headers the distinct letters of `s` in
      increasing code-point order. */
  lemma OrderedHeaders(s: string)
    ensures StrictlyIncreasing(Headers(SeedKeys([], SortedLetters(s))))
    ensures forall c :: c in Headers(SeedKeys([], SortedLetters(s))) <==> c in s && PyStr.IsAlpha(c)
  {
    var cs := SortedLetters(s);
    SeedKeysFacts([], cs);
    AppendNewSorted([], cs);
    forall c ensures c in cs <==> c in Letters(s) {
      assert c in cs <==> c in multiset(cs);
      assert c in Letters(s) <==> c in multiset(Letters(s));
    }
  }

  /** Registering variables whose letters are all keys already leaves the header order as it is,
      so an `order`-seeded register keeps its alphabetical headers. */
  lemma {:induction false} KnownLettersKeepHeaders(hs: seq<char>, cs: seq<char>)
    requires forall c :: c in cs ==> c in hs
    ensures AppendNew(hs, cs) == hs
    decreases |cs|
  {
    if cs != [] { KnownLettersKeepHeaders(hs, cs[1..]); }
  }

  /** The truth value a letter gets from a row vector `ls` lined up with the headers. */
  function RowValue(es: seq<Entry>, ls: seq<bool>, c: char): bool
    requires |ls| == |es|
  {
    var p := KeyPos(es, c);
    if p.Some? then ls[p.value] else false
  }

  // ---------------------------------------------------------------- the register object

  class Register {
    var objs: seq<ConstExpr>
    var expressions: seq<Entry>
    var indexPtr: int

    function State(): RegState
      reads this
    {
      RegState(objs, expressions, indexPtr)
    }

    /** Dict keys are distinct. */
    predicate Valid()
      reads this
    {
      DistinctKeys(expressions)
    }

    constructor (objs: seq<ConstExpr>)
      ensures State() == RegState(objs, [], 0) && Valid()
    {
      this.objs := objs;
      expressions := [];
      indexPtr := 0;
    }

    /** `get_noc()`: the number of distinct letters. */
    method GetNoc() returns (n: int)
      requires Valid()
      ensures n == |Headers(expressions)| == |set c | c in Headers(expressions)|
    {
      n := |expressions|;
      DistinctCard(expressions);
    }

    /** `get_headers()` */
    method GetHeaders() returns (hs: seq<char>)
      ensures hs == Headers(expressions)
    {
      hs := Headers(expressions);
    }

    /** `add_constant_expr(c)` */
    method AddConstantExpr(c: char)
      modifies this
      ensures State() == AddConstant(old(State()), c)
      ensures old(Valid()) ==> Valid()
    {
      var es := Put(expressions, c, ListOf(Lookup(expressions, c)) + [indexPtr]);
      PutDistinct(expressions, c, ListOf(Lookup(expressions, c)) + [indexPtr]);
      expressions := es;
      indexPtr := indexPtr + 1;
    }

    /** `reset()` */
    method Reset()
      modifies this
      ensures State() == RegState([], [], 0) && Valid() && Consistent(State()) && Complete(State())
    {
      objs := [];
      expressions := [];
      indexPtr := 0;
    }

    /** `order(s)`: seed one empty list per letter of `s`, in sorted order. */
    method Order(s: string)
      modifies this
      ensures State() == old(State()).(expressions := SeedKeys(old(expressions), SortedLetters(s)))
    {
      var ls := SortedLetters(s);
      var k := 0;
      ghost var goal := SeedKeys(expressions, ls);
      while k < |ls|
        invariant 0 <= k <= |ls|
        invariant SeedKeys(expressions, ls[k..]) == goal
        invariant objs == old(objs) && indexPtr == old(indexPtr)
      {
        SeedKeysStep(expressions, ls, k);
        expressions := Put(expressions, ls[k], []);
        k := k + 1;
      }
      assert ls[k..] == [];
    }

    /** `load_values(ls)`: give every listed object the value of its letter's column. */
    method LoadValues(ls: seq<bool>) returns (r: Status)
      requires Consistent(State())
      modifies set i | 0 <= i < |objs| :: objs[i]
      ensures |ls| != |expressions| ==> r == Failure("ValueError") && forall i :: 0 <= i < |objs| ==> objs[i].value == old(objs[i].value)
      ensures |ls| == |expressions| ==> r == Success
      ensures |ls| == |expressions| ==> forall k, j :: 0 <= k < |expressions| && 0 <= j < |expressions[k].indexes| ==>
        objs[expressions[k].indexes[j]].value == ls[k]
      ensures forall i :: 0 <= i < |objs| && !Listed(State(), objs[i]) ==> objs[i].value == old(objs[i].value)
    {
      if |ls| != |expressions| {
        return Failure("ValueError");
      }
      ghost var s := State();
      var k := 0;
      while k < |expressions|
        invariant 0 <= k <= |expressions|
        invariant forall k', j :: 0 <= k' < k && 0 <= j < |expressions[k'].indexes| ==> objs[expressions[k'].indexes[j]].value == ls[k']
        invariant forall i :: 0 <= i < |objs| && !Listed(s, objs[i]) ==> objs[i].value == old(objs[i].value)
      {
        var idxs := expressions[k].indexes;
        var j := 0;
        while j < |idxs|
          invariant 0 <= j <= |idxs|
          invariant forall j' :: 0 <= j' < j ==> objs[idxs[j']].value == ls[k]
          invariant forall k', j' :: 0 <= k' < k && 0 <= j' < |expressions[k'].indexes| ==> objs[expressions[k'].indexes[j']].value == ls[k']
          invariant forall i :: 0 <= i < |objs| && !Listed(s, objs[i]) ==> objs[i].value == old(objs[i].value)
        {
          var o := objs[idxs[j]];
          EarlierLetters(s, k, o);
          assert Listed(s, o) by {
            assert 0 <= k < |expressions| && 0 <= j < |expressions[k].indexes| && 0 <= expressions[k].indexes[j] < |objs| && objs[expressions[k].indexes[j]] == o;
          }
          o.value := ls[k];
          j := j + 1;
        }
        k := k + 1;
      }
      r := Success;
    }
  }

  /** An object of the letter of entry `k` sits at no position listed under an earlier entry. */
  lemma EarlierLetters(s: RegState, k: nat, o: ConstExpr)
    requires Consistent(s) && k < |s.expressions| && o.symbol == s.expressions[k].symbol
    ensures forall k', j :: 0 <= k' < k && 0 <= j < |s.expressions[k'].indexes| ==> s.objs[s.expressions[k'].indexes[j]] != o
  {
  }

  /** Some position listed in `es` holds `o`. */
  predicate ListedIn(es: seq<Entry>, objs: seq<ConstExpr>, o: ConstExpr)
  {
    exists k, j :: 0 <= k < |es| && 0 <= j < |es[k].indexes| && 0 <= es[k].indexes[j] < |objs| && objs[es[k].indexes[j]] == o
  }

  predicate Listed(s: RegState, o: ConstExpr)
  {
    ListedIn(s.expressions, s.objs, o)
  }

  /** `order` keeps the register invariant. */
  lemma {:induction false} SeedKeysKeeps(s: RegState, cs: seq<char>)
    requires Consistent(s)
    ensures Consistent(s.(expressions := SeedKeys(s.expressions, cs)))
    decreases |cs|
  {
    if cs != [] {
      PutEmptyKeeps(s, cs[0]);
      SeedKeysKeeps(s.(expressions := Put(s.expressions, cs[0], [])), cs[1..]);
    }
  }

  lemma PutEmptyKeeps(s: RegState, c: char)
    ensures Consistent(s) ==> Consistent(s.(expressions := Put(s.expressions, c, [])))
  {
    if Consistent(s) {
      var es, es2 := s.expressions, Put(s.expressions, c, []);
      PutFacts(es, c, []);
      forall k, j | 0 <= k < |es2| && 0 <= j < |es2[k].indexes|
        ensures 0 <= es2[k].indexes[j] < |s.objs| && s.objs[es2[k].indexes[j]].symbol == es2[k].symbol
      {
        var d := es2[k].symbol;
        assert KeyPos(es2, d) == Some(k);
        assert d != c;
        var p := KeyPos(es, d);
        assert Lookup(es2, d) == Lookup(es, d);
        assert p.Some? by { assert d in Headers(es2); }
        assert es2[k].indexes == es[p.value].indexes;
        assert es[p.value].indexes[j] == es2[k].indexes[j];
      }
    }
  }

  lemma {:induction false} DistinctCard(es: seq<Entry>)
    requires DistinctKeys(es)
    ensures |set c | c in Headers(es)| == |es|
  {
    if es != [] {
      var x, t := es[0].symbol, Headers(es[1..]);
      DistinctCard(es[1..]);
      var rest := set c | c in t;
      assert x !in rest by {
        assert forall k :: 0 <= k < |t| ==> t[k] == es[k + 1].symbol;
      }
      assert (set c | c in Headers(es)) == rest + {x} by {
        assert Headers(es) == [x] + t;
      }
    }
  }
}
