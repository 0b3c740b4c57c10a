/**
 * The token-list helpers and the two lexers of the logical evaluator
 * (tools/logical_evaluator/algo.py, lines 1-76).
 *
 * Token lists are Python lists that the code splices in place; here a list is a `seq<Token>`
 * value that each operation returns updated. Python's list indexing is modelled exactly,
 * negative indices included, and a failed index is the `IndexError` it raises.
 */
module Algo {
  import opened Types
  import opened Logic
  import PyStr

  // ---------------------------------------------------------------- Python list operations

  /** The position a Python index names in a list of length `n` (a negative index counts from
      the end); it may still be out of range. */
  function Normalize(n: int, k: int): int
  {
    if k < 0 then k + n else k
  }

  /** `ls[k]` */
  function PyGet(ls: seq<Token>, k: int): (r: Result<Token>)
    ensures r.Ok? <==> -|ls| <= k < |ls|
    ensures 0 <= k < |ls| ==> r == Ok(ls[k])
    ensures -|ls| <= k < 0 ==> r == Ok(ls[|ls| + k])
  {
    var j := Normalize(|ls|, k);
    if 0 <= j < |ls| then Ok(ls[j]) else Raise("IndexError")
  }

  /** `del ls[k]` */
  function PyDel(ls: seq<Token>, k: int): (r: Result<seq<Token>>)
    ensures r.Ok? <==> -|ls| <= k < |ls|
    ensures r.Ok? ==> |r.value| == |ls| - 1 && forall x :: x in r.value ==> x in ls
    ensures 0 <= k < |ls| ==> r == Ok(ls[..k] + ls[k + 1..])
  {
    var j := Normalize(|ls|, k);
    if 0 <= j < |ls| then Ok(ls[..j] + ls[j + 1..]) else Raise("IndexError")
  }

  /** `ls.insert(k, v)`: a position past either end is clamped to that end. */
  function PyInsert(ls: seq<Token>, k: int, v: Token): (r: seq<Token>)
    ensures |r| == |ls| + 1 && forall x :: x in r ==> x in ls || x == v
    ensures 0 <= k <= |ls| ==> r == ls[..k] + [v] + ls[k..]
  {
    var j := if k < 0 then (if k + |ls| < 0 then 0 else k + |ls|) else (if k > |ls| then |ls| else k);
    ls[..j] + [v] + ls[j..]
  }

  /** `ls.count(c)` for a one-character string: only string tokens equal to it are counted. */
  function Count(ls: seq<Token>, c: char): (n: nat)
    ensures n <= |ls|
    ensures n == 0 <==> Raw(c) !in ls
  {
    if ls == [] then 0 else (if ls[0] == Raw(c) then 1 else 0) + Count(ls[1..], c)
  }

  lemma {:induction false} CountConcat(a: seq<Token>, b: seq<Token>, c: char)
    ensures Count(a + b, c) == Count(a, c) + Count(b, c)
  {
    if a != [] {
      assert (a + b)[0] == a[0] && (a + b)[1..] == a[1..] + b;
      CountConcat(a[1..], b, c);
      assert Count(a + b, c) == (if a[0] == Raw(c) then 1 else 0) + Count(a[1..] + b, c);
    } else {
      assert a + b == b;
    }
  }

  // ---------------------------------------------------------------- get_prev_is_letter

  /** `get_prev_is_letter(index, input, size)` */
  function GetPrevIsLetter(index: int, input: string, size: int): (r: Result<bool>)
    ensures size == |input| ==> r == Ok(1 <= index < |input| && PyStr.IsAlpha(input[index - 1]))
  {
    var k := index - 1;
    if k >= 0 && k < size - 1 then
      (if k < |input| then Ok(PyStr.IsAlpha(input[k])) else Raise("IndexError"))
    else Ok(false)
  }

  // ---------------------------------------------------------------- find_braces

  /** Position of the first `')'` at or after `from`. */
  function FirstClose(ls: seq<Token>, from: nat): (r: Option<nat>)
    requires from <= |ls|
    ensures r.Some? ==> from <= r.value < |ls| && ls[r.value] == Raw(')')
    ensures r.Some? ==> forall k :: from <= k < r.value ==> ls[k] != Raw(')')
    ensures r.None? ==> forall k :: from <= k < |ls| ==> ls[k] != Raw(')')
    decreases |ls| - from
  {
    if from == |ls| then None
    else if ls[from] == Raw(')') then Some(from)
    else FirstClose(ls, from + 1)
  }

  /** The pair `find_braces` returns, scanning the positions below `n` from the right. */
  function BracesBelow(ls: seq<Token>, n: nat): (r: Option<(nat, nat)>)
    requires n <= |ls|
    ensures r.Some? ==> r.value.0 < n && r.value.0 < r.value.1 < |ls|
  {
    if n == 0 then None
    else if ls[n - 1] == Raw('(') && FirstClose(ls, n).Some? then Some((n - 1, FirstClose(ls, n).value))
    else BracesBelow(ls, n - 1)
  }

  lemma {:induction false} BracesBelowFacts(ls: seq<Token>, n: nat)
    requires n <= |ls|
    ensures var r := BracesBelow(ls, n);
      r.Some? ==> FirstClose(ls, r.value.0 + 1) == Some(r.value.1) && ls[r.value.0] == Raw('(')
    ensures var r := BracesBelow(ls, n);
      r.Some? ==> forall k :: r.value.0 < k < n && ls[k] == Raw('(') ==> FirstClose(ls, k + 1).None?
    ensures BracesBelow(ls, n).None? ==> forall k :: 0 <= k < n && ls[k] == Raw('(') ==> FirstClose(ls, k + 1).None?
  {
    if n > 0 && !(ls[n - 1] == Raw('(') && FirstClose(ls, n).Some?) {
      BracesBelowFacts(ls, n - 1);
    }
  }

  function FindBracesSpec(ls: seq<Token>): (r: Option<(nat, nat)>)
    ensures r.Some? ==> r.value.0 < r.value.1 < |ls|
  {
    BracesBelow(ls, |ls|)
  }

  /** What `find_braces` promises: the rightmost `'('` that has a `')'` after it, paired with
      the first such `')'`, so the span between them holds no parenthesis; and None exactly
      when no `'('` has a `')'` after it. */
  lemma FindBracesMeaning(ls: seq<Token>)
    ensures var r := FindBracesSpec(ls);
      r.Some? ==>
        && r.value.0 < r.value.1 < |ls|
        && ls[r.value.0] == Raw('(') && ls[r.value.1] == Raw(')')
        && (forall k :: r.value.0 < k < r.value.1 ==> ls[k] != Raw('(') && ls[k] != Raw(')'))
        && (forall i, j :: r.value.0 < i < j < |ls| ==> !(ls[i] == Raw('(') && ls[j] == Raw(')')))
    ensures FindBracesSpec(ls).None? <==> forall i, j :: 0 <= i < j < |ls| ==> !(ls[i] == Raw('(') && ls[j] == Raw(')'))
  {
    BracesBelowFacts(ls, |ls|);
    var r := FindBracesSpec(ls);
    if r.Some? {
      var (a, b) := r.value;
      forall k | a < k < b ensures ls[k] != Raw('(') {
        FirstCloseFrom(ls, a + 1, k + 1, b);
      }
      forall i, j | a < i < j < |ls| ensures !(ls[i] == Raw('(') && ls[j] == Raw(')')) {
        assert ls[i] == Raw('(') ==> FirstClose(ls, i + 1).None?;
      }
    } else {
      forall i, j | 0 <= i < j < |ls| ensures !(ls[i] == Raw('(') && ls[j] == Raw(')')) {
        assert ls[i] == Raw('(') ==> FirstClose(ls, i + 1).None?;
      }
    }
  }

  lemma {:induction false} FirstCloseFrom(ls: seq<Token>, a: nat, k: nat, b: nat)
    requires a <= k <= b < |ls| && FirstClose(ls, a) == Some(b)
    ensures FirstClose(ls, k) == Some(b)
    decreases k - a
  {
    if a < k { FirstCloseFrom(ls, a + 1, k, b); }
  }

  /** `find_braces(ls)`: the nested loops of the source. */
  method FindBraces(ls: seq<Token>) returns (r: Option<(nat, nat)>)
    ensures r == FindBracesSpec(ls)
  {
    var i := |ls| - 1;
    while i >= 0
      invariant -1 <= i < |ls|
      invariant FindBracesSpec(ls) == BracesBelow(ls, i + 1)
    {
      if ls[i] == Raw('(') {
        var j := i + 1;
        while j < |ls|
          invariant i + 1 <= j <= |ls|
          invariant FirstClose(ls, i + 1) == FirstClose(ls, j)
        {
          if ls[j] == Raw(')') {
            return Some((i, j));
          }
          j := j + 1;
        }
      }
      i := i - 1;
    }
    return None;
  }

  // ---------------------------------------------------------------- replace_with, single_replace

  /** `for _ in range(n): del ls[k]` */
  function DelRepeat(ls: seq<Token>, k: int, n: int): (r: Result<seq<Token>>)
    ensures r.Ok? ==> |r.value| == |ls| - (if n < 0 then 0 else n) && forall x :: x in r.value ==> x in ls
    decreases n
  {
    if n <= 0 then Ok(ls)
    else
      var d := PyDel(ls, k);
      if d.Raise? then Raise(d.error) else DelRepeat(d.value, k, n - 1)
  }

  lemma {:induction false} DelRepeatSpan(ls: seq<Token>, k: nat, n: nat)
    requires k + n <= |ls|
    ensures DelRepeat(ls, k, n) == Ok(ls[..k] + ls[k + n..])
    decreases n
  {
    if n > 0 {
      var d := ls[..k] + ls[k + 1..];
      assert PyDel(ls, k) == Ok(d);
      assert DelRepeat(ls, k, n) == DelRepeat(d, k, n - 1);
      DelRepeatSpan(d, k, n - 1);
      assert d[..k] == ls[..k] && d[k + n - 1..] == ls[k + n..];
      assert d[..k] + d[k + n - 1..] == ls[..k] + ls[k + n..];
    } else {
      assert ls[..k] + ls[k..] == ls;
    }
  }

  /** `replace_with(ls, begin, end, value)`: delete at `begin` as many times as `range(begin, end)`
      has elements, then insert `value` at `begin`. */
  function ReplaceSpec(ls: seq<Token>, begin: int, end: int, value: Token): (r: Result<seq<Token>>)
    ensures r.Ok? ==> |r.value| == |ls| - (if end < begin then 0 else end - begin) + 1
    ensures r.Ok? ==> forall x :: x in r.value ==> x in ls || x == value
  {
    var d := DelRepeat(ls, begin, end - begin);
    if d.Raise? then Raise(d.error) else Ok(PyInsert(d.value, begin, value))
  }

  /** Within range, `replace_with` replaces the positions `[begin, end)` by the single `value`:
      the prefix is kept and the suffix shifts. */
  lemma ReplaceInRange(ls: seq<Token>, begin: nat, end: nat, value: Token)
    requires begin <= end <= |ls|
    ensures ReplaceSpec(ls, begin, end, value) == Ok(ls[..begin] + [value] + ls[end..])
  {
    DelRepeatSpan(ls, begin, end - begin);
    var d := ls[..begin] + ls[end..];
    assert d[..begin] == ls[..begin] && d[begin..] == ls[end..];
  }

  /** With `begin == -1`, as in a fold at position 0, the deletions all hit the last element and
      the value lands before the new last element. */
  lemma ReplaceAtMinusOne(ls: seq<Token>, value: Token)
    requires |ls| >= 4
    ensures ReplaceSpec(ls, -1, 2, value) == Ok(ls[..|ls| - 4] + [value, ls[|ls| - 4]])
  {
    var n := |ls|;
    DelLast(ls);
    DelLast(ls[..n - 1]);
    assert ls[..n - 1][..n - 2] == ls[..n - 2];
    DelLast(ls[..n - 2]);
    assert ls[..n - 2][..n - 3] == ls[..n - 3];
    assert DelRepeat(ls[..n - 3], -1, 0) == Ok(ls[..n - 3]);
    assert DelRepeat(ls, -1, 3) == Ok(ls[..n - 3]);
    var t := ls[..n - 3];
    assert PyInsert(t, -1, value) == t[..|t| - 1] + [value] + t[|t| - 1..];
    assert t[..|t| - 1] == ls[..n - 4] && t[|t| - 1..] == [ls[n - 4]];
    assert ls[..n - 4] + [value] + [ls[n - 4]] == ls[..n - 4] + [value, ls[n - 4]];
  }

  lemma DelLast(ls: seq<Token>)
    requires |ls| >= 1
    ensures PyDel(ls, -1) == Ok(ls[..|ls| - 1])
  {
    var j := Normalize(|ls|, -1);
    assert j == |ls| - 1 && ls[j + 1..] == [];
    assert ls[..j] + ls[j + 1..] == ls[..|ls| - 1];
  }

  /** `replace_with` as written: a loop of deletions and one insertion. */
  method ReplaceWith(ls: seq<Token>, begin: int, end: int, value: Token) returns (r: Result<seq<Token>>)
    ensures r == ReplaceSpec(ls, begin, end, value)
  {
    var tokens := ls;
    var insertIndex := begin;
    var i := begin;
    while i < end
      invariant i <= end || i == begin
      invariant DelRepeat(tokens, insertIndex, end - i) == DelRepeat(ls, begin, end - begin)
    {
      var d := PyDel(tokens, insertIndex);
      if d.Raise? {
        return Raise(d.error);
      }
      tokens := d.value;
      i := i + 1;
    }
    return Ok(PyInsert(tokens, insertIndex, value));
  }

  /** `single_replace(ls, index, v)`: `ls.pop(index)` then `ls.insert(index, v)`. */
  function SingleReplace(ls: seq<Token>, index: int, v: Token): (r: Result<seq<Token>>)
    ensures r.Ok? <==> -|ls| <= index < |ls|
    ensures 0 <= index < |ls| ==> r == Ok(ls[index := v])
  {
    var d := PyDel(ls, index);
    if d.Raise? then Raise(d.error)
    else
      var r := PyInsert(d.value, index, v);
      assert 0 <= index < |ls| ==> r == ls[index := v] by {
        if 0 <= index < |ls| {
          assert d.value == ls[..index] + ls[index + 1..];
          assert d.value[..index] == ls[..index] && d.value[index..] == ls[index + 1..];
        }
      }
      Ok(r)
  }

  /** With index -1 the element removed is the last one, but the value lands in front of the
      new last element. */
  lemma SingleReplaceMinusOne(ls: seq<Token>, v: Token)
    requires |ls| >= 2
    ensures SingleReplace(ls, -1, v) == Ok(ls[..|ls| - 2] + [v, ls[|ls| - 2]])
  {
    DelLast(ls);
    var t := ls[..|ls| - 1];
    assert PyInsert(t, -1, v) == t[..|t| - 1] + [v] + t[|t| - 1..];
    assert t[..|t| - 1] == ls[..|ls| - 2] && t[|t| - 1..] == [ls[|ls| - 2]];
    assert ls[..|ls| - 2] + [v] + [ls[|ls| - 2]] == ls[..|ls| - 2] + [v, ls[|ls| - 2]];
  }

  // ---------------------------------------------------------------- lexers

  /** What a lexer produces for one character, up to the identity of the variable objects. */
  datatype Lexeme = Letter(c: char) | One | Zero | Char(c: char)

  function LexChar(c: char): Lexeme
  {
    if PyStr.IsAlpha(c) then Letter(c) else if c == '1' then One else if c == '0' then Zero else Char(c)
  }

  /** A token is the lexeme: a fresh-variable letter, `true()`, `false()` or the character itself. */
  predicate Is(t: Token, x: Lexeme)
  {
    match x
    case Letter(c) => t.Var? && t.v.symbol == c
    case One => t == TrueConst
    case Zero => t == FalseConst
    case Char(c) => t == Raw(c)
  }

  predicate Matches(ts: seq<Token>, xs: seq<Lexeme>)
  {
    |ts| == |xs| && forall k :: 0 <= k < |ts| ==> Is(ts[k], xs[k])
  }

  /** The lexemes of `lex_input` on an already stripped string. */
  function LexPlainSpec(s: string): (xs: seq<Lexeme>)
    ensures |xs| == |s| && forall k :: 0 <= k < |s| ==> xs[k] == LexChar(s[k])
  {
    if s == [] then [] else LexPlainSpec(s[..|s| - 1]) + [LexChar(s[|s| - 1])]
  }

  /** Whether the lexer with adjacency inserts a `'*'` in front of position `i`. */
  predicate StarBefore(s: string, i: nat)
    requires i < |s|
  {
    (PyStr.IsAlpha(s[i]) || s[i] == '!') && i >= 1 && PyStr.IsAlpha(s[i - 1])
  }

  /** The lexemes of `lex_and_consider_adjacents` on an already stripped string. */
  function LexAdjSpec(s: string): seq<Lexeme>
  {
    if s == [] then []
    else LexAdjSpec(s[..|s| - 1]) + (if StarBefore(s, |s| - 1) then [Char('*')] else []) + [LexChar(s[|s| - 1])]
  }

  /** The input with the implicit `'*'`s written out. */
  function Explicit(s: string): string
  {
    if s == [] then []
    else Explicit(s[..|s| - 1]) + (if StarBefore(s, |s| - 1) then "*" else "") + [s[|s| - 1]]
  }

  /** The adjacency lexer is the plain lexer applied to the input with every implicit `*` written
      out: it adds a `'*'` in front of a letter or `'!'` exactly when a letter precedes it. */
  lemma {:induction false} LexAdjIsExplicit(s: string)
    ensures LexAdjSpec(s) == LexPlainSpec(Explicit(s))
    decreases |s|
  {
    if s != [] {
      var p := s[..|s| - 1];
      LexAdjIsExplicit(p);
      var mid := if StarBefore(s, |s| - 1) then "*" else "";
      LexPlainConcat(Explicit(p) + mid, [s[|s| - 1]]);
      LexPlainConcat(Explicit(p), mid);
    }
  }

  lemma LexPlainConcat(a: string, b: string)
    ensures LexPlainSpec(a + b) == LexPlainSpec(a) + LexPlainSpec(b)
  {
  }

  /** Adjacent letters and an explicit `*` lex the same. */
  lemma AdjacentLetters()
    ensures LexAdjSpec("AB") == LexAdjSpec("A*B") == [Letter('A'), Char('*'), Letter('B')]
  {
    assert "AB"[..1] == "A";
    assert "A*B"[..2] == "A*" && "A*"[..1] == "A";
  }

  /** `A!B` lexes as `A*!B`. */
  lemma AdjacentNegation()
    ensures LexAdjSpec("A!B") == LexAdjSpec("A*!B") == [Letter('A'), Char('*'), Char('!'), Letter('B')]
  {
    assert "A!B"[..2] == "A!" && "A!"[..1] == "A";
    assert "A*!B"[..3] == "A*!" && "A*!"[..2] == "A*" && "A*"[..1] == "A";
  }

  /** A letter after an operator gets no `*`. */
  lemma NoAdjacency()
    ensures LexAdjSpec("A+B") == [Letter('A'), Char('+'), Letter('B')]
  {
    assert "A+B"[..2] == "A+" && "A+"[..1] == "A";
  }

  /** All variables among `ts` are distinct objects. */
  predicate DistinctVars(ts: seq<Token>)
  {
    forall i, j :: 0 <= i < j < |ts| && ts[i].Var? && ts[j].Var? ==> ts[i].v != ts[j].v
  }

  /** One more token matching one more lexeme; a variable new to the tokens keeps them distinct. */
  lemma PushToken(ts: seq<Token>, xs: seq<Lexeme>, t: Token, x: Lexeme)
    requires Matches(ts, xs) && Is(t, x) && DistinctVars(ts)
    requires t.Var? ==> forall k :: 0 <= k < |ts| && ts[k].Var? ==> ts[k].v != t.v
    ensures Matches(ts + [t], xs + [x]) && DistinctVars(ts + [t])
  {
  }

  /** The plain lexer reads one more character. */
  lemma LexPlainStep(s: string, i: nat)
    requires i < |s|
    ensures LexPlainSpec(s[..i + 1]) == LexPlainSpec(s[..i]) + [LexChar(s[i])]
  {
    assert s[..i + 1][..i] == s[..i];
  }

  /** The adjacency lexer reads one more character, with a `*` in front when one is implied. */
  lemma LexAdjStep(s: string, i: nat)
    requires i < |s|
    ensures LexAdjSpec(s[..i + 1]) == LexAdjSpec(s[..i]) + (if StarBefore(s, i) then [Char('*')] else []) + [LexChar(s[i])]
  {
    assert s[..i + 1][..i] == s[..i];
    assert StarBefore(s[..i + 1], i) == StarBefore(s, i);
  }

  /** `lex_input(input)` */
  method LexInput(input: string) returns (tokens: seq<Token>)
    ensures Matches(tokens, LexPlainSpec(PyStr.Strip(input, PyStr.Whitespace)))
    ensures DistinctVars(tokens)
    ensures forall k :: 0 <= k < |tokens| && tokens[k].Var? ==> fresh(tokens[k].v) && !tokens[k].v.value
  {
    tokens := LexPlain(PyStr.Strip(input, PyStr.Whitespace));
  }

  /** The loop of `lex_input`, over the stripped input. */
  method LexPlain(s: string) returns (tokens: seq<Token>)
    ensures Matches(tokens, LexPlainSpec(s))
    ensures DistinctVars(tokens)
    ensures forall k :: 0 <= k < |tokens| && tokens[k].Var? ==> fresh(tokens[k].v) && !tokens[k].v.value
  {
    tokens := [];
    ghost var made: set<ConstExpr> := {};
    var i := 0;
    while i < |s|
      invariant 0 <= i <= |s|
      invariant Matches(tokens, LexPlainSpec(s[..i]))
      invariant DistinctVars(tokens)
      invariant fresh(made) && forall o :: o in made ==> !o.value
      invariant forall k :: 0 <= k < |tokens| && tokens[k].Var? ==> tokens[k].v in made
    {
      var c := s[i];
      LexPlainStep(s, i);
      var t: Token;
      if PyStr.IsAlpha(c) {
        var v := new ConstExpr(c, false);
        made := made + {v};
        t := Var(v);
      } else if c == '1' {
        t := TrueConst;
      } else if c == '0' {
        t := FalseConst;
      } else {
        t := Raw(c);
      }
      PushToken(tokens, LexPlainSpec(s[..i]), t, LexChar(c));
      tokens := tokens + [t];
      i := i + 1;
    }
    assert s[..i] == s;
  }

  /** `lex_and_consider_adjacents(input)` */
  method LexAdjacent(input: string) returns (tokens: seq<Token>)
    ensures Matches(tokens, LexAdjSpec(PyStr.Strip(input, PyStr.Whitespace)))
    ensures DistinctVars(tokens)
    ensures forall k :: 0 <= k < |tokens| && tokens[k].Var? ==> fresh(tokens[k].v) && !tokens[k].v.value
  {
    tokens := LexAdjacentStripped(PyStr.Strip(input, PyStr.Whitespace));
  }

  /** The loop of `lex_and_consider_adjacents`, over the stripped input. */
  method LexAdjacentStripped(s: string) returns (tokens: seq<Token>)
    ensures Matches(tokens, LexAdjSpec(s))
    ensures DistinctVars(tokens)
    ensures forall k :: 0 <= k < |tokens| && tokens[k].Var? ==> fresh(tokens[k].v) && !tokens[k].v.value
  {
    tokens := [];
    ghost var made: set<ConstExpr> := {};
    var size := |s|;
    var i := 0;
    while i < |s|
      invariant 0 <= i <= |s|
      invariant Matches(tokens, LexAdjSpec(s[..i]))
      invariant DistinctVars(tokens)
      invariant fresh(made) && forall o :: o in made ==> !o.value
      invariant forall k :: 0 <= k < |tokens| && tokens[k].Var? ==> tokens[k].v in made
    {
      var c := s[i];
      var prev := GetPrevIsLetter(i, s, size);
      LexAdjStep(s, i);
      ghost var xs := LexAdjSpec(s[..i]);
      var t: Token;
      if PyStr.IsAlpha(c) {
        if prev == Ok(true) {
          PushToken(tokens, xs, Raw('*'), Char('*'));
          tokens, xs := tokens + [Raw('*')], xs + [Char('*')];
        }
        var v := new ConstExpr(c, false);
        made := made + {v};
        t := Var(v);
      } else if c == '1' {
        t := TrueConst;
      } else if c == '0' {
        t := FalseConst;
      } else {
        if c == '!' {
          if prev == Ok(true) {
            PushToken(tokens, xs, Raw('*'), Char('*'));
            tokens, xs := tokens + [Raw('*')], xs + [Char('*')];
          }
          t := Raw('!');
        } else {
          t := Raw(c);
        }
      }
      PushToken(tokens, xs, t, LexChar(c));
      tokens := tokens + [t];
      i := i + 1;
    }
    assert s[..i] == s;
  }
}
