/** Option and Result values used across the models for Python's None and raised exceptions. */
module Types {
  datatype Option<+T> = None | Some(value: T)

  /** A Python call either returns a value or raises; `Raise` names the exception class. */
  datatype Result<+T> = Ok(value: T) | Raise(error: string)

  /** A call that returns None or raises. */
  datatype Status = Success | Failure(error: string)
}

/**
 * The behaviour of the Python `str` and `list` built-ins that the modelled code relies on,
 * restricted to the ASCII range: `isalpha`, `isdigit`, `strip`, `split`, `join`, `replace`,
 * `startswith`, `endswith`, `int(...)`, `str(int)`, `*` on strings, code-point ordering and
 * `sorted` on lists of strings.
 */
module PyStr {
  import opened Types

  predicate IsAlpha(c: char) { 'A' <= c <= 'Z' || 'a' <= c <= 'z' }

  predicate IsDigit(c: char) { '0' <= c <= '9' }

  /**
   * The characters for which Python's `str.isspace()` holds: those `str.strip()`, `str.split()`
   * and `int()` treat as white space.
   */
  const Whitespace: set<char> := {
    '\t', '\n', '\U{000B}', '\U{000C}', '\r', '\U{001C}', '\U{001D}', '\U{001E}', '\U{001F}', ' ',
    '\U{0085}', '\U{00A0}', '\U{1680}', '\U{2000}', '\U{2001}', '\U{2002}', '\U{2003}', '\U{2004}',
    '\U{2005}', '\U{2006}', '\U{2007}', '\U{2008}', '\U{2009}', '\U{200A}', '\U{2028}', '\U{2029}',
    '\U{202F}', '\U{205F}', '\U{3000}'}

  /** `s.lstrip(cs)`: drop the longest prefix made of characters of `cs`. */
  function LStrip(s: string, cs: set<char>): (r: string)
    ensures |r| <= |s|
    ensures r == [] || r[0] !in cs
    ensures forall k :: 0 <= k < |s| - |r| ==> s[k] in cs
  {
    if |s| > 0 && s[0] in cs then LStrip(s[1..], cs) else s
  }

  /** `s.rstrip(cs)`: drop the longest suffix made of characters of `cs`. */
  function RStrip(s: string, cs: set<char>): (r: string)
    ensures |r| <= |s|
    ensures r == [] || r[|r| - 1] !in cs
    ensures forall k :: |r| <= k < |s| ==> s[k] in cs
  {
    if |s| > 0 && s[|s| - 1] in cs then RStrip(s[..|s| - 1], cs) else s
  }

  /** What `lstrip` leaves is a suffix of `s`. */
  lemma {:induction false} LStripSuffix(s: string, cs: set<char>)
    ensures LStrip(s, cs) == s[|s| - |LStrip(s, cs)|..]
  {
    if |s| > 0 && s[0] in cs {
      LStripSuffix(s[1..], cs);
    }
  }

  /** What `rstrip` leaves is a prefix of `s`. */
  lemma {:induction false} RStripPrefix(s: string, cs: set<char>)
    ensures RStrip(s, cs) == s[..|RStrip(s, cs)|]
  {
    if |s| > 0 && s[|s| - 1] in cs {
      RStripPrefix(s[..|s| - 1], cs);
    }
  }

  /** `s.strip(cs)`; `s.strip()` is `Strip(s, Whitespace)`. */
  function Strip(s: string, cs: set<char>): (r: string)
    ensures r == [] || (r[0] !in cs && r[|r| - 1] !in cs)
    ensures r == [] <==> forall k :: 0 <= k < |s| ==> s[k] in cs
  {
    var t := LStrip(s, cs);
    LStripSuffix(s, cs);
    RStripPrefix(t, cs);
    RStrip(t, cs)
  }

  /** `s.startswith(p)` */
  predicate StartsWith(s: string, p: string) { |p| <= |s| && s[..|p|] == p }

  /** `s.endswith(p)` */
  predicate EndsWith(s: string, p: string) { |p| <= |s| && s[|s| - |p|..] == p }

  /** `sep.join(xs)` */
  function Join(xs: seq<string>, sep: string): (r: string)
    ensures |xs| == 1 ==> r == xs[0]
  {
    if |xs| == 0 then "" else if |xs| == 1 then xs[0] else xs[0] + sep + Join(xs[1..], sep)
  }

  /** Index of the first occurrence of `c` in `s`. */
  function IndexOf(s: string, c: char): (k: nat)
    requires c in s
    ensures k < |s| && s[k] == c && c !in s[..k]
  {
    if s[0] == c then 0 else 1 + IndexOf(s[1..], c)
  }

  /** `s.split(sep)` for a one-character separator: always at least one piece. */
  function SplitOn(s: string, sep: char): (r: seq<string>)
    ensures |r| >= 1
    ensures forall k :: 0 <= k < |r| ==> sep !in r[k]
    ensures Join(r, [sep]) == s
    decreases |s|
  {
    if sep !in s then [s]
    else
      var k := IndexOf(s, sep);
      var rest := SplitOn(s[k + 1..], sep);
      assert s == s[..k] + [sep] + s[k + 1..];
      [s[..k]] + rest
  }

  /** Splitting a join of separator-free pieces gives the pieces back. */
  lemma {:induction false} SplitJoin(xs: seq<string>, sep: char)
    requires |xs| >= 1
    requires forall k :: 0 <= k < |xs| ==> sep !in xs[k]
    ensures SplitOn(Join(xs, [sep]), sep) == xs
  {
    if |xs| > 1 {
      var tail := Join(xs[1..], [sep]);
      JoinStep(xs, [sep]);
      FirstSep(xs[0], sep, tail);
      SplitOnAt(xs[0] + [sep] + tail, sep, |xs[0]|);
      SplitJoin(xs[1..], sep);
      assert xs == [xs[0]] + xs[1..];
    }
  }

  lemma JoinStep(xs: seq<string>, sep: string)
    requires |xs| > 1
    ensures Join(xs, sep) == xs[0] + sep + Join(xs[1..], sep)
  {
  }

  /** `split` cuts at the first separator, at index `k`. */
  lemma SplitOnAt(s: string, sep: char, k: nat)
    requires sep in s && IndexOf(s, sep) == k
    ensures SplitOn(s, sep) == [s[..k]] + SplitOn(s[k + 1..], sep)
  {
  }

  /** The first separator of `a + [sep] + t` is the one after `a` when `a` holds none. */
  lemma FirstSep(a: string, sep: char, t: string)
    requires sep !in a
    ensures var s := a + [sep] + t;
      sep in s && IndexOf(s, sep) == |a| && s[..|a|] == a && s[|a| + 1..] == t
  {
    var s := a + [sep] + t;
    assert s[|a|] == sep;
    assert s[..|a|] == a;
    assert s[|a| + 1..] == t;
  }

  /** Length of the run of non-white-space characters at the start of `s`. */
  function WordLength(s: string): (n: nat)
    ensures n <= |s|
    ensures n == |s| || s[n] in Whitespace
  {
    if |s| == 0 || s[0] in Whitespace then 0 else 1 + WordLength(s[1..])
  }

  /** The run `WordLength` measures holds no white space. */
  lemma {:induction false} WordLengthRun(s: string)
    ensures forall k :: 0 <= k < WordLength(s) ==> s[k] !in Whitespace
  {
    if |s| > 0 && s[0] !in Whitespace {
      WordLengthRun(s[1..]);
      assert forall k :: 1 <= k < WordLength(s) ==> s[k] == s[1..][k - 1];
    }
  }

  /** A non-empty run of non-white-space characters. */
  predicate IsWord(w: string)
  {
    w != [] && forall j :: 0 <= j < |w| ==> w[j] !in Whitespace
  }

  /** `s.split()`: the maximal runs of non-white-space characters, in order. */
  function SplitWs(s: string): seq<string>
    decreases |s|
  {
    var t := LStrip(s, Whitespace);
    if t == [] then [] else [t[..WordLength(t)]] + SplitWs(t[WordLength(t)..])
  }

  /** Every piece `s.split()` yields is a word. */
  lemma {:induction false} SplitWords(s: string)
    ensures forall k :: 0 <= k < |SplitWs(s)| ==> IsWord(SplitWs(s)[k])
    decreases |s|
  {
    var t := LStrip(s, Whitespace);
    if t != [] {
      var n := WordLength(t);
      var word := t[..n];
      WordLengthRun(t);
      assert IsWord(word) by {
        assert n > 0;
        forall j | 0 <= j < n
          ensures word[j] !in Whitespace
        {
          assert word[j] == t[j];
        }
      }
      SplitWords(t[n..]);
      assert SplitWs(s) == [word] + SplitWs(t[n..]);
    }
  }

  /** `s.replace(pat, sub)`: every non-overlapping occurrence, scanning left to right. */
  function Replace(s: string, pat: string, sub: string): (r: string)
    ensures |pat| > 0 && StartsWith(s, pat) ==> r == sub + Replace(s[|pat|..], pat, sub)
    decreases |s|
  {
    if |pat| == 0 then (if |s| == 0 then sub else sub + [s[0]] + Replace(s[1..], pat, sub))
    else if StartsWith(s, pat) then sub + Replace(s[|pat|..], pat, sub)
    else if |s| == 0 then ""
    else [s[0]] + Replace(s[1..], pat, sub)
  }

  /** Occurs(s, p): `p in s` for strings. */
  predicate Occurs(s: string, p: string) { exists k :: 0 <= k <= |s| && StartsWith(s[k..], p) }

  /** A string in which `pat` does not occur is left as it is. */
  lemma {:induction false} ReplaceAbsent(s: string, pat: string, sub: string)
    requires |pat| > 0 && !Occurs(s, pat)
    ensures Replace(s, pat, sub) == s
    decreases |s|
  {
    if |s| > 0 {
      assert s[0..] == s;
      assert !Occurs(s[1..], pat) by {
        forall k | 0 <= k <= |s[1..]| ensures !StartsWith(s[1..][k..], pat) {
          assert s[1..][k..] == s[k + 1..];
        }
      }
      ReplaceAbsent(s[1..], pat, sub);
    }
  }

  /** `s * n` for a string and an integer (empty for n <= 0). */
  function Repeat(s: string, n: int): string
    decreases n
  {
    if n <= 0 then "" else s + Repeat(s, n - 1)
  }

  /** Number of occurrences of `c` in `s` (`s.count(c)` for one character). */
  function CountChar(s: string, c: char): (n: nat)
    ensures n <= |s|
    ensures n == 0 <==> c !in s
  {
    if |s| == 0 then 0 else (if s[0] == c then 1 else 0) + CountChar(s[1..], c)
  }

  // ---------------------------------------------------------------- integers

  function DigitChar(d: nat): char
    requires d < 10
  {
    "0123456789"[d]
  }

  /** Decimal digits of a natural number, without sign or leading zeros. */
  function NatToStr(n: nat): (r: string)
    ensures |r| >= 1 && forall k :: 0 <= k < |r| ==> IsDigit(r[k])
    ensures r[0] == '0' ==> n == 0
  {
    if n < 10 then [DigitChar(n)] else NatToStr(n / 10) + [DigitChar(n % 10)]
  }

  /** `str(n)` for an int. */
  function IntToStr(n: int): (r: string)
    ensures |r| >= 1
  {
    if n < 0 then "-" + NatToStr(-n) else NatToStr(n)
  }

  /** Value of a non-empty string of decimal digits. */
  function DigitsValue(s: string): (n: nat)
    requires forall k :: 0 <= k < |s| ==> IsDigit(s[k])
  {
    if |s| == 0 then 0
    else
      assert IsDigit(s[|s| - 1]);
      10 * DigitsValue(s[..|s| - 1]) + (s[|s| - 1] as int - '0' as int)
  }

  predicate AllDigits(s: string) { |s| > 0 && forall k :: 0 <= k < |s| ==> IsDigit(s[k]) }

  /** `int(s)` for an optional sign followed by decimal digits, surrounded by optional white space;
      anything else raises ValueError. */
  function ParseInt(s: string): (r: Result<int>)
  {
    ParseSignedDigits(Strip(s, Whitespace))
  }

  /** `int(t)` once the white space around `t` is gone. */
  function ParseSignedDigits(t: string): (r: Result<int>)
  {
    if AllDigits(t) then Ok(DigitsValue(t))
    else if |t| > 1 && t[0] == '-' && AllDigits(t[1..]) then Ok(0 - DigitsValue(t[1..]))
    else if |t| > 1 && t[0] == '+' && AllDigits(t[1..]) then Ok(DigitsValue(t[1..]))
    else Raise("ValueError")
  }

  lemma {:induction false} DigitsOfNat(n: nat)
    ensures AllDigits(NatToStr(n)) && DigitsValue(NatToStr(n)) == n
  {
    var s := NatToStr(n);
    if n >= 10 {
      DigitsOfNat(n / 10);
      assert s[..|s| - 1] == NatToStr(n / 10);
    }
  }

  lemma StripUnchanged(s: string, cs: set<char>)
    requires |s| > 0 && s[0] !in cs && s[|s| - 1] !in cs
    ensures Strip(s, cs) == s
  {
    assert LStrip(s, cs) == s;
  }

  lemma StripDigits(s: string)
    requires AllDigits(s)
    ensures Strip(s, Whitespace) == s
  {
    assert IsDigit(s[0]) && IsDigit(s[|s| - 1]);
    StripUnchanged(s, Whitespace);
  }

  lemma ParseNat(n: nat)
    ensures ParseInt(NatToStr(n)) == Ok(n)
  {
    var s := NatToStr(n);
    DigitsOfNat(n);
    StripDigits(s);
  }

  /** A minus sign before a run of digits has nothing to strip. */
  lemma MinusDigitsStrip(d: string)
    requires AllDigits(d)
    ensures Strip("-" + d, Whitespace) == "-" + d
  {
    var s := "-" + d;
    assert s[|s| - 1] == d[|d| - 1];
    assert IsDigit(d[|d| - 1]);
    StripUnchanged(s, Whitespace);
  }

  /** A minus sign before a run of digits reads as the negated digits. */
  lemma ParseSigned(d: string)
    requires AllDigits(d)
    ensures ParseInt("-" + d) == Ok(0 - DigitsValue(d))
  {
    MinusDigitsStrip(d);
    MinusDigitsValue(d);
  }

  lemma MinusDigitsValue(d: string)
    requires AllDigits(d)
    ensures ParseSignedDigits("-" + d) == Ok(0 - DigitsValue(d))
  {
    var s := "-" + d;
    assert !AllDigits(s) by { assert !IsDigit(s[0]); }
    assert s[1..] == d;
  }

  lemma ParseNegative(n: nat)
    ensures ParseInt("-" + NatToStr(n)) == Ok(0 - n)
  {
    DigitsOfNat(n);
    ParseSigned(NatToStr(n));
  }

  /** `int(str(n)) == n` */
  lemma ParseIntToStr(n: int)
    ensures ParseInt(IntToStr(n)) == Ok(n)
  {
    if n < 0 {
      ParseNegativeAt(IntToStr(n), -n);
    } else {
      ParseNatAt(IntToStr(n), n);
    }
  }

  /** `ParseIntToStr` for a string known to be `IntToStr(n)`. */
  lemma ParseIntAt(s: string, n: int)
    requires s == IntToStr(n)
    ensures ParseInt(s) == Ok(n)
  {
    ParseIntToStr(n);
  }

  /** `ParseNegative` for a string known to be `"-" + NatToStr(m)`. */
  lemma ParseNegativeAt(s: string, m: nat)
    requires s == "-" + NatToStr(m)
    ensures ParseInt(s) == Ok(0 - m)
  {
    ParseNegative(m);
  }

  /** `ParseNat` for a string known to be `NatToStr(m)`. */
  lemma ParseNatAt(s: string, m: nat)
    requires s == NatToStr(m)
    ensures ParseInt(s) == Ok(m)
  {
    ParseNat(m);
  }

  /** `2 ** k` */
  function Pow2(k: nat): (r: nat)
    ensures r >= 1
  {
    if k == 0 then 1 else 2 * Pow2(k - 1)
  }

  lemma {:induction false} Pow2Add(a: nat, b: nat)
    ensures Pow2(a + b) == Pow2(a) * Pow2(b)
    decreases a
  {
    if a > 0 { Pow2Add(a - 1, b); }
  }

  lemma MulAtLeast(a: int, m: int)
    requires a >= 1 && m > 0
    ensures a * m >= m
  {
    assert a * m == (a - 1) * m + m;
    assert (a - 1) * m >= 0;
  }

  /** A quotient and remainder in range are the ones `/` and `%` give. */
  lemma DivModUnique(x: int, m: int, q: int, r: int)
    requires m > 0 && 0 <= r < m && x == q * m + r
    ensures x / m == q && x % m == r
  {
    var q', r' := x / m, x % m;
    assert x == q' * m + r';
    if q' > q {
      assert (q' - q) * m == q' * m - q * m;
      MulAtLeast(q' - q, m);
    } else if q' < q {
      assert (q - q') * m == q * m - q' * m;
      MulAtLeast(q - q', m);
    }
  }

  // ---------------------------------------------------------------- ordering and sorting

  /** Python's `<` on strings: lexicographic by code point, a proper prefix being smaller. */
  predicate StrLess(a: string, b: string)
    decreases |a|
  {
    if |a| == 0 then |b| > 0
    else if |b| == 0 then false
    else if a[0] != b[0] then a[0] < b[0]
    else StrLess(a[1..], b[1..])
  }

  predicate StrLessEq(a: string, b: string) { a == b || StrLess(a, b) }

  lemma {:induction false} StrLessIrreflexive(a: string)
    ensures !StrLess(a, a)
    decreases |a|
  {
    if |a| > 0 { StrLessIrreflexive(a[1..]); }
  }

  lemma {:induction false} StrLessTotal(a: string, b: string)
    ensures a == b || StrLess(a, b) || StrLess(b, a)
    decreases |a|
  {
    if |a| > 0 && |b| > 0 && a[0] == b[0] {
      StrLessTotal(a[1..], b[1..]);
      if a[1..] == b[1..] { assert a == [a[0]] + a[1..] && b == [b[0]] + b[1..]; }
    }
  }

  lemma {:induction false} StrLessAsymmetric(a: string, b: string)
    ensures !(StrLess(a, b) && StrLess(b, a))
    decreases |a|
  {
    if |a| > 0 && |b| > 0 && a[0] == b[0] { StrLessAsymmetric(a[1..], b[1..]); }
  }

  lemma {:induction false} StrLessTransitive(a: string, b: string, c: string)
    requires StrLess(a, b) && StrLess(b, c)
    ensures StrLess(a, c)
    decreases |a|
  {
    if |a| > 0 && a[0] == b[0] && b[0] == c[0] { StrLessTransitive(a[1..], b[1..], c[1..]); }
  }

  predicate SortedStrs(xs: seq<string>)
  {
    forall i, j :: 0 <= i < j < |xs| ==> StrLessEq(xs[i], xs[j])
  }

  /** Insert `x` before the first element that is not smaller than it. */
  function InsertSorted(x: string, xs: seq<string>): (r: seq<string>)
    ensures multiset(r) == multiset(xs) + multiset{x}
    ensures |r| == |xs| + 1
  {
    if |xs| == 0 || StrLessEq(x, xs[0]) then [x] + xs
    else
      assert xs == [xs[0]] + xs[1..];
      [xs[0]] + InsertSorted(x, xs[1..])
  }

  /** Python's `sorted(xs)` on a list of strings (insertion sort as the reference). */
  function SortStrs(xs: seq<string>): (r: seq<string>)
    ensures multiset(r) == multiset(xs)
    ensures |r| == |xs|
  {
    if |xs| == 0 then []
    else
      assert xs == [xs[0]] + xs[1..];
      InsertSorted(xs[0], SortStrs(xs[1..]))
  }

  lemma {:induction false} InsertSortedKeepsOrder(x: string, xs: seq<string>)
    requires SortedStrs(xs)
    ensures SortedStrs(InsertSorted(x, xs))
  {
    if |xs| == 0 || StrLessEq(x, xs[0]) {
      var r := [x] + xs;
      forall i, j | 0 <= i < j < |r| ensures StrLessEq(r[i], r[j]) {
        if i == 0 && j > 1 {
          if x != xs[0] && xs[0] != xs[j - 1] { StrLessTransitive(x, xs[0], xs[j - 1]); }
        }
      }
    } else {
      InsertSortedKeepsOrder(x, xs[1..]);
      var r := InsertSorted(x, xs);
      var t := InsertSorted(x, xs[1..]);
      assert r == [xs[0]] + t;
      StrLessTotal(x, xs[0]);
      forall k | 0 <= k < |t| ensures StrLessEq(xs[0], t[k]) {
        assert t[k] in multiset(t);
        assert t[k] == x || t[k] in multiset(xs[1..]);
        if t[k] != x {
          var m :| 0 <= m < |xs[1..]| && xs[1..][m] == t[k];
          assert xs[m + 1] == t[k];
        }
      }
    }
  }

  lemma {:induction false} SortStrsSorted(xs: seq<string>)
    ensures SortedStrs(SortStrs(xs))
  {
    if |xs| > 0 {
      SortStrsSorted(xs[1..]);
      InsertSortedKeepsOrder(xs[0], SortStrs(xs[1..]));
    }
  }

  /** The first element of a sorted list is at most every element of it. */
  lemma SortedHeadLeast(xs: seq<string>, e: string)
    requires SortedStrs(xs) && e in multiset(xs)
    ensures StrLessEq(xs[0], e)
  {
    var i :| 0 <= i < |xs| && xs[i] == e;
    if i > 0 { assert StrLessEq(xs[0], xs[i]); }
  }

  lemma SortedTail(xs: seq<string>)
    requires SortedStrs(xs) && |xs| > 0
    ensures SortedStrs(xs[1..])
  {
    forall i, j | 0 <= i < j < |xs| - 1
      ensures StrLessEq(xs[1..][i], xs[1..][j])
    {
      assert xs[1..][i] == xs[i + 1] && xs[1..][j] == xs[j + 1];
    }
  }

  /** Dropping the first element of a list drops one copy of it from its multiset. */
  lemma MultisetTail(xs: seq<string>)
    requires |xs| > 0
    ensures multiset(xs[1..]) == multiset(xs) - multiset{xs[0]}
  {
    assert xs == [xs[0]] + xs[1..];
  }

  /** Two sorted lists with the same elements are equal: the sorted order is unique. */
  lemma {:induction false} SortedUnique(xs: seq<string>, ys: seq<string>)
    requires SortedStrs(xs) && SortedStrs(ys) && multiset(xs) == multiset(ys)
    ensures xs == ys
    decreases |xs|
  {
    if |xs| == 0 {
      assert |ys| == |multiset(ys)| == 0;
    } else {
      SortedSameHead(xs, ys);
      MultisetTail(xs);
      MultisetTail(ys);
      SortedTail(xs);
      SortedTail(ys);
      SortedUnique(xs[1..], ys[1..]);
      assert xs == [xs[0]] + xs[1..] && ys == [ys[0]] + ys[1..];
    }
  }

  /** Two sorted lists with the same elements start with the same element. */
  lemma SortedSameHead(xs: seq<string>, ys: seq<string>)
    requires SortedStrs(xs) && SortedStrs(ys) && multiset(xs) == multiset(ys) && |xs| > 0
    ensures |ys| > 0 && xs[0] == ys[0]
  {
    assert |ys| == |multiset(ys)| == |multiset(xs)| == |xs|;
    assert xs[0] in multiset(xs) && ys[0] in multiset(ys);
    SortedHeadLeast(ys, xs[0]);
    SortedHeadLeast(xs, ys[0]);
    StrLessAsymmetric(xs[0], ys[0]);
  }

  /** Rendering after `sorted` does not depend on the order of the input list. */
  lemma SortStrsPermutationInvariant(xs: seq<string>, ys: seq<string>)
    requires multiset(xs) == multiset(ys)
    ensures SortStrs(xs) == SortStrs(ys)
  {
    SortStrsSorted(xs);
    SortStrsSorted(ys);
    SortedUnique(SortStrs(xs), SortStrs(ys));
  }
}
