/**
 * The sorting visualiser of static/sorting.js without its drawing: the
 * array being sorted and the `comparisons` and `swaps` counters it shows.
 * Every algorithm works in place on the array, as the source does, and is
 * proved to leave the array sorted and a permutation of what it held.
 */
module Sorting {

  /** Non-decreasing order. */
  ghost predicate Sorted(s: seq<int>)
  {
    forall i, j :: 0 <= i < j < |s| ==> s[i] <= s[j]
  }

  /** Every value of `s` is at most every value of `t`. */
  ghost predicate Below(s: seq<int>, t: seq<int>)
  {
    forall i, j :: 0 <= i < |s| && 0 <= j < |t| ==> s[i] <= t[j]
  }

  /** The first m values are sorted and none exceeds a later value. */
  ghost predicate SortedHead(s: seq<int>, m: int)
  {
    0 <= m <= |s| && Sorted(s[..m]) && Below(s[..m], s[m..])
  }

  /** The values from m on are sorted and none is below an earlier value. */
  ghost predicate SortedTail(s: seq<int>, m: int)
  {
    0 <= m <= |s| && Sorted(s[m..]) && Below(s[..m], s[m..])
  }

  /** `t` is `s` with the stretch [lo, hi) rearranged and everything else in place. */
  ghost predicate Permuted(s: seq<int>, t: seq<int>, lo: int, hi: int)
  {
    |t| == |s| && 0 <= lo <= hi <= |s| && multiset(t) == multiset(s) &&
    forall k :: 0 <= k < |s| && !(lo <= k < hi) ==> t[k] == s[k]
  }

  /** (n-1) + (n-2) + ... + 1: the comparisons of bubble and selection sort on n values. */
  function Pairs(n: int): nat
  {
    if n <= 1 then 0 else (n - 1) + Pairs(n - 1)
  }

  /** The closed form of `Pairs`: n(n-1)/2. */
  lemma {:induction false} PairsClosed(n: nat)
    ensures 2 * Pairs(n) == n * (n - 1)
  {
    if n > 1 {
      PairsClosed(n - 1);
    }
  }

  /** `t` is `s` with the values at places i and j exchanged. */
  ghost predicate Exchanged(s: seq<int>, t: seq<int>, i: int, j: int)
  {
    |t| == |s| && 0 <= i < |s| && 0 <= j < |s| && t[i] == s[j] && t[j] == s[i] &&
    forall k :: 0 <= k < |s| && k != i && k != j ==> t[k] == s[k]
  }

  // ------------------------------------------------------------ permutations

  /** The values of a sequence are those before, inside and after a stretch. */
  lemma MultisetSplit(s: seq<int>, lo: int, hi: int)
    requires 0 <= lo <= hi <= |s|
    ensures multiset(s) == multiset(s[..lo]) + multiset(s[lo..hi]) + multiset(s[hi..])
  {
    assert s == s[..lo] + s[lo..hi] + s[hi..];
  }

  /** Equal surroundings cancel. */
  lemma Cancel(x: multiset<int>, y: multiset<int>, a: multiset<int>, c: multiset<int>)
    ensures a + x + c == a + y + c <==> x == y
  {
    if a + x + c == a + y + c {
      forall v
        ensures x[v] == y[v]
      {
        assert (a + x + c)[v] == a[v] + x[v] + c[v];
        assert (a + y + c)[v] == a[v] + y[v] + c[v];
      }
    }
  }

  /** The values of two adjacent stretches are those of their union. */
  lemma SliceSplit(s: seq<int>, lo: int, mid: int, hi: int)
    requires 0 <= lo <= mid <= hi <= |s|
    ensures multiset(s[lo..hi]) == multiset(s[lo..mid]) + multiset(s[mid..hi])
  {
    assert s[lo..hi] == s[lo..mid] + s[mid..hi];
  }

  /** A rearrangement of [lo, hi) keeps the values of that stretch. */
  lemma PermutedStretch(s: seq<int>, t: seq<int>, lo: int, hi: int)
    requires Permuted(s, t, lo, hi)
    ensures multiset(t[lo..hi]) == multiset(s[lo..hi])
  {
    MultisetSplit(s, lo, hi);
    MultisetSplit(t, lo, hi);
    assert t[..lo] == s[..lo] && t[hi..] == s[hi..];
    Cancel(multiset(t[lo..hi]), multiset(s[lo..hi]), multiset(s[..lo]), multiset(s[hi..]));
  }

  /** Rearranging the values of [lo, hi) among themselves is a rearrangement of that stretch. */
  lemma StretchPermuted(s: seq<int>, t: seq<int>, lo: int, hi: int)
    requires |t| == |s| && 0 <= lo <= hi <= |s| && multiset(t[lo..hi]) == multiset(s[lo..hi])
    requires forall k :: 0 <= k < |s| && !(lo <= k < hi) ==> t[k] == s[k]
    ensures Permuted(s, t, lo, hi)
  {
    MultisetSplit(s, lo, hi);
    MultisetSplit(t, lo, hi);
    assert t[..lo] == s[..lo] && t[hi..] == s[hi..];
  }

  /** A bound on every value of a stretch survives rearranging it. */
  lemma BoundPerm(s: seq<int>, t: seq<int>, b: int, strict: bool)
    requires multiset(s) == multiset(t)
    requires forall k :: 0 <= k < |s| ==> if strict then s[k] < b else b <= s[k]
    ensures forall k :: 0 <= k < |t| ==> if strict then t[k] < b else b <= t[k]
  {
    forall k | 0 <= k < |t|
      ensures if strict then t[k] < b else b <= t[k]
    {
      assert t[k] in multiset(s);
    }
  }

  /** Two sorted stretches, the first below the second, make a sorted sequence. */
  lemma SortedJoin(s: seq<int>, m: int)
    requires 0 <= m <= |s| && Sorted(s[..m]) && Sorted(s[m..]) && Below(s[..m], s[m..])
    ensures Sorted(s)
  {
    forall p, q | 0 <= p < q < |s|
      ensures s[p] <= s[q]
    {
      if q < m {
        assert s[p] == s[..m][p] && s[q] == s[..m][q];
      } else if m <= p {
        assert s[p] == s[m..][p - m] && s[q] == s[m..][q - m];
      } else {
        assert s[p] == s[..m][p] && s[q] == s[m..][q - m];
      }
    }
  }

  // --------------------------------------------------------- the loop steps

  /**
   * One pass of bubble sort over the first m values (`s0` before it, `s1`
   * after it) leaves their largest at m-1, so the sorted tail grows by one.
   */
  lemma BubbleStep(s0: seq<int>, s1: seq<int>, m: int)
    requires 1 <= m && SortedTail(s0, m) && Permuted(s0, s1, 0, m)
    requires forall k :: 0 <= k < m - 1 ==> s1[k] <= s1[m - 1]
    ensures SortedTail(s1, m - 1) && multiset(s1) == multiset(s0)
  {
    PermutedStretch(s0, s1, 0, m);
    forall k, q | 0 <= k < m <= q < |s1|
      ensures s1[k] <= s1[q]
    {
      assert s1[k] == s1[..m][k];
      assert s1[k] in multiset(s0[..m]);
      assert s1[q] == s0[m..][q - m];
    }
  }

  /**
   * One round of selection sort: with `m` the place of a least value of
   * s[i..], exchanging it into place i extends the sorted head by one.
   */
  lemma SelectStep(s: seq<int>, t: seq<int>, i: int, m: int)
    requires 0 <= i <= m < |s| && SortedHead(s, i)
    requires forall k :: i <= k < |s| ==> s[m] <= s[k]
    requires Exchanged(s, t, i, m)
    ensures SortedHead(t, i + 1)
  {
    forall p, q | 0 <= p < i && i <= q < |s|
      ensures s[p] <= s[q]
    {
      assert s[p] == s[..i][p] && s[q] == s[i..][q - i];
    }
  }

  /**
   * The state of insertion sort's inner loop in round i: the key sits at j,
   * the values before it are sorted, it and the values after it up to i are
   * sorted, and the values before it are at most those after it.
   */
  ghost predicate Inserting(s: seq<int>, i: int, j: int)
  {
    0 <= j <= i < |s| && Sorted(s[..j]) && Sorted(s[j..i + 1]) &&
    forall p, q :: 0 <= p < j < q <= i ==> s[p] <= s[q]
  }

  lemma InsertStart(s: seq<int>, i: int)
    requires 0 <= i < |s| && Sorted(s[..i])
    ensures Inserting(s, i, i)
  {
  }

  /** The key is not below its left neighbour, so s[..i+1] is sorted. */
  lemma InsertDone(s: seq<int>, i: int, j: int)
    requires Inserting(s, i, j)
    requires j > 0 ==> s[j - 1] <= s[j]
    ensures Sorted(s[..i + 1])
  {
    forall p, q | 0 <= p < q <= i
      ensures s[p] <= s[q]
    {
      if q < j {
        assert s[p] == s[..j][p] && s[q] == s[..j][q];
      } else if j <= p {
        assert s[p] == s[j..i + 1][p - j] && s[q] == s[j..i + 1][q - j];
      } else if q == j {
        assert s[p] == s[..j][p] && s[j - 1] == s[..j][j - 1];
      }
    }
  }

  /** The key moves one place left, past a larger value. */
  lemma InsertSwapStep(s: seq<int>, t: seq<int>, i: int, j: int)
    requires Inserting(s, i, j) && 0 < j && s[j] < s[j - 1]
    requires Exchanged(s, t, j, j - 1)
    ensures Inserting(t, i, j - 1)
  {
    assert t[..j - 1] == s[..j - 1];
    forall p, q | j - 1 <= p < q <= i
      ensures t[p] <= t[q]
    {
      if p == j - 1 && q == j {
      } else if p == j - 1 {
        assert s[j] == s[j..i + 1][0] && s[q] == s[j..i + 1][q - j];
      } else {
        assert s[p] == s[j..i + 1][p - j] && s[q] == s[j..i + 1][q - j];
      }
    }
    forall p, q | 0 <= p < j - 1 < q <= i
      ensures t[p] <= t[q]
    {
      assert s[p] == s[..j][p] && s[j - 1] == s[..j][j - 1];
    }
  }

  // ------------------------------------------------------------------ merge

  /** The merge of `merge(left, mid, right)`: on a tie the left run's value goes first. */
  function Merged(l: seq<int>, r: seq<int>): (m: seq<int>)
    ensures |m| == |l| + |r|
    decreases |l| + |r|
  {
    if l == [] then r
    else if r == [] then l
    else if l[0] <= r[0] then [l[0]] + Merged(l[1..], r)
    else [r[0]] + Merged(l, r[1..])
  }

  /** Merging loses and invents no value. */
  lemma {:induction false} MergedPerm(l: seq<int>, r: seq<int>)
    ensures multiset(Merged(l, r)) == multiset(l) + multiset(r)
    decreases |l| + |r|
  {
    if l == [] || r == [] {
    } else if l[0] <= r[0] {
      MergedPerm(l[1..], r);
      MergedPermLeft(l, r);
    } else {
      MergedPerm(l, r[1..]);
      MergedPermRight(l, r);
    }
  }

  /** The values of a non-empty sequence: its head and those of its rest. */
  lemma HeadSplit(l: seq<int>)
    requires l != []
    ensures multiset(l) == multiset{l[0]} + multiset(l[1..])
  {
    assert l == [l[0]] + l[1..];
  }

  /** The step of `MergedPerm` when the left head goes first. */
  lemma MergedPermLeft(l: seq<int>, r: seq<int>)
    requires l != [] && r != [] && l[0] <= r[0]
    requires multiset(Merged(l[1..], r)) == multiset(l[1..]) + multiset(r)
    ensures multiset(Merged(l, r)) == multiset(l) + multiset(r)
  {
    var m := Merged(l, r);
    assert m[0] == l[0] && m[1..] == Merged(l[1..], r);
    HeadSplit(m);
    HeadSplit(l);
  }

  /** The step of `MergedPerm` when the right head goes first. */
  lemma MergedPermRight(l: seq<int>, r: seq<int>)
    requires l != [] && r != [] && r[0] < l[0]
    requires multiset(Merged(l, r[1..])) == multiset(l) + multiset(r[1..])
    ensures multiset(Merged(l, r)) == multiset(l) + multiset(r)
  {
    var m := Merged(l, r);
    assert m[0] == r[0] && m[1..] == Merged(l, r[1..]);
    HeadSplit(m);
    HeadSplit(r);
  }

  /** Merging two sorted runs gives a sorted run that starts with the smaller head. */
  lemma {:induction false} MergedSorted(l: seq<int>, r: seq<int>)
    requires Sorted(l) && Sorted(r)
    ensures Sorted(Merged(l, r))
    ensures l != [] && r != [] ==> Merged(l, r)[0] == (if l[0] <= r[0] then l[0] else r[0])
    decreases |l| + |r|
  {
    if l == [] || r == [] {
    } else if l[0] <= r[0] {
      var m := Merged(l[1..], r);
      MergedSorted(l[1..], r);
      assert m != [] ==> l[0] <= m[0] by {
        if l[1..] != [] {
          assert l[1..][0] == l[1];
        }
      }
      assert forall k :: 0 <= k < |m| ==> l[0] <= m[k] by {
        if m != [] {
          assert forall k :: 0 <= k < |m| ==> m[0] <= m[k];
        }
      }
    } else {
      var m := Merged(l, r[1..]);
      MergedSorted(l, r[1..]);
      assert m != [] ==> r[0] <= m[0] by {
        if r[1..] != [] {
          assert r[1..][0] == r[1];
        }
      }
      assert forall k :: 0 <= k < |m| ==> r[0] <= m[k] by {
        if m != [] {
          assert forall k :: 0 <= k < |m| ==> m[0] <= m[k];
        }
      }
    }
  }

  /** With i values of `l` and j of `r` placed, `m` goes on as the merge of what is left of both. */
  ghost predicate MergeRest(l: seq<int>, r: seq<int>, i: int, j: int, m: seq<int>)
  {
    0 <= i <= |l| && 0 <= j <= |r| && i + j <= |m| && m[i + j..] == Merged(l[i..], r[j..])
  }

  /**
   * The step of `merge`'s loops that takes the left run's head: with `m` the
   * whole merge and i + j values placed, the next value is l[i].
   */
  lemma MergedLeft(l: seq<int>, r: seq<int>, i: int, j: int, m: seq<int>)
    requires MergeRest(l, r, i, j, m) && i < |l| && (j < |r| ==> l[i] <= r[j])
    ensures i + j < |m| && m[i + j] == l[i] && MergeRest(l, r, i + 1, j, m)
  {
    assert l[i..][1..] == l[i + 1..];
    assert m[i + j..][1..] == m[i + j + 1..];
  }

  /** The step of `merge`'s loops that takes the right run's head. */
  lemma MergedRight(l: seq<int>, r: seq<int>, i: int, j: int, m: seq<int>)
    requires MergeRest(l, r, i, j, m) && j < |r| && (i < |l| ==> r[j] < l[i])
    ensures i + j < |m| && m[i + j] == r[j] && MergeRest(l, r, i, j + 1, m)
  {
    assert r[j..][1..] == r[j + 1..];
    assert m[i + j..][1..] == m[i + j + 1..];
  }

  /** Once one run is used up, the merge goes on with the rest of the left run, then of the right one. */
  lemma MergedTail(l: seq<int>, r: seq<int>, i: int, j: int, m: seq<int>)
    requires MergeRest(l, r, i, j, m) && (i == |l| || j == |r|)
    ensures m[i + j..|l| + j] == l[i..] && m[|l| + j..|l| + |r|] == r[j..]
  {
  }

  /** A stretch of `s` agreeing with `m` place by place is `m`. */
  lemma Filled(s: seq<int>, lo: int, m: seq<int>)
    requires 0 <= lo && lo + |m| <= |s|
    requires forall p :: lo <= p < lo + |m| ==> s[p] == m[p - lo]
    ensures s[lo..lo + |m|] == m
  {
  }

  /** A stretch [left, right] holding the values of [left, mid] and (mid, right] of `s` holds the values of that stretch of `s`. */
  lemma JoinedStretch(s: seq<int>, t: seq<int>, left: int, mid: int, right: int)
    requires 0 <= left <= mid < right < |s| && |t| == |s|
    requires multiset(t[left..right + 1]) == multiset(s[left..mid + 1]) + multiset(s[mid + 1..right + 1])
    ensures multiset(t[left..right + 1]) == multiset(s[left..right + 1])
  {
    SliceSplit(s, left, mid + 1, right + 1);
  }

  /** A merge holds the values of both runs. */
  lemma MergedValues(l: seq<int>, r: seq<int>, m: seq<int>)
    requires m == Merged(l, r)
    ensures multiset(m) == multiset(l) + multiset(r)
  {
    MergedPerm(l, r);
  }

  /** Writing the values of [left, mid] and (mid, right] back over [left, right] rearranges that stretch. */
  lemma JoinedPermuted(s: seq<int>, t: seq<int>, left: int, mid: int, right: int)
    requires 0 <= left <= mid < right < |s| && |t| == |s|
    requires multiset(t[left..right + 1]) == multiset(s[left..mid + 1]) + multiset(s[mid + 1..right + 1])
    requires forall k :: 0 <= k < |s| && !(left <= k < right + 1) ==> t[k] == s[k]
    ensures Permuted(s, t, left, right + 1)
  {
    JoinedStretch(s, t, left, mid, right);
    StretchPermuted(s, t, left, right + 1);
  }

  /**
   * What one level of `mergeSortHelper` proves: two sorted halves, each a
   * rearrangement of its stretch, merged into [left, right].
   */
  lemma MergeLevel(s0: seq<int>, s1: seq<int>, s2: seq<int>, s3: seq<int>, left: int, mid: int, right: int)
    requires 0 <= left <= mid < right < |s0|
    requires Permuted(s0, s1, left, mid + 1) && Sorted(s1[left..mid + 1])
    requires Permuted(s1, s2, mid + 1, right + 1) && Sorted(s2[mid + 1..right + 1])
    requires |s3| == |s2| && s3[left..right + 1] == Merged(s2[left..mid + 1], s2[mid + 1..right + 1])
    requires forall k :: 0 <= k < |s2| && !(left <= k < right + 1) ==> s3[k] == s2[k]
    ensures Permuted(s0, s3, left, right + 1) && Sorted(s3[left..right + 1])
  {
    assert s2[left..mid + 1] == s1[left..mid + 1];
    MergedSorted(s2[left..mid + 1], s2[mid + 1..right + 1]);
    MergedValues(s2[left..mid + 1], s2[mid + 1..right + 1], s3[left..right + 1]);
    JoinedPermuted(s2, s3, left, mid, right);
  }

  /** Sorted values below a pivot, the pivot, then sorted values not below it: sorted. */
  lemma SortedAround(x: seq<int>, pv: int, y: seq<int>)
    requires Sorted(x) && Sorted(y)
    requires forall k :: 0 <= k < |x| ==> x[k] < pv
    requires forall k :: 0 <= k < |y| ==> pv <= y[k]
    ensures Sorted(x + [pv] + y)
  {
    var s := x + [pv] + y;
    forall p, q | 0 <= p < q < |s|
      ensures s[p] <= s[q]
    {
      if q < |x| {
        assert s[p] == x[p] && s[q] == x[q];
      } else if p > |x| {
        assert s[p] == y[p - |x| - 1] && s[q] == y[q - |x| - 1];
      } else if p < |x| {
        assert s[p] == x[p];
        if q > |x| {
          assert s[q] == y[q - |x| - 1];
        }
      } else {
        assert s[q] == y[q - |x| - 1];
      }
    }
  }

  /**
   * The two sides of a partitioned stretch, each rearranged and sorted on
   * its own, make a sorted stretch around the pivot.
   */
  lemma QuickSorted(x1: seq<int>, x2: seq<int>, pv: int, y1: seq<int>, y2: seq<int>)
    requires multiset(x2) == multiset(x1) && multiset(y2) == multiset(y1)
    requires forall k :: 0 <= k < |x1| ==> x1[k] < pv
    requires forall k :: 0 <= k < |y1| ==> pv <= y1[k]
    requires Sorted(x2) && Sorted(y2)
    ensures Sorted(x2 + [pv] + y2)
  {
    BoundPerm(x1, x2, pv, true);
    BoundPerm(y1, y2, pv, false);
    SortedAround(x2, pv, y2);
  }

  /**
   * What one level of `quickSortHelper` proves about order: the stretch was
   * partitioned around the pivot at p, then each side sorted on its own.
   */
  lemma QuickLevelSorted(s1: seq<int>, s2: seq<int>, s3: seq<int>, low: int, p: int, high: int)
    requires 0 <= low <= p <= high < |s1|
    requires forall k :: low <= k < p ==> s1[k] < s1[p]
    requires forall k :: p < k <= high ==> s1[p] <= s1[k]
    requires Permuted(s1, s2, low, p) && Sorted(s2[low..p])
    requires Permuted(s2, s3, p + 1, high + 1) && Sorted(s3[p + 1..high + 1])
    ensures Sorted(s3[low..high + 1])
  {
    PermutedStretch(s1, s2, low, p);
    PermutedStretch(s2, s3, p + 1, high + 1);
    assert s3[low..p] == s2[low..p];
    assert s2[p + 1..high + 1] == s1[p + 1..high + 1];
    assert s3[low..high + 1] == s3[low..p] + [s1[p]] + s3[p + 1..high + 1];
    QuickSorted(s1[low..p], s3[low..p], s1[p], s1[p + 1..high + 1], s3[p + 1..high + 1]);
  }

  // ------------------------------------------------------------- the class

  /** The algorithms of the `ALGORITHMS` table. */
  datatype Algorithm = Bubble | Selection | Insertion | Merge | Quick

  /** The visualiser's state: the array being sorted and the two counters on display. */
  class Visualizer {
    const a: array<int>
    var comparisons: int
    var swaps: int

    /** A visualiser over the given values with both counters at zero. */
    constructor(values: seq<int>)
      ensures fresh(a) && a[..] == values && comparisons == 0 && swaps == 0
    {
      a := new int[|values|](i requires 0 <= i < |values| => values[i]);
      comparisons := 0;
      swaps := 0;
    }

    /** `highlightSwap(i, j)`: exchanges two entries and counts one swap. */
    method Swap(i: int, j: int)
      requires 0 <= i < a.Length && 0 <= j < a.Length
      modifies this, a
      ensures a[i] == old(a[j]) && a[j] == old(a[i])
      ensures forall k :: 0 <= k < a.Length && k != i && k != j ==> a[k] == old(a[k])
      ensures Exchanged(old(a[..]), a[..], i, j) && multiset(a[..]) == multiset(old(a[..]))
      ensures swaps == old(swaps) + 1 && comparisons == old(comparisons)
    {
      a[i], a[j] := a[j], a[i];
      swaps := swaps + 1;
    }

    /** `isSorted()`: no entry is smaller than the one before it. */
    method IsSorted() returns (b: bool)
      ensures b <==> Sorted(a[..])
    {
      var i := 1;
      while i < a.Length
        invariant 1 <= i
        invariant forall p, q :: 0 <= p < q < i && q < a.Length ==> a[p] <= a[q]
      {
        if a[i] < a[i - 1] {
          assert a[..][i - 1] > a[..][i];
          return false;
        }
        i := i + 1;
      }
      return true;
    }

    /** The inner loop of `bubbleSort` in outer round i: carries the largest of a[..n-i] to n-1-i. */
    method BubblePass(i: int)
      requires 0 <= i < a.Length - 1
      modifies this, a
      ensures Permuted(old(a[..]), a[..], 0, a.Length - i)
      ensures forall k :: 0 <= k < a.Length - i - 1 ==> a[k] <= a[a.Length - i - 1]
      ensures comparisons == old(comparisons) + (a.Length - i - 1)
    {
      var n := a.Length;
      var j := 0;
      while j < n - 1 - i
        invariant 0 <= j <= n - 1 - i
        invariant multiset(a[..]) == multiset(old(a[..]))
        invariant forall k :: n - i <= k < n ==> a[k] == old(a[k])
        invariant forall k :: 0 <= k < j ==> a[k] <= a[j]
        invariant comparisons == old(comparisons) + j
      {
        comparisons := comparisons + 1;
        if a[j] > a[j + 1] {
          Swap(j, j + 1);
        }
        j := j + 1;
      }
    }

    /**
     * `bubbleSort()`: after outer round i the last i+1 places hold the
     * largest values in order; it always makes (n-1) + ... + 1 comparisons.
     */
    method BubbleSort()
      modifies this, a
      ensures Sorted(a[..]) && multiset(a[..]) == multiset(old(a[..]))
      ensures comparisons == old(comparisons) + Pairs(a.Length)
    {
      var n := a.Length;
      var i := 0;
      ghost var m := n;
      while i < n - 1
        invariant 0 <= i <= n && (n >= 1 ==> i <= n - 1) && m == n - i
        invariant SortedTail(a[..], m)
        invariant multiset(a[..]) == multiset(old(a[..]))
        invariant comparisons + Pairs(m) == old(comparisons) + Pairs(n)
      {
        ghost var s := a[..];
        BubblePass(i);
        BubbleStep(s, a[..], m);
        i, m := i + 1, m - 1;
      }
      if n >= 1 {
        SortedJoin(a[..], 1);
      }
    }

    /** The inner loop of `selectionSort`: the place of the first least value of a[i..]. */
    method MinIndex(i: int) returns (m: int)
      requires 0 <= i < a.Length
      modifies this
      ensures i <= m < a.Length && forall k :: i <= k < a.Length ==> a[m] <= a[k]
      ensures forall k :: i <= k < m ==> a[m] < a[k]
      ensures comparisons == old(comparisons) + (a.Length - i - 1) && swaps == old(swaps)
    {
      m := i;
      var j := i + 1;
      while j < a.Length
        invariant i <= m < j <= a.Length
        invariant forall k :: i <= k < j ==> a[m] <= a[k]
        invariant forall k :: i <= k < m ==> a[m] < a[k]
        invariant comparisons == old(comparisons) + (j - 1 - i) && swaps == old(swaps)
      {
        comparisons := comparisons + 1;
        if a[j] < a[m] {
          m := j;
        }
        j := j + 1;
      }
    }

    /** `selectionSort()`: round i exchanges the least value of a[i..] into place i. */
    method SelectionSort()
      modifies this, a
      ensures Sorted(a[..]) && multiset(a[..]) == multiset(old(a[..]))
      ensures comparisons == old(comparisons) + Pairs(a.Length)
      ensures old(swaps) <= swaps <= old(swaps) + a.Length
    {
      var n := a.Length;
      var i := 0;
      ghost var rest := n;
      while i < n - 1
        invariant 0 <= i <= n && (n >= 1 ==> i <= n - 1) && rest == n - i
        invariant SortedHead(a[..], i)
        invariant multiset(a[..]) == multiset(old(a[..]))
        invariant comparisons + Pairs(rest) == old(comparisons) + Pairs(n)
        invariant old(swaps) <= swaps <= old(swaps) + i
      {
        var m := MinIndex(i);
        ghost var s := a[..];
        if m != i {
          Swap(i, m);
        }
        SelectStep(s, a[..], i, m);
        i, rest := i + 1, rest - 1;
      }
      if n >= 1 {
        SortedJoin(a[..], n - 1);
      }
    }

    /** The inner loop of `insertionSort`: swaps a[i] leftwards past larger values. */
    method InsertStep(i: int)
      requires 1 <= i < a.Length && Sorted(a[..i])
      modifies this, a
      ensures Sorted(a[..i + 1]) && Permuted(old(a[..]), a[..], 0, i + 1)
      ensures old(comparisons) + 1 <= comparisons <= old(comparisons) + i
    {
      var j := i;
      InsertStart(a[..], i);
      while j > 0
        invariant Inserting(a[..], i, j)
        invariant multiset(a[..]) == multiset(old(a[..]))
        invariant forall k :: i + 1 <= k < a.Length ==> a[k] == old(a[k])
        invariant comparisons == old(comparisons) + (i - j)
      {
        comparisons := comparisons + 1;
        if a[j] < a[j - 1] {
          ghost var s := a[..];
          Swap(j, j - 1);
          InsertSwapStep(s, a[..], i, j);
          j := j - 1;
        } else {
          InsertDone(a[..], i, j);
          return;
        }
      }
      InsertDone(a[..], i, j);
    }

    /** `insertionSort()`: after round i the prefix a[..i+1] is sorted. */
    method InsertionSort()
      modifies this, a
      ensures Sorted(a[..]) && multiset(a[..]) == multiset(old(a[..]))
      ensures a.Length >= 1 ==> old(comparisons) + (a.Length - 1) <= comparisons <= old(comparisons) + Pairs(a.Length)
    {
      var n := a.Length;
      if n == 0 {
        return;
      }
      var i := 1;
      while i < n
        invariant 1 <= i <= n
        invariant Sorted(a[..i])
        invariant multiset(a[..]) == multiset(old(a[..]))
        invariant old(comparisons) + (i - 1) <= comparisons <= old(comparisons) + Pairs(i)
      {
        InsertStep(i);
        i := i + 1;
      }
      assert a[..] == a[..n];
    }

    /**
     * The first loop of `merge`: while both runs have values left, takes the
     * smaller head (the left one on a tie) and writes it to a[left + i + j].
     * `m` is the whole merge; one comparison per value written, one swap per
     * value taken from the right run.
     */
    method MergeHeads(l: seq<int>, r: seq<int>, left: int, ghost m: seq<int>) returns (i: int, j: int)
      requires 0 <= left && left + |l| + |r| <= a.Length && l != [] && r != []
      requires m == Merged(l, r)
      modifies this, a
      ensures 0 <= i <= |l| && 0 <= j <= |r| && (i == |l| || j == |r|) && 0 < i + j < |l| + |r|
      ensures MergeRest(l, r, i, j, m)
      ensures forall p :: left <= p < left + i + j ==> a[p] == m[p - left]
      ensures forall p :: 0 <= p < a.Length && !(left <= p < left + i + j) ==> a[p] == old(a[p])
      ensures comparisons == old(comparisons) + i + j && swaps == old(swaps) + j
    {
      i, j := 0, 0;
      var k := left;
      while i < |l| && j < |r|
        invariant 0 <= i <= |l| && 0 <= j <= |r| && k == left + i + j
        invariant i < |l| || j < |r|
        invariant MergeRest(l, r, i, j, m)
        invariant forall p :: left <= p < k ==> a[p] == m[p - left]
        invariant forall p :: 0 <= p < a.Length && !(left <= p < k) ==> a[p] == old(a[p])
        invariant comparisons == old(comparisons) + i + j && swaps == old(swaps) + j
      {
        comparisons := comparisons + 1;
        if l[i] <= r[j] {
          MergedLeft(l, r, i, j, m);
          a[k] := l[i];
          i := i + 1;
        } else {
          MergedRight(l, r, i, j, m);
          a[k] := r[j];
          j := j + 1;
          swaps := swaps + 1;
        }
        k := k + 1;
      }
    }

    /**
     * The two last loops of `merge`: copies what is left of one run,
     * src[from..], to a[k..]; there it continues the merge `m` written from
     * a[left] on.
     */
    method CopyRun(src: seq<int>, from: int, k: int, ghost left: int, ghost m: seq<int>)
      requires 0 <= from <= |src| && 0 <= left <= k && k + |src| - from <= a.Length
      requires k - left + |src| - from <= |m| && m[k - left..k - left + |src| - from] == src[from..]
      requires forall p :: left <= p < k ==> a[p] == m[p - left]
      modifies a
      ensures forall p :: left <= p < k + |src| - from ==> a[p] == m[p - left]
      ensures forall p :: 0 <= p < a.Length && !(k <= p < k + |src| - from) ==> a[p] == old(a[p])
    {
      var i, n := from, k;
      while i < |src|
        invariant from <= i <= |src| && n == k + i - from
        invariant forall p :: left <= p < n ==> a[p] == m[p - left]
        invariant forall p :: 0 <= p < a.Length && !(k <= p < n) ==> a[p] == old(a[p])
      {
        assert m[n - left] == m[k - left..k - left + |src| - from][i - from];
        a[n] := src[i];
        i, n := i + 1, n + 1;
      }
    }

    /** `merge(left, mid, right)`: merges the sorted runs a[left..mid] and a[mid+1..right] in place. */
    method MergeRuns(left: int, mid: int, right: int)
      requires 0 <= left <= mid < right < a.Length
      modifies this, a
      ensures a[left..right + 1] == Merged(old(a[left..mid + 1]), old(a[mid + 1..right + 1]))
      ensures forall k :: 0 <= k < a.Length && !(left <= k < right + 1) ==> a[k] == old(a[k])
      ensures old(comparisons) < comparisons <= old(comparisons) + (right - left)
      ensures old(swaps) <= swaps <= old(swaps) + (right - mid)
    {
      var leftArr := a[left..mid + 1];
      var rightArr := a[mid + 1..right + 1];
      ghost var m := Merged(leftArr, rightArr);
      var i, j := MergeHeads(leftArr, rightArr, left, m);
      MergedTail(leftArr, rightArr, i, j, m);
      CopyRun(leftArr, i, left + i + j, left, m);
      CopyRun(rightArr, j, left + |leftArr| + j, left, m);
      Filled(a[..], left, m);
    }

    /** `mergeSortHelper(left, right)`: sorts a[left..right] and leaves the rest alone. */
    method MergeSortHelper(left: int, right: int)
      requires 0 <= left <= right + 1 <= a.Length
      modifies this, a
      ensures Permuted(old(a[..]), a[..], left, right + 1) && Sorted(a[left..right + 1])
      decreases right - left
    {
      if left >= right {
        return;
      }
      var mid := (left + right) / 2;
      ghost var s0 := a[..];
      MergeSortHelper(left, mid);
      ghost var s1 := a[..];
      MergeSortHelper(mid + 1, right);
      ghost var s2 := a[..];
      MergeRuns(left, mid, right);
      MergeLevel(s0, s1, s2, a[..], left, mid, right);
    }

    /** `mergeSort()`. */
    method MergeSort()
      modifies this, a
      ensures Sorted(a[..]) && multiset(a[..]) == multiset(old(a[..]))
    {
      MergeSortHelper(0, a.Length - 1);
      assert a[..] == a[0..a.Length];
    }

    /**
     * The scanning loop of `partition(low, high)`: moves every value below
     * the pivot a[high] to the front of the stretch, one swap each (even
     * onto itself), and returns the place i of the last one moved.
     */
    method PartitionScan(low: int, high: int) returns (i: int)
      requires 0 <= low < high < a.Length
      modifies this, a
      ensures low - 1 <= i < high && Permuted(old(a[..]), a[..], low, high)
      ensures a[high] == old(a[high])
      ensures forall k :: low <= k <= i ==> a[k] < a[high]
      ensures forall k :: i < k < high ==> a[high] <= a[k]
      ensures comparisons == old(comparisons) + (high - low)
      ensures swaps == old(swaps) + (i + 1 - low)
    {
      var pivot := a[high];
      i := low - 1;
      var j := low;
      while j < high
        invariant low - 1 <= i < j <= high
        invariant multiset(a[..]) == multiset(old(a[..]))
        invariant forall k :: 0 <= k < a.Length && !(low <= k < high) ==> a[k] == old(a[k])
        invariant forall k :: low <= k <= i ==> a[k] < pivot
        invariant forall k :: i < k < j ==> pivot <= a[k]
        invariant comparisons == old(comparisons) + (j - low) && swaps == old(swaps) + (i + 1 - low)
      {
        comparisons := comparisons + 1;
        if a[j] < pivot {
          i := i + 1;
          Swap(i, j);
        }
        j := j + 1;
      }
    }

    /**
     * `partition(low, high)`: Lomuto's scheme around the pivot a[high].
     * Returns the pivot's final place p; smaller values end before it, the
     * others after it. One comparison per scanned value, one swap per
     * smaller value plus the pivot's.
     */
    method Partition(low: int, high: int) returns (p: int)
      requires 0 <= low < high < a.Length
      modifies this, a
      ensures low <= p <= high && Permuted(old(a[..]), a[..], low, high + 1)
      ensures a[p] == old(a[high])
      ensures forall k :: low <= k < p ==> a[k] < a[p]
      ensures forall k :: p < k <= high ==> a[p] <= a[k]
      ensures comparisons == old(comparisons) + (high - low)
      ensures swaps == old(swaps) + (p - low) + 1
    {
      var i := PartitionScan(low, high);
      Swap(i + 1, high);
      p := i + 1;
    }

    /** `quickSortHelper(low, high)`: sorts a[low..high] and leaves the rest alone. */
    method QuickSortHelper(low: int, high: int)
      requires 0 <= low <= high + 1 <= a.Length
      modifies this, a
      ensures Permuted(old(a[..]), a[..], low, high + 1) && Sorted(a[low..high + 1])
      decreases high - low
    {
      if low >= high {
        return;
      }
      ghost var s0 := a[..];
      var p := Partition(low, high);
      ghost var s1 := a[..];
      QuickSortHelper(low, p - 1);
      ghost var s2 := a[..];
      QuickSortHelper(p + 1, high);
      QuickLevelSorted(s1, s2, a[..], low, p, high);
    }

    /** `quickSort()`. */
    method QuickSort()
      modifies this, a
      ensures Sorted(a[..]) && multiset(a[..]) == multiset(old(a[..]))
    {
      QuickSortHelper(0, a.Length - 1);
      assert a[..] == a[0..a.Length];
    }

    /**
     * `startSorting()` with the stop button never pressed: both counters
     * start from zero, the chosen algorithm runs, and the final `isSorted()`
     * check always reports the completed state.
     */
    method StartSorting(algo: Algorithm) returns (completed: bool)
      modifies this, a
      ensures completed
      ensures Sorted(a[..]) && multiset(a[..]) == multiset(old(a[..]))
      ensures algo == Bubble || algo == Selection ==> comparisons == Pairs(a.Length)
    {
      comparisons := 0;
      swaps := 0;
      match algo {
        case Bubble => BubbleSort();
        case Selection => SelectionSort();
        case Insertion => InsertionSort();
        case Merge => MergeSort();
        case Quick => QuickSort();
      }
      completed := IsSorted();
    }
  }
}
