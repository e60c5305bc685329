/**
 * Column operations used by the dashboard: boolean-mask filtering, column
 * sums and means, dropping missing values and taking the distinct values of
 * a column in order of first appearance.
 */
module Seqs {
  import opened Wrappers

  /** The rows of `s` that satisfy `p`, in their original order. */
  function Filter<T(==,!new)>(s: seq<T>, p: T -> bool): (r: seq<T>)
    ensures |r| <= |s|
    ensures forall x :: x in r <==> x in s && p(x)
  {
    if s == [] then [] else (if p(s[0]) then [s[0]] else []) + Filter(s[1..], p)
  }

  /** Filtering a concatenation filters each part. */
  lemma {:induction false} FilterConcat<T(!new)>(a: seq<T>, b: seq<T>, p: T -> bool)
    ensures Filter(a + b, p) == Filter(a, p) + Filter(b, p)
  {
    if a == [] {
      assert a + b == b;
    } else {
      assert (a + b)[0] == a[0] && (a + b)[1..] == a[1..] + b;
      FilterConcat(a[1..], b, p);
    }
  }

  /** Filtering keeps a sequence whose entries all pass, and drops one whose entries all fail. */
  lemma {:induction false} FilterAllOrNone<T(!new)>(s: seq<T>, p: T -> bool)
    ensures (forall x :: x in s ==> p(x)) ==> Filter(s, p) == s
    ensures (forall x :: x in s ==> !p(x)) ==> Filter(s, p) == []
  {
    if s != [] {
      FilterAllOrNone(s[1..], p);
      assert s == [s[0]] + s[1..];
    }
  }

  /** The sum of a real-valued column. */
  function Sum<T>(s: seq<T>, f: T -> real): real
  {
    if s == [] then 0.0 else f(s[0]) + Sum(s[1..], f)
  }

  /** The sum of a count column. */
  function SumNat<T>(s: seq<T>, f: T -> nat): nat
  {
    if s == [] then 0 else f(s[0]) + SumNat(s[1..], f)
  }

  /** A non-negative column's sum is at least each of its entries. */
  lemma {:induction false} EntryLeSum<T>(s: seq<T>, f: T -> real, i: nat)
    requires NonNegative(s, f) && i < |s|
    ensures f(s[i]) <= Sum(s, f)
  {
    assert NonNegative(s[1..], f) by {
      forall j | 0 <= j < |s[1..]| ensures 0.0 <= f(s[1..][j]) {
        assert s[1..][j] == s[j + 1];
      }
    }
    if i == 0 {
      SumNonNegative(s[1..], f);
    } else {
      EntryLeSum(s[1..], f, i - 1);
    }
  }

  /** The arithmetic mean of a real-valued column over a non-empty frame. */
  function Mean<T>(s: seq<T>, f: T -> real): real
    requires |s| > 0
  {
    Sum(s, f) / (|s| as real)
  }

  /** Every entry of the column is non-negative. */
  predicate NonNegative<T>(s: seq<T>, f: T -> real)
  {
    forall i :: 0 <= i < |s| ==> 0.0 <= f(s[i])
  }

  lemma {:induction false} SumNonNegative<T>(s: seq<T>, f: T -> real)
    requires NonNegative(s, f)
    ensures 0.0 <= Sum(s, f)
  {
    if s != [] {
      SumNonNegative(s[1..], f);
    }
  }

  /** Filtering a non-negative column cannot increase its sum. */
  lemma {:induction false} SumFilterLe<T(!new)>(s: seq<T>, p: T -> bool, f: T -> real)
    requires NonNegative(s, f)
    ensures 0.0 <= Sum(Filter(s, p), f) <= Sum(s, f)
  {
    if s != [] {
      SumFilterLe(s[1..], p, f);
      var r := Filter(s, p);
      if p(s[0]) {
        assert r == [s[0]] + Filter(s[1..], p);
        assert r[0] == s[0] && r[1..] == Filter(s[1..], p);
      } else {
        assert r == Filter(s[1..], p);
      }
    }
  }

  lemma {:induction false} SumNatFilterLe<T(!new)>(s: seq<T>, p: T -> bool, f: T -> nat)
    ensures SumNat(Filter(s, p), f) <= SumNat(s, f)
  {
    if s != [] {
      SumNatFilterLe(s[1..], p, f);
      var r := Filter(s, p);
      if p(s[0]) {
        assert r == [s[0]] + Filter(s[1..], p);
        assert r[0] == s[0] && r[1..] == Filter(s[1..], p);
      } else {
        assert r == Filter(s[1..], p);
      }
    }
  }

  /** A column whose entries lie in [lo, hi] sums to between |s|*lo and |s|*hi. */
  lemma {:induction false} SumBounds<T>(s: seq<T>, f: T -> real, lo: real, hi: real)
    requires forall i :: 0 <= i < |s| ==> lo <= f(s[i]) <= hi
    ensures (|s| as real) * lo <= Sum(s, f) <= (|s| as real) * hi
  {
    if s != [] {
      SumBounds(s[1..], f, lo, hi);
      assert (|s| as real) * lo == lo + (|s[1..]| as real) * lo;
      assert (|s| as real) * hi == hi + (|s[1..]| as real) * hi;
    }
  }

  /** The mean lies between the least and greatest bound of its column. */
  lemma MeanBounds<T>(s: seq<T>, f: T -> real, lo: real, hi: real)
    requires |s| > 0
    requires forall i :: 0 <= i < |s| ==> lo <= f(s[i]) <= hi
    ensures lo <= Mean(s, f) <= hi
  {
    SumBounds(s, f, lo, hi);
    var n := |s| as real;
    assert lo == (n * lo) / n && hi == (n * hi) / n;
    assert (n * lo) / n <= Sum(s, f) / n <= (n * hi) / n;
  }

  /** The column with its missing values dropped (`dropna`). */
  function Present<T(==,!new)>(s: seq<Option<T>>): (r: seq<T>)
    ensures |r| <= |s|
    ensures forall x :: x in r <==> Some(x) in s
  {
    if s == [] then []
    else (if s[0].Some? then [s[0].value] else []) + Present(s[1..])
  }

  /** The first value kept by `Present` is the first value that is not missing. */
  lemma {:induction false} PresentFirst<T(!new)>(s: seq<Option<T>>, k: nat)
    requires k < |s| && s[k].Some?
    requires forall j :: 0 <= j < k ==> s[j].None?
    ensures |Present(s)| > 0 && Present(s)[0] == s[k].value
  {
    if k > 0 {
      PresentFirst(s[1..], k - 1);
    }
  }

  /** No value occurs twice. */
  predicate NoDup<T(==)>(s: seq<T>)
  {
    forall i, j :: 0 <= i < j < |s| ==> s[i] != s[j]
  }

  /** The position of the first occurrence of `x` in `s`. */
  function IndexOf<T(==)>(s: seq<T>, x: T): (k: nat)
    requires x in s
    ensures k < |s| && s[k] == x && x !in s[..k]
  {
    if s[0] == x then 0 else 1 + IndexOf(s[1..], x)
  }

  /** A position holding `x` with no earlier `x` is the first occurrence. */
  lemma IndexOfUnique<T>(s: seq<T>, x: T, k: nat)
    requires k < |s| && s[k] == x && x !in s[..k]
    ensures IndexOf(s, x) == k
  {

  }

  /** The first occurrence of a value is the same in a prefix that holds it. */
  lemma IndexOfPrefix<T>(s: seq<T>, n: nat, x: T)
    requires n <= |s| && x in s[..n]
    ensures IndexOf(s[..n], x) == IndexOf(s, x)
  {
    var k := IndexOf(s[..n], x);
    assert s[..n][..k] == s[..k];
    IndexOfUnique(s, x, k);
  }

  /**
   * The distinct values of `s` in order of first appearance (pandas
   * `unique`): each new value is appended when it is first seen.
   */
  function Distinct<T(==)>(s: seq<T>): seq<T>
  {
    if s == [] then []
    else
      var d := Distinct(s[..|s| - 1]);
      if s[|s| - 1] in d then d else d + [s[|s| - 1]]
  }

  /** First-appearance order: earlier entries first occur earlier in `s`. */
  ghost predicate FirstAppearanceOrder<T(!new)>(s: seq<T>, d: seq<T>)
    requires forall x :: x in d ==> x in s
  {
    forall i, j :: 0 <= i < j < |d| ==> IndexOf(s, d[i]) < IndexOf(s, d[j])
  }

  /**
   * `Distinct` keeps exactly the values of `s`, each once, in order of
   * their first appearance.
   */
  lemma {:induction false} DistinctSpec<T(!new)>(s: seq<T>)
    ensures forall x :: x in Distinct(s) <==> x in s
    ensures NoDup(Distinct(s))
    ensures |Distinct(s)| <= |s|
    ensures FirstAppearanceOrder(s, Distinct(s))
  {
    if s != [] {
      var n := |s| - 1;
      var pre := s[..n];
      var d := Distinct(pre);
      DistinctSpec(pre);
      assert s == pre + [s[n]];
      forall x | x in d
        ensures IndexOf(s, x) == IndexOf(pre, x)
      {
        assert x in pre;
        IndexOfPrefix(s, n, x);
      }
      if s[n] !in d {
        assert s[n] !in s[..n];
        IndexOfUnique(s, s[n], n);
        var e := Distinct(s);
        assert e == d + [s[n]];
        forall i, j | 0 <= i < j < |e|
          ensures IndexOf(s, e[i]) < IndexOf(s, e[j])
        {
          if j < |d| {
            assert e[i] == d[i] && e[j] == d[j];
          } else {
            assert e[i] == d[i];
          }
        }
      }
    }
  }

  /** The first distinct value is the first value. */
  lemma DistinctFirst<T(!new)>(s: seq<T>)
    requires |s| > 0
    ensures |Distinct(s)| > 0 && Distinct(s)[0] == s[0]
  {
    DistinctSpec(s);
    var d := Distinct(s);
    assert s[0] in d;
    var j :| 0 <= j < |d| && d[j] == s[0];
    IndexOfUnique(s, s[0], 0);
    assert j == 0;
  }

  /** A duplicate-free sequence has as many entries as its set of values. */
  lemma {:induction false} NoDupCardinality<T(!new)>(s: seq<T>)
    requires NoDup(s)
    ensures |set x | x in s| == |s|
  {
    if s != [] {
      var t := s[1..];
      assert NoDup(t);
      NoDupCardinality(t);
      assert s[0] !in t;
      assert (set x | x in s) == (set x | x in t) + {s[0]};
    }
  }

  /** Applies `f` to every row (a derived column). */
  function MapSeq<T, U>(s: seq<T>, f: T -> U): (r: seq<U>)
    ensures |r| == |s|
    ensures forall i :: 0 <= i < |s| ==> r[i] == f(s[i])
  {
    seq(|s|, i requires 0 <= i < |s| => f(s[i]))
  }

  lemma MapConcat<T, U>(a: seq<T>, b: seq<T>, f: T -> U)
    ensures MapSeq(a + b, f) == MapSeq(a, f) + MapSeq(b, f)
  {
  }

  /** Removing one entry removes one occurrence of its value. */
  lemma RemoveMultiset<T>(s: seq<T>, i: nat)
    requires i < |s|
    ensures multiset(s[..i] + s[i + 1..]) == multiset(s) - multiset{s[i]}
  {
    assert s == s[..i] + [s[i]] + s[i + 1..];
  }

  /** Mapping `s` gives the mapped `s` without entry `i`, plus the image of entry `i`. */
  lemma MapRemove<T, U>(s: seq<T>, i: nat, rest: seq<T>, f: T -> U)
    requires i < |s| && rest == s[..i] + s[i + 1..]
    ensures multiset(MapSeq(s, f)) == multiset(MapSeq(rest, f)) + multiset{f(s[i])}
  {
    var left, mid, right := s[..i], [s[i]], s[i + 1..];
    assert s == left + (mid + right);
    MapConcat(left, mid + right, f);
    MapConcat(mid, right, f);
    MapConcat(left, right, f);
    var ml, mm, mr := MapSeq(left, f), MapSeq(mid, f), MapSeq(right, f);
    assert mm == [f(s[i])];
    calc {
      multiset(MapSeq(s, f));
      multiset(ml + (mm + mr));
      multiset(ml) + multiset(mm) + multiset(mr);
      multiset(ml + mr) + multiset{f(s[i])};
    }
  }

  /** Taking the head of `a` and the same value out of `b` keeps them permutations. */
  lemma RemoveMatched<T>(a: seq<T>, b: seq<T>, i: nat)
    requires multiset(a) == multiset(b)
    requires |a| > 0 && i < |b| && b[i] == a[0]
    ensures multiset(a[1..]) == multiset(b[..i] + b[i + 1..])
  {
    RemoveMultiset(b, i);
    RemoveMultiset(a, 0);
    assert a[..0] + a[1..] == a[1..];
  }

  /** Mapping permutations of each other gives permutations of each other. */
  lemma {:induction false} MapPermutation<T(!new), U>(a: seq<T>, b: seq<T>, f: T -> U)
    requires multiset(a) == multiset(b)
    ensures multiset(MapSeq(a, f)) == multiset(MapSeq(b, f))
  {
    if a == [] {
      assert |b| == |multiset(b)| == 0;
    } else {
      assert a[0] in multiset(b);
      var i :| 0 <= i < |b| && b[i] == a[0];
      var tail, rest := a[1..], b[..i] + b[i + 1..];
      RemoveMatched(a, b, i);
      MapPermutation(tail, rest, f);
      assert a[..0] + a[1..] == tail;
      MapRemove(a, 0, tail, f);
      MapRemove(b, i, rest, f);
      var x := f(a[0]);
      assert multiset(MapSeq(a, f)) == multiset(MapSeq(tail, f)) + multiset{x};
      assert multiset(MapSeq(b, f)) == multiset(MapSeq(rest, f)) + multiset{x};
    }
  }

  /** A duplicate-free sequence holds each value at most once. */
  lemma {:induction false} NoDupMultiplicity<T(!new)>(s: seq<T>)
    requires NoDup(s)
    ensures forall x :: multiset(s)[x] <= 1
  {
    if s != [] {
      var t := s[1..];
      assert NoDup(t);
      NoDupMultiplicity(t);
      assert s == [s[0]] + t;
      assert s[0] !in t;
    }
  }

  /** A sequence that holds each value at most once has no duplicates. */
  lemma MultiplicityNoDup<T(!new)>(s: seq<T>)
    requires forall x :: multiset(s)[x] <= 1
    ensures NoDup(s)
  {
    forall i, j | 0 <= i < j < |s| ensures s[i] != s[j] {
      assert s == s[..j] + s[j..];
      assert s[i] in s[..j] && s[j] in s[j..];
      assert multiset(s)[s[j]] == multiset(s[..j])[s[j]] + multiset(s[j..])[s[j]];
    }
  }
}
