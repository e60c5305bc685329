/**
 * Ordering rows by a comparator (pandas `sort_values`). Only the order of
 * the keys is promised: rows whose keys tie may come out in any order, since
 * the default pandas sort is not stable.
 */
module Sorting {
  import opened Seqs

  /** `le` is total and transitive: a key order that admits ties. */
  ghost predicate TotalPreorder<T(!new)>(le: (T, T) -> bool)
  {
    && (forall a, b :: le(a, b) || le(b, a))
    && (forall a, b, c :: le(a, b) && le(b, c) ==> le(a, c))
  }

  predicate Sorted<T>(s: seq<T>, le: (T, T) -> bool)
  {
    forall i, j :: 0 <= i < j < |s| ==> le(s[i], s[j])
  }

  /** Puts `x` into the sorted `s`, before the first entry it precedes. */
  function Insert<T(!new)>(x: T, s: seq<T>, le: (T, T) -> bool): (r: seq<T>)
    requires TotalPreorder(le)
    requires Sorted(s, le)
    ensures multiset(r) == multiset(s) + multiset{x}
    ensures Sorted(r, le)
  {
    if s == [] then [x]
    else if le(x, s[0]) then [x] + s
    else
      var t := Insert(x, s[1..], le);
      assert s == [s[0]] + s[1..];
      assert forall y :: y in t ==> le(s[0], y) by {
        forall y | y in t ensures le(s[0], y) {
          assert y in multiset(t);
          if y != x {
            assert y in multiset(s[1..]);
          }
        }
      }
      [s[0]] + t
  }

  /** The rows of `s` rearranged so that their keys ascend. */
  function SortBy<T(!new)>(s: seq<T>, le: (T, T) -> bool): (r: seq<T>)
    requires TotalPreorder(le)
    ensures multiset(r) == multiset(s)
    ensures Sorted(r, le)
  {
    if s == [] then []
    else
      assert s == [s[0]] + s[1..];
      Insert(s[0], SortBy(s[1..], le), le)
  }

  /** `x` and `y` tie under `le`: neither sorts strictly before the other. */
  predicate Tied<T>(le: (T, T) -> bool, x: T, y: T)
  {
    le(x, y) && le(y, x)
  }

  lemma RemoveKeepsSorted<T>(s: seq<T>, i: nat, le: (T, T) -> bool)
    requires i < |s| && Sorted(s, le)
    ensures Sorted(s[..i] + s[i + 1..], le)
  {
    var rest := s[..i] + s[i + 1..];
    forall p, q | 0 <= p < q < |rest| ensures le(rest[p], rest[q]) {
      var p' := if p < i then p else p + 1;
      var q' := if q < i then q else q + 1;
      assert rest[p] == s[p'] && rest[q] == s[q'];
    }
  }

  /** The first entry of a sorted sequence precedes every entry. */
  lemma SortedHeadLeast<T(!new)>(s: seq<T>, x: T, le: (T, T) -> bool)
    requires TotalPreorder(le) && Sorted(s, le) && x in s
    ensures le(s[0], x)
  {
    var k :| 0 <= k < |s| && s[k] == x;
    if k > 0 {
      assert le(s[0], s[k]);
    } else {
      assert le(x, x) || le(x, x);
    }
  }

  /**
   * When `b` without its entry `i` ties position by position with `a`
   * without its head, and the head ties with `b[0]` and equals `b[i]`, then
   * `a` and `b` tie position by position.
   */
  lemma TiesAfterRemoval<T(!new)>(a: seq<T>, b: seq<T>, i: nat, tail: seq<T>, rest: seq<T>, le: (T, T) -> bool)
    requires TotalPreorder(le)
    requires |a| == |b| && i < |b| && Sorted(b, le)
    requires tail == a[1..] && rest == b[..i] + b[i + 1..]
    requires b[i] == a[0] && Tied(le, a[0], b[0])
    requires |tail| == |rest| && forall k :: 0 <= k < |tail| ==> Tied(le, tail[k], rest[k])
    ensures forall k :: 0 <= k < |a| ==> Tied(le, a[k], b[k])
  {
    forall k | 0 < k < |a| ensures Tied(le, a[k], b[k]) {
      assert a[k] == tail[k - 1] && Tied(le, tail[k - 1], rest[k - 1]);
      if k <= i {
        assert rest[k - 1] == b[k - 1];
        assert le(b[k - 1], b[k]);
        assert le(b[k], b[0]) by {
          if k < i { assert le(b[k], b[i]); }
        }
      } else {
        assert rest[k - 1] == b[k];
      }
    }
  }

  /**
   * Two sorted orderings of the same rows tie position by position: however
   * the input was ordered, the sort produces the same sequence of keys.
   */
  lemma {:induction false} SortedTiesUnique<T(!new)>(a: seq<T>, b: seq<T>, le: (T, T) -> bool)
    requires TotalPreorder(le)
    requires multiset(a) == multiset(b)
    requires Sorted(a, le) && Sorted(b, le)
    ensures |a| == |b|
    ensures forall k :: 0 <= k < |a| ==> Tied(le, a[k], b[k])
  {
    assert |a| == |multiset(a)| == |multiset(b)| == |b|;
    if a != [] {
      assert a[0] in multiset(b) && b[0] in multiset(a);
      SortedHeadLeast(a, b[0], le);
      SortedHeadLeast(b, a[0], le);
      var i :| 0 <= i < |b| && b[i] == a[0];
      RemoveMatched(a, b, i);
      RemoveKeepsSorted(b, i, le);
      RemoveKeepsSorted(a, 0, le);
      assert a[..0] + a[1..] == a[1..];
      var tail, rest := a[1..], b[..i] + b[i + 1..];
      SortedTiesUnique(tail, rest, le);
      TiesAfterRemoval(a, b, i, tail, rest, le);
    }
  }
}
