/** `Array.prototype.filter` and `filter(...).length` over immutable record
    tables, with the facts every page relies on: the result is an
    order-preserving subsequence of the input that holds exactly the kept
    records, and successive filters combine by conjunction. */
module Filters {

  /** `s.filter(keep)`: the elements of `s` satisfying `keep`, in their original order. */
  function Filter<T>(s: seq<T>, keep: T -> bool): (r: seq<T>)
    ensures |r| <= |s|
    ensures forall i :: 0 <= i < |r| ==> keep(r[i])
    decreases |s|
  {
    if s == [] then []
    else if keep(s[0]) then [s[0]] + Filter(s[1..], keep)
    else Filter(s[1..], keep)
  }

  /** `s.filter(keep).length`. */
  function Count<T>(s: seq<T>, keep: T -> bool): (n: nat)
    ensures n <= |s|
    ensures n == 0 <==> forall i :: 0 <= i < |s| ==> !keep(s[i])
  {
    FilterEmptyIff(s, keep);
    |Filter(s, keep)|
  }

  /** Nothing survives the filter exactly when no element is kept. */
  lemma {:induction false} FilterEmptyIff<T>(s: seq<T>, keep: T -> bool)
    ensures Filter(s, keep) == [] <==> forall i :: 0 <= i < |s| ==> !keep(s[i])
    decreases |s|
  {
    if s != [] {
      FilterEmptyIff(s[1..], keep);
      assert (forall i :: 0 <= i < |s| ==> !keep(s[i])) <==>
             !keep(s[0]) && forall i :: 0 <= i < |s[1..]| ==> !keep(s[1..][i]) by {
        if !keep(s[0]) && forall i :: 0 <= i < |s[1..]| ==> !keep(s[1..][i]) {
          forall i | 0 <= i < |s| ensures !keep(s[i]) {
            if i > 0 { assert s[i] == s[1..][i - 1]; }
          }
        }
      }
    }
  }

  /** `a` is obtained from `b` by deleting elements, without reordering. */
  predicate IsSubsequence<T(==)>(a: seq<T>, b: seq<T>)
    decreases |b|
  {
    if a == [] then true
    else if b == [] then false
    else (a[0] == b[0] && IsSubsequence(a[1..], b[1..])) || IsSubsequence(a, b[1..])
  }

  lemma {:induction false} FilterIsSubsequence<T>(s: seq<T>, keep: T -> bool)
    ensures IsSubsequence(Filter(s, keep), s)
    decreases |s|
  {
    if s != [] {
      FilterIsSubsequence(s[1..], keep);
      var r := Filter(s, keep);
      if keep(s[0]) {
        assert r[0] == s[0] && r[1..] == Filter(s[1..], keep);
      } else if r != [] {
        assert r == Filter(s[1..], keep);
      }
    }
  }

  /** The filtered sequence holds exactly the elements of the input that are kept. */
  lemma {:induction false} FilterMembership<T>(s: seq<T>, keep: T -> bool, x: T)
    ensures x in Filter(s, keep) <==> x in s && keep(x)
    decreases |s|
  {
    if s != [] {
      FilterMembership(s[1..], keep, x);
      assert x in s <==> x == s[0] || x in s[1..];
    }
  }

  lemma FilterExact<T>(s: seq<T>, keep: T -> bool)
    ensures forall x :: x in Filter(s, keep) <==> x in s && keep(x)
  {
    forall x
      ensures x in Filter(s, keep) <==> x in s && keep(x)
    {
      FilterMembership(s, keep, x);
    }
  }

  /** Every occurrence of a kept element survives, and none of a dropped one:
      duplicates are neither merged nor lost. */
  lemma {:induction false} FilterMultiset<T>(s: seq<T>, keep: T -> bool, x: T)
    ensures multiset(Filter(s, keep))[x] == if keep(x) then multiset(s)[x] else 0
    decreases |s|
  {
    if s != [] {
      FilterMultiset(s[1..], keep, x);
      assert s == [s[0]] + s[1..];
      assert multiset(s) == multiset([s[0]]) + multiset(s[1..]);
      if keep(s[0]) {
        assert multiset(Filter(s, keep)) == multiset([s[0]]) + multiset(Filter(s[1..], keep));
      }
    }
  }

  lemma FilterMultisetExact<T>(s: seq<T>, keep: T -> bool)
    ensures forall x :: multiset(Filter(s, keep))[x] == if keep(x) then multiset(s)[x] else 0
  {
    forall x
      ensures multiset(Filter(s, keep))[x] == if keep(x) then multiset(s)[x] else 0
    {
      FilterMultiset(s, keep, x);
    }
  }

  /** When every element is kept, filtering returns the input unchanged. */
  lemma {:induction false} FilterKeepsAll<T>(s: seq<T>, keep: T -> bool)
    requires forall i :: 0 <= i < |s| ==> keep(s[i])
    ensures Filter(s, keep) == s
    decreases |s|
  {
    if s != [] {
      assert forall i :: 0 <= i < |s[1..]| ==> keep(s[1..][i]) by {
        forall i | 0 <= i < |s[1..]| ensures keep(s[1..][i]) { assert s[1..][i] == s[i + 1]; }
      }
      FilterKeepsAll(s[1..], keep);
      assert [s[0]] + s[1..] == s;
    }
  }

  /** When no element is kept, filtering returns the empty sequence. */
  lemma {:induction false} FilterKeepsNone<T>(s: seq<T>, keep: T -> bool)
    requires forall i :: 0 <= i < |s| ==> !keep(s[i])
    ensures Filter(s, keep) == []
    decreases |s|
  {
    if s != [] {
      assert forall i :: 0 <= i < |s[1..]| ==> !keep(s[1..][i]) by {
        forall i | 0 <= i < |s[1..]| ensures !keep(s[1..][i]) { assert s[1..][i] == s[i + 1]; }
      }
      FilterKeepsNone(s[1..], keep);
    }
  }

  /** Two predicates that agree on the input select the same elements. */
  lemma {:induction false} FilterExtensional<T>(s: seq<T>, p: T -> bool, q: T -> bool)
    requires forall i :: 0 <= i < |s| ==> p(s[i]) == q(s[i])
    ensures Filter(s, p) == Filter(s, q)
    decreases |s|
  {
    if s != [] {
      assert forall i :: 0 <= i < |s[1..]| ==> p(s[1..][i]) == q(s[1..][i]) by {
        forall i | 0 <= i < |s[1..]| ensures p(s[1..][i]) == q(s[1..][i]) { assert s[1..][i] == s[i + 1]; }
      }
      FilterExtensional(s[1..], p, q);
    }
  }

  /** Filtering twice is filtering once by the conjunction. */
  lemma {:induction false} FilterFuse<T>(s: seq<T>, p: T -> bool, q: T -> bool)
    ensures Filter(Filter(s, p), q) == Filter(s, x => p(x) && q(x))
    decreases |s|
  {
    if s != [] {
      FilterFuse(s[1..], p, q);
      if p(s[0]) {
        var f := Filter(s, p);
        assert f[0] == s[0] && f[1..] == Filter(s[1..], p);
      }
    }
  }

  /** Three successive filters are one filter by the three-way conjunction `pqr`. */
  lemma FilterFuse3<T>(s: seq<T>, p: T -> bool, q: T -> bool, r: T -> bool, pqr: T -> bool)
    requires forall x :: pqr(x) == (p(x) && q(x) && r(x))
    ensures Filter(Filter(Filter(s, p), q), r) == Filter(s, pqr)
  {
    var pq := x => p(x) && q(x);
    FilterFuse(s, p, q);
    FilterFuse(s, pq, r);
    FilterExtensional(s, x => pq(x) && r(x), pqr);
  }

  /** The order in which two filters are applied does not matter. */
  lemma FilterCommute<T>(s: seq<T>, p: T -> bool, q: T -> bool)
    ensures Filter(Filter(s, p), q) == Filter(Filter(s, q), p)
  {
    FilterFuse(s, p, q);
    FilterFuse(s, q, p);
    FilterExtensional(s, x => p(x) && q(x), x => q(x) && p(x));
  }

  /** If no two distinct positions are both kept, at most one element survives. */
  lemma {:induction false} FilterAtMostOne<T>(s: seq<T>, keep: T -> bool)
    requires forall i, j :: 0 <= i < j < |s| && keep(s[i]) ==> !keep(s[j])
    ensures |Filter(s, keep)| <= 1
    decreases |s|
  {
    if s != [] {
      var t := s[1..];
      assert forall i, j :: 0 <= i < j < |t| && keep(t[i]) ==> !keep(t[j]) by {
        forall i, j | 0 <= i < j < |t| && keep(t[i]) ensures !keep(t[j]) {
          assert t[i] == s[i + 1] && t[j] == s[j + 1];
        }
      }
      if keep(s[0]) {
        assert forall i :: 0 <= i < |t| ==> !keep(t[i]) by {
          forall i | 0 <= i < |t| ensures !keep(t[i]) { assert t[i] == s[i + 1]; }
        }
        FilterKeepsNone(t, keep);
      } else {
        FilterAtMostOne(t, keep);
      }
    }
  }

  /** When every element satisfies exactly one of three predicates, the three counts add up to the length. */
  lemma {:induction false} CountThreeWay<T>(s: seq<T>, p: T -> bool, q: T -> bool, r: T -> bool)
    requires forall i :: 0 <= i < |s| ==>
      (p(s[i]) && !q(s[i]) && !r(s[i])) ||
      (!p(s[i]) && q(s[i]) && !r(s[i])) ||
      (!p(s[i]) && !q(s[i]) && r(s[i]))
    ensures Count(s, p) + Count(s, q) + Count(s, r) == |s|
    decreases |s|
  {
    if s != [] {
      var t := s[1..];
      assert forall i :: 0 <= i < |t| ==>
        (p(t[i]) && !q(t[i]) && !r(t[i])) ||
        (!p(t[i]) && q(t[i]) && !r(t[i])) ||
        (!p(t[i]) && !q(t[i]) && r(t[i])) by {
        forall i | 0 <= i < |t|
          ensures (p(t[i]) && !q(t[i]) && !r(t[i])) ||
                  (!p(t[i]) && q(t[i]) && !r(t[i])) ||
                  (!p(t[i]) && !q(t[i]) && r(t[i]))
        {
          assert t[i] == s[i + 1];
        }
      }
      CountThreeWay(t, p, q, r);
      // The head passes exactly one test, so exactly one count grows by one.
      assert (p(s[0]) && !q(s[0]) && !r(s[0])) ||
             (!p(s[0]) && q(s[0]) && !r(s[0])) ||
             (!p(s[0]) && !q(s[0]) && r(s[0]));
    }
  }
}
