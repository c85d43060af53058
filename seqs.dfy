/** Array helpers the pages use through `filter` and `reduce`. */
module Seqs {

  /** `s.filter(p)`: the elements satisfying `p`, in their original order. */
  function Filter<T>(s: seq<T>, p: T -> bool): (r: seq<T>)
    ensures |r| <= |s|
    ensures forall i :: 0 <= i < |r| ==> r[i] in s && p(r[i])
    ensures forall i :: 0 <= i < |s| && p(s[i]) ==> s[i] in r
  {
    if s == [] then []
    else (if p(s[0]) then [s[0]] else []) + Filter(s[1..], p)
  }

  lemma {:induction false} FilterAppend<T>(a: seq<T>, b: seq<T>, p: T -> bool)
    ensures Filter(a + b, p) == Filter(a, p) + Filter(b, p)
  {
    if a == [] {
      assert a + b == b;
    } else {
      assert (a + b)[1..] == a[1..] + b;
      FilterAppend(a[1..], b, p);
    }
  }

  /** Filtering keeps everything when every element satisfies `p`. */
  lemma {:induction false} FilterAll<T>(s: seq<T>, p: T -> bool)
    requires forall x :: x in s ==> p(x)
    ensures Filter(s, p) == s
  {
    if s != [] {
      FilterAll(s[1..], p);
    }
  }

  /** Filtering keeps nothing when no element satisfies `p`. */
  lemma {:induction false} FilterNone<T>(s: seq<T>, p: T -> bool)
    requires forall x :: x in s ==> !p(x)
    ensures Filter(s, p) == []
  {
    if s != [] {
      FilterNone(s[1..], p);
    }
  }

  /** Filtering ignores a prefix that holds nothing `p` accepts. */
  lemma {:induction false} FilterDropPrefix<T>(s: seq<T>, a: nat, p: T -> bool)
    requires a <= |s|
    requires forall i :: 0 <= i < a ==> !p(s[i])
    ensures Filter(s, p) == Filter(s[a..], p)
    decreases a
  {
    if a > 0 {
      assert s[1..][a - 1..] == s[a..];
      FilterDropPrefix(s[1..], a - 1, p);
    }
  }

  /** Filtering ignores a suffix that holds nothing `p` accepts. */
  lemma {:induction false} FilterDropSuffix<T>(s: seq<T>, b: nat, p: T -> bool)
    requires b <= |s|
    requires forall i :: b <= i < |s| ==> !p(s[i])
    ensures Filter(s, p) == Filter(s[..b], p)
    decreases |s|
  {
    if s != [] {
      if b > 0 {
        assert s[..b][1..] == s[1..][..b - 1];
        FilterDropSuffix(s[1..], b - 1, p);
      } else {
        FilterDropSuffix(s[1..], 0, p);
      }
    }
  }

  /** Filtering ignores a prefix and a suffix that hold nothing `p` accepts. */
  lemma FilterMiddle<T>(s: seq<T>, a: nat, b: nat, p: T -> bool)
    requires a <= b <= |s|
    requires forall i :: 0 <= i < a ==> !p(s[i])
    requires forall i :: b <= i < |s| ==> !p(s[i])
    ensures Filter(s, p) == Filter(s[a..b], p)
  {
    FilterDropSuffix(s, b, p);
    assert s[..b][a..] == s[a..b];
    FilterDropPrefix(s[..b], a, p);
  }

  /** Two filters in a row keep what both predicates accept. */
  lemma {:induction false} FilterFilter<T>(s: seq<T>, p: T -> bool, q: T -> bool, pq: T -> bool)
    requires forall x :: pq(x) == (p(x) && q(x))
    ensures Filter(Filter(s, p), q) == Filter(s, pq)
  {
    if s != [] {
      FilterFilter(s[1..], p, q, pq);
      var head := if p(s[0]) then [s[0]] else [];
      FilterAppend(head, Filter(s[1..], p), q);
    }
  }

  /** Filtering depends only on what the predicate says about the elements. */
  lemma {:induction false} FilterSame<T>(s: seq<T>, p: T -> bool, q: T -> bool)
    requires forall x :: x in s ==> p(x) == q(x)
    ensures Filter(s, p) == Filter(s, q)
  {
    if s != [] {
      FilterSame(s[1..], p, q);
    }
  }

  /** `s.slice(0, n)`: the first `n` elements, or all of them. */
  function Take<T>(s: seq<T>, n: nat): (r: seq<T>)
    ensures |r| == if |s| < n then |s| else n
    ensures r == s[..|r|]
  {
    if |s| < n then s else s[..n]
  }

  /** `s.reduce((sum, x) => sum + f(x), 0)`. */
  function SumBy<T>(s: seq<T>, f: T -> int): int
  {
    if s == [] then 0 else f(s[0]) + SumBy(s[1..], f)
  }

  lemma {:induction false} SumByAppend<T>(a: seq<T>, b: seq<T>, f: T -> int)
    ensures SumBy(a + b, f) == SumBy(a, f) + SumBy(b, f)
  {
    if a == [] {
      assert a + b == b;
    } else {
      assert (a + b)[1..] == a[1..] + b;
      SumByAppend(a[1..], b, f);
    }
  }

  /** Changing one element changes the sum by the difference of its terms. */
  lemma {:induction false} SumByUpdate<T>(s: seq<T>, t: seq<T>, k: nat, f: T -> int)
    requires |s| == |t| && k < |s|
    requires forall i :: 0 <= i < |s| && i != k ==> s[i] == t[i]
    ensures SumBy(t, f) == SumBy(s, f) - f(s[k]) + f(t[k])
  {
    if k == 0 {
      assert s[1..] == t[1..];
    } else {
      SumByUpdate(s[1..], t[1..], k - 1, f);
    }
  }

  /** `s.map(f)`. */
  function Map<A, B>(s: seq<A>, f: A -> B): (r: seq<B>)
    ensures |r| == |s|
    ensures forall i :: 0 <= i < |s| ==> r[i] == f(s[i])
  {
    seq(|s|, i requires 0 <= i < |s| => f(s[i]))
  }

  /** Mapping a concatenation maps each part. */
  lemma MapAppend<A, B>(a: seq<A>, b: seq<A>, f: A -> B)
    ensures Map(a + b, f) == Map(a, f) + Map(b, f)
  {
    assert forall i :: |a| <= i < |a| + |b| ==> (a + b)[i] == b[i - |a|];
  }

  /** A prefix sum grows by the next element. */
  lemma SumByPrefix<T>(s: seq<T>, k: nat, f: T -> int)
    requires 0 < k <= |s|
    ensures SumBy(s[..k], f) == SumBy(s[..k - 1], f) + f(s[k - 1])
  {
    assert s[..k] == s[..k - 1] + [s[k - 1]];
    SumByAppend(s[..k - 1], [s[k - 1]], f);
  }

  /** A sum of non-negative terms is non-negative. */
  lemma {:induction false} SumByNonNegative<T>(s: seq<T>, f: T -> int)
    requires forall x :: x in s ==> f(x) >= 0
    ensures SumBy(s, f) >= 0
  {
    if s != [] {
      SumByNonNegative(s[1..], f);
    }
  }

  /** The sum of `f - g` is the difference of the sums. */
  lemma {:induction false} SumByDifference<T>(s: seq<T>, f: T -> int, g: T -> int, h: T -> int)
    requires forall x :: x in s ==> h(x) == f(x) - g(x)
    ensures SumBy(s, h) == SumBy(s, f) - SumBy(s, g)
  {
    if s != [] {
      SumByDifference(s[1..], f, g, h);
    }
  }

  /** How many elements satisfy `p` (`s.filter(p).length`). */
  function Count<T>(s: seq<T>, p: T -> bool): nat
  {
    |Filter(s, p)|
  }

  /** Every element is counted once: by `p` or by its negation. */
  lemma {:induction false} CountSplit<T>(s: seq<T>, p: T -> bool, q: T -> bool)
    requires forall x :: q(x) == !p(x)
    ensures Count(s, p) + Count(s, q) == |s|
  {
    if s != [] {
      CountSplit(s[1..], p, q);
    }
  }

  /** A sum splits into the sum over the elements kept by a filter and the
      sum over the elements it drops. */
  lemma {:induction false} SumByFilterSplit<T>(s: seq<T>, f: T -> int, p: T -> bool, q: T -> bool)
    requires forall x :: q(x) == !p(x)
    ensures SumBy(s, f) == SumBy(Filter(s, p), f) + SumBy(Filter(s, q), f)
  {
    if s != [] {
      SumByFilterSplit(s[1..], f, p, q);
      var rp := if p(s[0]) then [s[0]] else [];
      var rq := if q(s[0]) then [s[0]] else [];
      SumByAppend(rp, Filter(s[1..], p), f);
      SumByAppend(rq, Filter(s[1..], q), f);
    }
  }
}
