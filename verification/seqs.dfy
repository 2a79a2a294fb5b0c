/** Sequence helpers shared by the model: `Array.prototype.filter` and the
    notion of an order-preserving subsequence that many list properties of
    the application are stated in. */
module Seqs {

  /** `xs.filter(p)`: the elements satisfying `p`, in their input order. */
  function Filter<T>(xs: seq<T>, p: T -> bool): (r: seq<T>)
    ensures |r| <= |xs|
    ensures forall i :: 0 <= i < |r| ==> r[i] in xs && p(r[i])
    ensures forall i :: 0 <= i < |xs| && p(xs[i]) ==> xs[i] in r
    ensures multiset(r) <= multiset(xs)
  {
    if xs == [] then []
    else
      assert xs == [xs[0]] + xs[1..];
      if p(xs[0]) then [xs[0]] + Filter(xs[1..], p)
      else Filter(xs[1..], p)
  }

  /** `xs` can be obtained from `ys` by deleting elements (order kept). */
  ghost predicate IsSubsequence<T>(xs: seq<T>, ys: seq<T>)
    decreases |ys|
  {
    if xs == [] then true
    else if ys == [] then false
    else (xs[0] == ys[0] && IsSubsequence(xs[1..], ys[1..])) || IsSubsequence(xs, ys[1..])
  }

  /** No value occurs twice. */
  ghost predicate Distinct<T>(xs: seq<T>)
  {
    forall i, j :: 0 <= i < j < |xs| ==> xs[i] != xs[j]
  }

  lemma {:induction false} SubsequenceLength<T>(xs: seq<T>, ys: seq<T>)
    requires IsSubsequence(xs, ys)
    ensures |xs| <= |ys|
    decreases |ys|
  {
    if xs != [] {
      if xs[0] == ys[0] && IsSubsequence(xs[1..], ys[1..]) {
        SubsequenceLength(xs[1..], ys[1..]);
      } else {
        SubsequenceLength(xs, ys[1..]);
      }
    }
  }

  lemma {:induction false} SubsequenceRefl<T>(xs: seq<T>)
    ensures IsSubsequence(xs, xs)
  {
    if xs != [] {
      SubsequenceRefl(xs[1..]);
    }
  }

  lemma {:induction false} SubsequenceTrans<T>(xs: seq<T>, ys: seq<T>, zs: seq<T>)
    requires IsSubsequence(xs, ys) && IsSubsequence(ys, zs)
    ensures IsSubsequence(xs, zs)
    decreases |zs|
  {
    if xs == [] {
    } else if ys[0] == zs[0] && IsSubsequence(ys[1..], zs[1..]) {
      if xs[0] == ys[0] && IsSubsequence(xs[1..], ys[1..]) {
        SubsequenceTrans(xs[1..], ys[1..], zs[1..]);
      } else {
        SubsequenceTrans(xs, ys[1..], zs[1..]);
      }
    } else {
      SubsequenceTrans(xs, ys, zs[1..]);
    }
  }

  /** Filtering keeps the order of what it keeps. */
  lemma {:induction false} FilterIsSubsequence<T>(xs: seq<T>, p: T -> bool)
    ensures IsSubsequence(Filter(xs, p), xs)
  {
    if xs != [] {
      FilterIsSubsequence(xs[1..], p);
      if p(xs[0]) {
        assert Filter(xs, p)[1..] == Filter(xs[1..], p);
      }
    }
  }

  lemma {:induction false} FilterConcat<T>(a: seq<T>, b: seq<T>, p: T -> bool)
    ensures Filter(a + b, p) == Filter(a, p) + Filter(b, p)
  {
    if a == [] {
      assert a + b == b;
    } else {
      assert (a + b)[1..] == a[1..] + b;
      FilterConcat(a[1..], b, p);
    }
  }

  /** A filter whose predicate holds everywhere changes nothing. */
  lemma {:induction false} FilterAll<T>(xs: seq<T>, p: T -> bool)
    requires forall i :: 0 <= i < |xs| ==> p(xs[i])
    ensures Filter(xs, p) == xs
  {
    if xs != [] {
      FilterAll(xs[1..], p);
    }
  }

  /** A filter whose predicate holds nowhere keeps nothing. */
  lemma {:induction false} FilterNone<T>(xs: seq<T>, p: T -> bool)
    requires forall i :: 0 <= i < |xs| ==> !p(xs[i])
    ensures Filter(xs, p) == []
  {
    if xs != [] {
      assert forall i :: 0 <= i < |xs[1..]| ==> xs[1..][i] == xs[i + 1];
      FilterNone(xs[1..], p);
    }
  }

  /** When no two elements both satisfy `p`, the filter keeps at most one. */
  lemma {:induction false} FilterAtMostOne<T>(xs: seq<T>, p: T -> bool)
    requires forall i, j :: 0 <= i < j < |xs| && p(xs[i]) ==> !p(xs[j])
    ensures |Filter(xs, p)| <= 1
  {
    if xs != [] {
      var tail := xs[1..];
      assert forall i :: 0 <= i < |tail| ==> tail[i] == xs[i + 1];
      if p(xs[0]) {
        FilterNone(tail, p);
      } else {
        FilterAtMostOne(tail, p);
      }
    }
  }

  /** When exactly the element at `k` satisfies `p`, the filter is that
      element alone. */
  lemma {:induction false} FilterSingle<T>(xs: seq<T>, p: T -> bool, k: nat)
    requires k < |xs| && p(xs[k])
    requires forall i :: 0 <= i < |xs| && i != k ==> !p(xs[i])
    ensures Filter(xs, p) == [xs[k]]
  {
    var tail := xs[1..];
    assert forall i :: 0 <= i < |tail| ==> tail[i] == xs[i + 1];
    if k == 0 {
      FilterNone(tail, p);
    } else {
      FilterSingle(tail, p, k - 1);
    }
  }

  /** Filtering by `p` and then by `q` equals filtering once by any `pq` that
      is their conjunction. */
  lemma {:induction false} FilterFilter<T>(xs: seq<T>, p: T -> bool, q: T -> bool, pq: T -> bool)
    requires forall i :: 0 <= i < |xs| ==> pq(xs[i]) == (p(xs[i]) && q(xs[i]))
    ensures Filter(Filter(xs, p), q) == Filter(xs, pq)
  {
    if xs != [] {
      FilterFilter(xs[1..], p, q, pq);
    }
  }

  /** Filtering keeps every copy of a value that satisfies `p` and no copy
      of one that does not. */
  lemma {:induction false} FilterMultiset<T>(xs: seq<T>, p: T -> bool, x: T)
    ensures multiset(Filter(xs, p))[x] == if p(x) then multiset(xs)[x] else 0
  {
    if xs != [] {
      assert xs == [xs[0]] + xs[1..];
      FilterMultiset(xs[1..], p, x);
    }
  }

  /** Two filters whose predicates agree everywhere give the same result. */
  lemma {:induction false} FilterSame<T>(xs: seq<T>, f: T -> bool, g: T -> bool)
    requires forall x :: f(x) == g(x)
    ensures Filter(xs, f) == Filter(xs, g)
  {
    if xs != [] {
      FilterSame(xs[1..], f, g);
    }
  }

  /** No two elements share a key. */
  ghost predicate DistinctBy<T, K>(xs: seq<T>, f: T -> K)
  {
    forall i, j :: 0 <= i < j < |xs| ==> f(xs[i]) != f(xs[j])
  }

  lemma DistinctByTail<T, K>(xs: seq<T>, f: T -> K)
    requires xs != [] && DistinctBy(xs, f)
    ensures DistinctBy(xs[1..], f)
  {
    var tail := xs[1..];
    forall i, j | 0 <= i < j < |tail| ensures f(tail[i]) != f(tail[j]) {
      assert tail[i] == xs[i + 1] && tail[j] == xs[j + 1];
    }
  }

  /** Putting in front an element whose key no other element has keeps the
      keys distinct. */
  lemma DistinctByCons<T, K>(x: T, xs: seq<T>, f: T -> K)
    requires DistinctBy(xs, f)
    requires forall k :: 0 <= k < |xs| ==> f(xs[k]) != f(x)
    ensures DistinctBy([x] + xs, f)
  {
    var r := [x] + xs;
    forall i, j | 0 <= i < j < |r| ensures f(r[i]) != f(r[j]) {
      assert r[j] == xs[j - 1];
      if i > 0 {
        assert r[i] == xs[i - 1];
      }
    }
  }

  /** Filtering keeps the keys distinct. */
  lemma {:induction false} FilterDistinctBy<T, K>(xs: seq<T>, p: T -> bool, f: T -> K)
    requires DistinctBy(xs, f)
    ensures DistinctBy(Filter(xs, p), f)
  {
    if xs != [] {
      var tail := xs[1..];
      DistinctByTail(xs, f);
      FilterDistinctBy(tail, p, f);
      if p(xs[0]) {
        var rest := Filter(tail, p);
        forall k | 0 <= k < |rest| ensures f(rest[k]) != f(xs[0]) {
          var j :| 0 <= j < |tail| && tail[j] == rest[k];
          assert tail[j] == xs[j + 1];
        }
        DistinctByCons(xs[0], rest, f);
      }
    }
  }
}
