/** The server-side operations the pages ask the store for, as functions
    over rows: ordering (`order(column, { ascending: false })`) and SQL
    `ILIKE` pattern matching. */
module Store {
  import opened Seqs
  import opened Strings

  // ----------------------------------------------------------- ordering

  ghost predicate SortedDesc<T>(xs: seq<T>, key: T -> int)
  {
    forall i, j :: 0 <= i < j < |xs| ==> key(xs[i]) >= key(xs[j])
  }

  /** `x` placed before the first element whose key is not larger. */
  function InsertDesc<T>(x: T, ys: seq<T>, key: T -> int): (r: seq<T>)
    ensures |r| == |ys| + 1
    ensures multiset(r) == multiset(ys) + multiset{x}
  {
    if ys == [] || key(ys[0]) <= key(x) then [x] + ys
    else
      assert ys == [ys[0]] + ys[1..];
      [ys[0]] + InsertDesc(x, ys[1..], key)
  }

  lemma {:induction false} InsertDescSorted<T>(x: T, ys: seq<T>, key: T -> int)
    requires SortedDesc(ys, key)
    ensures SortedDesc(InsertDesc(x, ys, key), key)
  {
    if ys != [] && key(ys[0]) > key(x) {
      var rest := InsertDesc(x, ys[1..], key);
      assert SortedDesc(ys[1..], key);
      InsertDescSorted(x, ys[1..], key);
      forall k | 0 <= k < |rest| ensures key(ys[0]) >= key(rest[k]) {
        assert rest[k] in multiset(rest);
        assert rest[k] == x || rest[k] in multiset(ys[1..]);
        if rest[k] != x {
          var j :| 0 <= j < |ys[1..]| && ys[1..][j] == rest[k];
          assert ys[j + 1] == rest[k];
        }
      }
    }
  }

  /** Rows in descending key order. The store promises no order among rows
      with equal keys; keeping their table order is this model's choice. */
  function SortDesc<T>(xs: seq<T>, key: T -> int): (r: seq<T>)
    ensures |r| == |xs|
    ensures multiset(r) == multiset(xs)
    ensures SortedDesc(r, key)
  {
    if xs == [] then []
    else
      assert xs == [xs[0]] + xs[1..];
      InsertDescSorted(xs[0], SortDesc(xs[1..], key), key);
      InsertDesc(xs[0], SortDesc(xs[1..], key), key)
  }

  lemma {:induction false} InsertDescDistinctBy<T, K>(x: T, ys: seq<T>, key: T -> int, f: T -> K)
    requires DistinctBy(ys, f)
    requires forall j :: 0 <= j < |ys| ==> f(ys[j]) != f(x)
    ensures DistinctBy(InsertDesc(x, ys, key), f)
  {
    if ys == [] || key(ys[0]) <= key(x) {
      DistinctByCons(x, ys, f);
    } else {
      var tail := ys[1..];
      DistinctByTail(ys, f);
      forall j | 0 <= j < |tail| ensures f(tail[j]) != f(x) {
        assert tail[j] == ys[j + 1];
      }
      InsertDescDistinctBy(x, tail, key, f);
      var rest := InsertDesc(x, tail, key);
      forall k | 0 <= k < |rest| ensures f(rest[k]) != f(ys[0]) {
        assert rest[k] in multiset(rest);
        if rest[k] != x {
          var j :| 0 <= j < |tail| && tail[j] == rest[k];
          assert tail[j] == ys[j + 1];
        }
      }
      DistinctByCons(ys[0], rest, f);
    }
  }

  /** Sorting keeps the keys distinct. */
  lemma {:induction false} SortDescDistinctBy<T, K>(xs: seq<T>, key: T -> int, f: T -> K)
    requires DistinctBy(xs, f)
    ensures DistinctBy(SortDesc(xs, key), f)
  {
    if xs != [] {
      var tail := xs[1..];
      DistinctByTail(xs, f);
      SortDescDistinctBy(tail, key, f);
      var sorted := SortDesc(tail, key);
      forall j | 0 <= j < |sorted| ensures f(sorted[j]) != f(xs[0]) {
        assert sorted[j] in multiset(sorted);
        var m :| 0 <= m < |tail| && tail[m] == sorted[j];
        assert tail[m] == xs[m + 1];
      }
      InsertDescDistinctBy(xs[0], sorted, key, f);
    }
  }

  /** Dropping rows from a sorted answer leaves it sorted. */
  lemma {:induction false} FilterSortedDesc<T>(xs: seq<T>, p: T -> bool, key: T -> int)
    requires SortedDesc(xs, key)
    ensures SortedDesc(Filter(xs, p), key)
  {
    if xs != [] {
      var tail := xs[1..];
      TailSortedDesc(xs, key);
      FilterSortedDesc(tail, p, key);
      if p(xs[0]) {
        var rest := Filter(tail, p);
        forall k | 0 <= k < |rest| ensures key(xs[0]) >= key(rest[k]) {
          var j :| 0 <= j < |tail| && tail[j] == rest[k];
          assert tail[j] == xs[j + 1];
        }
        ConsSortedDesc(xs[0], rest, key);
      }
    }
  }

  lemma TailSortedDesc<T>(xs: seq<T>, key: T -> int)
    requires xs != [] && SortedDesc(xs, key)
    ensures SortedDesc(xs[1..], key)
  {
    var tail := xs[1..];
    forall i, j | 0 <= i < j < |tail| ensures key(tail[i]) >= key(tail[j]) {
      assert tail[i] == xs[i + 1] && tail[j] == xs[j + 1];
    }
  }

  lemma ConsSortedDesc<T>(x: T, xs: seq<T>, key: T -> int)
    requires SortedDesc(xs, key) && forall k :: 0 <= k < |xs| ==> key(x) >= key(xs[k])
    ensures SortedDesc([x] + xs, key)
  {
    var r := [x] + xs;
    forall i, j | 0 <= i < j < |r| ensures key(r[i]) >= key(r[j]) {
      assert r[j] == xs[j - 1];
      if i > 0 {
        assert r[i] == xs[i - 1];
      }
    }
  }

  /** The rows `Filter(xs, q)` keeps from a sorted answer to `p` are, as a
      bag, the rows of `xs` satisfying both, and stay sorted. */
  lemma SortedAnswerFiltered<T>(xs: seq<T>, p: T -> bool, q: T -> bool, pq: T -> bool, key: T -> int)
    requires forall x :: pq(x) == (p(x) && q(x))
    ensures var r := Filter(SortDesc(Filter(xs, p), key), q);
      && SortedDesc(r, key)
      && multiset(r) == multiset(Filter(xs, pq))
  {
    var sorted := SortDesc(Filter(xs, p), key);
    FilterSortedDesc(sorted, q, key);
    AnswerBag(xs, p, q, pq, sorted);
  }

  lemma AnswerBag<T>(xs: seq<T>, p: T -> bool, q: T -> bool, pq: T -> bool, sorted: seq<T>)
    requires forall x :: pq(x) == (p(x) && q(x))
    requires multiset(sorted) == multiset(Filter(xs, p))
    ensures multiset(Filter(sorted, q)) == multiset(Filter(xs, pq))
  {
    forall x ensures multiset(Filter(sorted, q))[x] == multiset(Filter(xs, pq))[x] {
      AnswerCount(xs, p, q, pq, sorted, x);
    }
  }

  lemma AnswerCount<T>(xs: seq<T>, p: T -> bool, q: T -> bool, pq: T -> bool, sorted: seq<T>, x: T)
    requires pq(x) == (p(x) && q(x))
    requires multiset(sorted) == multiset(Filter(xs, p))
    ensures multiset(Filter(sorted, q))[x] == multiset(Filter(xs, pq))[x]
  {
    FilterMultiset(sorted, q, x);
    FilterMultiset(xs, p, x);
    FilterMultiset(xs, pq, x);
  }

  // -------------------------------------------------------------- ILIKE

  /** SQL `LIKE`: `%` matches any run of characters, `_` any one
      character, and `\` makes the next character literal; a pattern that
      ends in a lone `\` matches nothing. */
  function Like(s: string, p: string): bool
    decreases |s| + |p|
  {
    if p == [] then s == []
    else if p[0] == '%' then Like(s, p[1..]) || (s != [] && Like(s[1..], p))
    else if p[0] == '_' then s != [] && Like(s[1..], p[1..])
    else if p[0] == '\\' then |p| >= 2 && s != [] && s[0] == p[1] && Like(s[1..], p[2..])
    else s != [] && s[0] == p[0] && Like(s[1..], p[1..])
  }

  /** `ILIKE`: `LIKE` on the lower-cased text and pattern. */
  function ILike(s: string, p: string, lower: char -> char): bool
  {
    Like(Lower(s, lower), Lower(p, lower))
  }

  predicate IsPlain(s: string)
  {
    '%' !in s && '_' !in s && '\\' !in s
  }

  /** PostgREST's reading of a `like`/`ilike` filter value: every `*` stands
      for `%`, every other character for itself. */
  function StarAsPercent(p: string): (r: string)
    ensures |r| == |p|
    ensures forall i :: 0 <= i < |p| ==> r[i] == (if p[i] == '*' then '%' else p[i])
  {
    if p == [] then [] else [if p[0] == '*' then '%' else p[0]] + StarAsPercent(p[1..])
  }

  /** A value without `*` reaches the database unchanged. */
  lemma StarFree(p: string)
    requires '*' !in p
    ensures StarAsPercent(p) == p
  {
  }

  lemma {:induction false} StarConcat(p: string, q: string)
    ensures StarAsPercent(p + q) == StarAsPercent(p) + StarAsPercent(q)
  {
    var l, r := StarAsPercent(p + q), StarAsPercent(p) + StarAsPercent(q);
    assert forall i :: 0 <= i < |l| ==> l[i] == r[i];
  }

  /** `.ilike(column, pattern)`: PostgREST rewrites the pattern, then the
      database runs `ILIKE`. */
  predicate IlikeFilter(s: string, pattern: string, lower: char -> char)
  {
    ILike(s, StarAsPercent(pattern), lower)
  }

  /** A lone `*` is a wildcard for every text. */
  lemma StarMatchesAll(s: string, lower: char -> char)
    requires lower('%') == '%'
    ensures IlikeFilter(s, "*", lower)
  {
    assert Lower(StarAsPercent("*"), lower) == "%";
    LikeAnything(Lower(s, lower));
  }

  lemma {:induction false} LikeAnything(s: string)
    ensures Like(s, "%")
    decreases |s|
  {
    if s != [] {
      LikeAnything(s[1..]);
    }
  }

  /** A plain pattern followed by `%` matches exactly the texts it starts. */
  lemma {:induction false} LikePrefix(s: string, q: string)
    requires IsPlain(q)
    ensures Like(s, q + "%") <==> |q| <= |s| && s[..|q|] == q
    decreases |q|
  {
    if q == [] {
      assert q + "%" == "%";
      LikeAnything(s);
    } else {
      assert (q + "%")[1..] == q[1..] + "%";
      assert IsPlain(q[1..]) by {
        assert forall c :: c in q[1..] ==> c in q;
      }
      if s != [] {
        LikePrefix(s[1..], q[1..]);
        assert (|q| <= |s| && s[..|q|] == q)
               <==> (|q| - 1 <= |s[1..]| && s[0] == q[0] && s[1..][..|q| - 1] == q[1..]) by {
          if |q| <= |s| {
            assert s[..|q|] == [s[0]] + s[1..][..|q| - 1];
          }
        }
      }
    }
  }

  /** A leading `%` matches when the rest matches some suffix. */
  lemma {:induction false} LikeLeading(s: string, p: string)
    ensures Like(s, "%" + p) <==> exists i :: 0 <= i <= |s| && Like(s[i..], p)
    decreases |s|
  {
    assert ("%" + p)[1..] == p;
    assert s[0..] == s;
    if s != [] {
      LikeLeading(s[1..], p);
      assert forall i :: 1 <= i <= |s| ==> s[1..][i - 1..] == s[i..];
      if exists i :: 0 <= i <= |s| && Like(s[i..], p) {
        var i :| 0 <= i <= |s| && Like(s[i..], p);
        if i > 0 {
          assert Like(s[1..][i - 1..], p);
        }
      }
    }
  }

  /** `name ILIKE '%' || q || '%'` with a plain `q` is a case-insensitive
      substring test. */
  lemma ILikeContains(s: string, q: string, lower: char -> char)
    requires lower('%') == '%' && IsPlain(Lower(q, lower))
    ensures ILike(s, "%" + q + "%", lower) <==> Includes(Lower(s, lower), Lower(q, lower))
  {
    var ls, lq := Lower(s, lower), Lower(q, lower);
    var lp := Lower("%" + q + "%", lower);
    assert lp == "%" + (lq + "%");
    LikeLeading(ls, lq + "%");
    forall i | 0 <= i <= |ls| ensures Like(ls[i..], lq + "%") <==> OccursAt(ls, lq, i) {
      LikePrefix(ls[i..], lq);
      if |lq| <= |ls[i..]| {
        assert ls[i..][..|lq|] == ls[i..i + |lq|];
      }
    }
  }
}
