/** `lib/url-utils.ts`: building the query string that the filter panels push
    into the address bar. */
module UrlUtils {
  import opened Wrappers
  import opened Seqs
  import opened Strings
  import opened FormUrlEncoded

  /** A `Record<string, string | undefined>` as `Object.entries` lists it. */
  type Params = seq<(string, Option<string>)>

  /** `x !== 'all' ? x : undefined`: how the panels hand a select's value
      to the record, so that the `all` option writes nothing. */
  function UnlessAll(x: string): (r: Option<string>)
    ensures r.None? <==> x == "all"
    ensures r.Some? ==> r.value == x
  {
    if x != "all" then Some(x) else None
  }

  /** `x || undefined`: an empty text field writes nothing. */
  function UnlessEmpty(x: string): (r: Option<string>)
    ensures r.None? <==> x == ""
    ensures r.Some? ==> r.value == x
  {
    if x != "" then Some(x) else None
  }

  /** `search.trim()`, handed over even when it is empty; the guard of
      `createSearchParamsString` then drops the empty text. */
  function Trimmed(search: string): (r: Option<string>)
    ensures r.Some? && r.value == Trim(search)
  {
    Some(Trim(search))
  }

  /** The keys of a record are distinct. */
  ghost predicate DistinctKeys(ps: Params)
  {
    forall i, j :: 0 <= i < j < |ps| ==> ps[i].0 != ps[j].0
  }

  ghost predicate DistinctNames(list: Pairs)
  {
    forall i, j :: 0 <= i < j < |list| ==> list[i].0 != list[j].0
  }

  /** Whether `createSearchParamsString` writes a value: it has to be
      present, other than `"all"`, and not only white space (the empty string
      counts as only white space). */
  predicate IsWritten(value: Option<string>)
  {
    value.Some? && value.value != "" && value.value != "all" && !AllWhitespace(value.value)
  }

  /** `IsWritten` is the guard `value && value !== 'all' && value.trim() !== ''`. */
  lemma WrittenGuard(value: Option<string>)
    ensures IsWritten(value) <==> value.Some? && value.value != "" && value.value != "all" && Trim(value.value) != ""
  {
  }

  function IsWrittenEntry(e: (string, Option<string>)): bool
  {
    IsWritten(e.1)
  }

  /** A name-value pair seen as a record entry. */
  function Tagged(list: Pairs): (r: Params)
    ensures |r| == |list|
    ensures forall i :: 0 <= i < |r| ==> r[i] == (list[i].0, Some(list[i].1))
  {
    if list == [] then [] else [(list[0].0, Some(list[0].1))] + Tagged(list[1..])
  }

  lemma TaggedConcat(a: Pairs, b: Pairs)
    ensures Tagged(a + b) == Tagged(a) + Tagged(b)
  {
    assert |Tagged(a + b)| == |Tagged(a) + Tagged(b)|;
    forall i | 0 <= i < |a + b| ensures Tagged(a + b)[i] == (Tagged(a) + Tagged(b))[i] {
      if i < |a| {
        assert (a + b)[i] == a[i];
      } else {
        assert (a + b)[i] == b[i - |a|];
      }
    }
  }

  /** The pairs the search parameters end up with, entry by entry. */
  function WrittenPairs(ps: Params): Pairs
  {
    if ps == [] then []
    else
      var last := ps[|ps| - 1];
      WrittenPairs(ps[..|ps| - 1]) + (if IsWritten(last.1) then [(last.0, last.1.value)] else [])
  }

  /** They are the written entries, in the record's order, with their
      values as given (not trimmed). */
  lemma {:induction false} WrittenPairsFilter(ps: Params)
    ensures Tagged(WrittenPairs(ps)) == Filter(ps, IsWrittenEntry)
  {
    if ps != [] {
      var init, last := ps[..|ps| - 1], ps[|ps| - 1];
      var tail: Pairs := if IsWritten(last.1) then [(last.0, last.1.value)] else [];
      assert ps == init + [last];
      calc {
        Tagged(WrittenPairs(ps));
        Tagged(WrittenPairs(init) + tail);
        { TaggedConcat(WrittenPairs(init), tail); }
        Tagged(WrittenPairs(init)) + Tagged(tail);
        { WrittenPairsFilter(init); WrittenLast(last); }
        Filter(init, IsWrittenEntry) + Filter([last], IsWrittenEntry);
        { FilterConcat(init, [last], IsWrittenEntry); }
        Filter(ps, IsWrittenEntry);
      }
    }
  }

  lemma WrittenLast(last: (string, Option<string>))
    ensures Tagged(if IsWritten(last.1) then [(last.0, last.1.value)] else [])
            == Filter([last], IsWrittenEntry)
  {
    assert [last][1..] == [];
  }

  /** The query string `createSearchParamsString` returns. */
  function QueryString(ps: Params): string
  {
    Serialize(WrittenPairs(ps))
  }

  /** `createSearchParamsString`: an empty `URLSearchParams`, `set` for every
      written entry, then `toString()`. */
  method CreateSearchParamsString(params: Params) returns (s: string)
    requires DistinctKeys(params)
    ensures s == QueryString(params)
  {
    var searchParams := new URLSearchParams();
    var i := 0;
    while i < |params|
      invariant 0 <= i <= |params|
      invariant searchParams.list == WrittenPairs(params[..i])
    {
      var (key, value) := params[i];
      WrittenPairsStep(params, i);
      if IsWritten(value) {
        assert forall j :: 0 <= j < |params[..i]| ==> params[..i][j].0 != key;
        WrittenNamesFrom(params[..i], key);
        searchParams.Set(key, value.value);
      }
      i := i + 1;
    }
    assert params[..i] == params;
    s := searchParams.ToString();
  }

  lemma WrittenPairsStep(ps: Params, i: int)
    requires 0 <= i < |ps|
    ensures WrittenPairs(ps[..i + 1])
            == WrittenPairs(ps[..i]) + (if IsWritten(ps[i].1) then [(ps[i].0, ps[i].1.value)] else [])
  {
    assert ps[..i + 1][..i] == ps[..i];
  }

  /** A key missing from the entries so far is missing from their pairs;
      so, with distinct keys, every `set` appends. */
  lemma WrittenNamesFrom(ps: Params, key: string)
    requires forall j :: 0 <= j < |ps| ==> ps[j].0 != key
    ensures !HasName(WrittenPairs(ps), key)
  {
    var r := WrittenPairs(ps);
    WrittenPairsFilter(ps);
    forall k | 0 <= k < |r| ensures r[k].0 != key {
      assert Tagged(r)[k] in ps;
    }
  }

  /** `updateUrlWithParams`: the path, followed by `?` and the query string
      when there is one. */
  function UpdateUrlWithParams(pathname: string, params: Params): (url: string)
    ensures QueryString(params) == "" ==> url == pathname
    ensures QueryString(params) != "" ==> url == pathname + "?" + QueryString(params)
  {
    var searchString := QueryString(params);
    if searchString != "" then pathname + "?" + searchString else pathname
  }

  /** A URL split at its first `?` into path and query. */
  function SplitUrl(url: string): (string, string)
  {
    var i := IndexOf(url, '?');
    if i == -1 then (url, "") else (url[..i], url[i + 1..])
  }

  // ------------------------------------------------------------ properties

  /** A pair is in the query exactly when its entry is in the record and
      written. */
  lemma WrittenPairsMembers(ps: Params, k: string, v: string)
    ensures (k, v) in WrittenPairs(ps) <==> (k, Some(v)) in ps && IsWritten(Some(v))
  {
    var r := WrittenPairs(ps);
    WrittenPairsFilter(ps);
    if (k, v) in r {
      var i :| 0 <= i < |r| && r[i] == (k, v);
      assert Tagged(r)[i] == (k, Some(v));
    }
    if (k, Some(v)) in ps && IsWritten(Some(v)) {
      var f := Filter(ps, IsWrittenEntry);
      assert (k, Some(v)) in f;
      var i :| 0 <= i < |f| && f[i] == (k, Some(v));
      assert r[i] == (k, v);
    }
  }

  /** No name appears twice in the query. */
  lemma WrittenPairsDistinct(ps: Params)
    requires DistinctKeys(ps)
    ensures DistinctNames(WrittenPairs(ps))
  {
    var r := WrittenPairs(ps);
    var f := Filter(ps, IsWrittenEntry);
    WrittenPairsFilter(ps);
    FilterIsSubsequence(ps, IsWrittenEntry);
    SubsequenceKeys(f, ps);
    forall i, j | 0 <= i < j < |r| ensures r[i].0 != r[j].0 {
      assert Tagged(r)[i].0 == r[i].0 && Tagged(r)[j].0 == r[j].0;
    }
  }

  lemma {:induction false} SubsequenceKeys(xs: Params, ys: Params)
    requires IsSubsequence(xs, ys) && DistinctKeys(ys)
    ensures DistinctKeys(xs)
    decreases |ys|
  {
    if xs != [] && ys != [] {
      assert DistinctKeys(ys[1..]) by {
        forall i, j | 0 <= i < j < |ys[1..]| ensures ys[1..][i].0 != ys[1..][j].0 {
          assert ys[1..][i] == ys[i + 1] && ys[1..][j] == ys[j + 1];
        }
      }
      if xs[0] == ys[0] && IsSubsequence(xs[1..], ys[1..]) {
        SubsequenceKeys(xs[1..], ys[1..]);
        SubsequenceMembers(xs[1..], ys[1..]);
        forall j | 0 < j < |xs| ensures xs[0].0 != xs[j].0 {
          assert xs[1..][j - 1] == xs[j];
          var k :| 0 <= k < |ys[1..]| && ys[1..][k] == xs[j];
          assert ys[k + 1] == xs[j];
        }
      } else {
        SubsequenceKeys(xs, ys[1..]);
      }
    }
  }

  lemma {:induction false} SubsequenceMembers(xs: Params, ys: Params)
    requires IsSubsequence(xs, ys)
    ensures forall i :: 0 <= i < |xs| ==> xs[i] in ys
    decreases |ys|
  {
    if xs != [] && ys != [] {
      if xs[0] == ys[0] && IsSubsequence(xs[1..], ys[1..]) {
        SubsequenceMembers(xs[1..], ys[1..]);
        forall i | 0 < i < |xs| ensures xs[i] in ys {
          assert xs[1..][i - 1] == xs[i];
        }
      } else {
        SubsequenceMembers(xs, ys[1..]);
      }
    }
  }

  /** The query string is empty exactly when no entry is written. */
  lemma QueryStringEmpty(ps: Params)
    ensures QueryString(ps) == "" <==> forall i :: 0 <= i < |ps| ==> !IsWritten(ps[i].1)
  {
    SerializeEmpty(WrittenPairs(ps));
    WrittenPairsFilter(ps);
    var f := Filter(ps, IsWrittenEntry);
    if WrittenPairs(ps) != [] {
      assert f[0] in ps && IsWrittenEntry(f[0]);
    } else {
      assert f == [];
      assert forall i :: 0 <= i < |ps| ==> !IsWritten(ps[i].1);
    }
  }

  /** With nothing written the URL is the bare path. */
  lemma BareUrl(pathname: string, ps: Params)
    requires forall i :: 0 <= i < |ps| ==> !IsWritten(ps[i].1)
    ensures UpdateUrlWithParams(pathname, ps) == pathname
  {
    QueryStringEmpty(ps);
  }

  /** What the page reads back from the URL: the path as given, and a query
      that parses to exactly the written pairs. */
  lemma UpdateUrlRoundTrip(pathname: string, ps: Params)
    requires '?' !in pathname
    ensures SplitUrl(UpdateUrlWithParams(pathname, ps)).0 == pathname
    ensures ParseQuery(SplitUrl(UpdateUrlWithParams(pathname, ps)).1) == WrittenPairs(ps)
  {
    var q := QueryString(ps);
    var url := UpdateUrlWithParams(pathname, ps);
    SerializeRoundTrip(WrittenPairs(ps));
    if q == "" {
      assert IndexOf(url, '?') == -1;
      assert ParseQuery("") == [];
    } else {
      SplitAtQuestionMark(pathname, q);
    }
  }

  lemma {:induction false} IndexOfAfter(a: string, c: char, b: string)
    requires c !in a
    ensures IndexOf(a + [c] + b, c) == |a|
  {
    if a != [] {
      assert (a + [c] + b)[1..] == a[1..] + [c] + b;
      IndexOfAfter(a[1..], c, b);
    }
  }

  lemma SplitAtQuestionMark(a: string, b: string)
    requires '?' !in a
    ensures SplitUrl(a + "?" + b) == (a, b)
  {
    var s := a + "?" + b;
    IndexOfAfter(a, '?', b);
    assert s[..|a|] == a;
    assert s[|a| + 1..] == b;
  }

  /** The `"all"` that a select box shows for "no filter" never reaches the
      URL, nor does a blank value; a value with surrounding spaces is kept
      with its spaces. */
  lemma WrittenExamples()
    ensures !IsWritten(Some("all")) && !IsWritten(Some("")) && !IsWritten(Some("  ")) && !IsWritten(None)
    ensures IsWritten(Some(" a "))
    ensures WrittenPairs([("search", Some(" a ")), ("status", Some("all"))]) == [("search", " a ")]
  {
    assert AllWhitespace("  ");
    assert !IsWhitespace(" a "[1]);
  }
}
