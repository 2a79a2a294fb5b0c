/** Grouping a list into buckets by a string key, the way both the
    activity calendar (a `Map` filled by `forEach`) and the matching panel
    (a record filled by `reduce`) do it: a bucket is created the first time
    its key is seen, and each element is pushed onto its key's bucket. */
module Grouping {
  import opened Seqs

  /** The elements whose key is `k`. */
  function HasKey<T>(key: T -> string, k: string): T -> bool
  {
    x => key(x) == k
  }

  /** Total size of the buckets listed in `keys`. */
  ghost function SumSizes<T>(keys: seq<string>, buckets: map<string, seq<T>>): int
  {
    if keys == [] then 0
    else (if keys[0] in buckets then |buckets[keys[0]]| else 0) + SumSizes(keys[1..], buckets)
  }

  ghost predicate KeysPresent<T>(xs: seq<T>, key: T -> string, buckets: map<string, seq<T>>)
  {
    forall k :: k in buckets <==> exists j :: 0 <= j < |xs| && key(xs[j]) == k
  }

  ghost predicate BucketsFiltered<T>(xs: seq<T>, key: T -> string, buckets: map<string, seq<T>>)
  {
    forall k :: k in buckets ==> buckets[k] == Filter(xs, HasKey(key, k)) && buckets[k] != []
  }

  /** The keys of `xs` in the order they are first seen: each key is listed
      once, when the first element carrying it comes along. */
  function FirstKeys<T>(xs: seq<T>, key: T -> string): (r: seq<string>)
    ensures Distinct(r)
    ensures forall k :: k in r <==> exists j :: 0 <= j < |xs| && key(xs[j]) == k
    decreases |xs|
  {
    if xs == [] then []
    else
      var ks := FirstKeys(xs[..|xs| - 1], key);
      var k := key(xs[|xs| - 1]);
      assert forall j :: 0 <= j < |xs| - 1 ==> xs[..|xs| - 1][j] == xs[j];
      if k in ks then ks else ks + [k]
  }

  lemma FirstKeysSnoc<T>(xs: seq<T>, key: T -> string, a: T)
    ensures FirstKeys(xs + [a], key) == if key(a) in FirstKeys(xs, key) then FirstKeys(xs, key)
                                        else FirstKeys(xs, key) + [key(a)]
  {
    assert (xs + [a])[..|xs|] == xs;
  }

  /** First-seen order: the keys met in the first `n` elements are listed
      before every key met only later. */
  lemma {:induction false} FirstKeysPrefix<T>(xs: seq<T>, key: T -> string, n: nat)
    requires n <= |xs|
    ensures FirstKeys(xs[..n], key) <= FirstKeys(xs, key)
    decreases |xs|
  {
    if n < |xs| {
      var ys := xs[..|xs| - 1];
      assert ys[..n] == xs[..n];
      assert xs == ys + [xs[|xs| - 1]];
      FirstKeysPrefix(ys, key, n);
      FirstKeysSnoc(ys, key, xs[|xs| - 1]);
    } else {
      assert xs[..n] == xs;
    }
  }

  /** Keys listed in any order other than first-seen are not a grouping:
      `a` then `b` groups under the keys `a`, `b`, never `b`, `a`. */
  lemma ReversedKeysRejected()
    ensures !GroupedBy(["a", "b"], (s: string) => s, ["b", "a"], map["a" := ["a"], "b" := ["b"]])
  {
    var id := (s: string) => s;
    assert ["a", "b"][..1] == ["a"];
    assert ["a"][..0] == [];
    assert FirstKeys(["a", "b"], id)[0] == "a";
  }

  /** `keys` and `buckets` form the `Map` built from `xs`: its keys in
      insertion order, which is the order the keys are first seen, each
      bucket being the elements with that key in input order. */
  ghost predicate GroupedBy<T>(xs: seq<T>, key: T -> string, keys: seq<string>, buckets: map<string, seq<T>>)
  {
    && keys == FirstKeys(xs, key)
    && Distinct(keys)
    && (forall k :: k in buckets <==> k in keys)
    && KeysPresent(xs, key, buckets)
    && BucketsFiltered(xs, key, buckets)
  }

  /** The `forEach` that fills a `Map` from key to elements: a bucket is
      created the first time a key is seen, and each element is pushed onto
      the bucket of its key. */
  method GroupBy<T>(xs: seq<T>, key: T -> string) returns (keys: seq<string>, buckets: map<string, seq<T>>)
    ensures GroupedBy(xs, key, keys, buckets)
    ensures keys == FirstKeys(xs, key)
    ensures SumSizes(keys, buckets) == |xs|
  {
    keys, buckets := [], map[];
    var i := 0;
    assert xs[..0] == [];
    while i < |xs|
      invariant 0 <= i <= |xs|
      invariant GroupedBy(xs[..i], key, keys, buckets)
      invariant SumSizes(keys, buckets) == i
    {
      var x := xs[i];
      var k := key(x);
      GroupStep(xs, i, key, keys, buckets);
      if k !in buckets {
        keys := keys + [k];
        buckets := buckets[k := []];
      }
      buckets := buckets[k := buckets[k] + [x]];
      i := i + 1;
    }
    assert xs[..i] == xs;
  }

  /** One turn of the `forEach`. */
  lemma GroupStep<T>(xs: seq<T>, i: int, key: T -> string, keys: seq<string>, buckets: map<string, seq<T>>)
    requires 0 <= i < |xs| && GroupedBy(xs[..i], key, keys, buckets) && SumSizes(keys, buckets) == i
    ensures var k := key(xs[i]);
      var keys' := if k in buckets then keys else keys + [k];
      var buckets' := if k in buckets then buckets else buckets[k := []];
      && GroupedBy(xs[..i + 1], key, keys', buckets'[k := buckets'[k] + [xs[i]]])
      && SumSizes(keys', buckets'[k := buckets'[k] + [xs[i]]]) == i + 1
  {
    var k := key(xs[i]);
    PrefixStep(xs, i);
    if k in buckets {
      GroupExisting(xs[..i], key, keys, buckets, xs[i]);
    } else {
      NewBucket(buckets, k, xs[i]);
      GroupNew(xs[..i], key, keys, buckets, xs[i]);
    }
  }

  lemma NewBucket<T>(m: map<string, seq<T>>, k: string, x: T)
    ensures m[k := []][k := m[k := []][k] + [x]] == m[k := [x]]
  {
    assert m[k := []][k] + [x] == [x];
  }

  /** Every element is in the bucket of its own key. */
  lemma GroupedMembers<T>(xs: seq<T>, key: T -> string, keys: seq<string>, buckets: map<string, seq<T>>)
    requires GroupedBy(xs, key, keys, buckets)
    ensures forall i :: 0 <= i < |xs| ==> key(xs[i]) in buckets && xs[i] in buckets[key(xs[i])]
  {
    forall i | 0 <= i < |xs| ensures key(xs[i]) in buckets && xs[i] in buckets[key(xs[i])] {
      assert key(xs[i]) in buckets;
      assert HasKey(key, key(xs[i]))(xs[i]);
    }
  }

  lemma PrefixStep<T>(xs: seq<T>, i: int)
    requires 0 <= i < |xs|
    ensures xs[..i + 1] == xs[..i] + [xs[i]]
  {
  }

  /** The keys present after one more element. */
  lemma KeysAppend<T>(xs: seq<T>, key: T -> string, a: T, k: string)
    ensures (exists j :: 0 <= j < |xs + [a]| && key((xs + [a])[j]) == k)
            <==> (exists j :: 0 <= j < |xs| && key(xs[j]) == k) || key(a) == k
  {
    if exists j :: 0 <= j < |xs| && key(xs[j]) == k {
      var j :| 0 <= j < |xs| && key(xs[j]) == k;
      assert (xs + [a])[j] == xs[j];
    }
    assert (xs + [a])[|xs|] == a;
  }

  lemma KeysPresentStep<T>(xs: seq<T>, key: T -> string, buckets: map<string, seq<T>>, a: T, b: seq<T>)
    requires KeysPresent(xs, key, buckets)
    ensures KeysPresent(xs + [a], key, buckets[key(a) := b])
  {
    var m := buckets[key(a) := b];
    forall k ensures k in m <==> exists j :: 0 <= j < |xs + [a]| && key((xs + [a])[j]) == k {
      KeysAppend(xs, key, a, k);
    }
  }

  lemma FilterStep<T>(xs: seq<T>, key: T -> string, a: T, k: string)
    ensures Filter(xs + [a], HasKey(key, k)) == Filter(xs, HasKey(key, k)) + (if key(a) == k then [a] else [])
  {
    FilterConcat(xs, [a], HasKey(key, k));
  }

  lemma BucketsPush<T>(xs: seq<T>, key: T -> string, buckets: map<string, seq<T>>, a: T)
    requires BucketsFiltered(xs, key, buckets) && key(a) in buckets
    ensures BucketsFiltered(xs + [a], key, buckets[key(a) := buckets[key(a)] + [a]])
  {
    var m := buckets[key(a) := buckets[key(a)] + [a]];
    forall k | k in m ensures m[k] == Filter(xs + [a], HasKey(key, k)) && m[k] != [] {
      FilterStep(xs, key, a, k);
    }
  }

  lemma BucketsCreate<T>(xs: seq<T>, key: T -> string, buckets: map<string, seq<T>>, a: T)
    requires BucketsFiltered(xs, key, buckets) && KeysPresent(xs, key, buckets) && key(a) !in buckets
    ensures BucketsFiltered(xs + [a], key, buckets[key(a) := [a]])
  {
    var m := buckets[key(a) := [a]];
    forall k | k in m ensures m[k] == Filter(xs + [a], HasKey(key, k)) && m[k] != [] {
      FilterStep(xs, key, a, k);
      if k == key(a) {
        FilterNone(xs, HasKey(key, k));
      }
    }
  }

  /** Pushing onto the bucket of a key already seen. */
  lemma GroupExisting<T>(xs: seq<T>, key: T -> string, keys: seq<string>, buckets: map<string, seq<T>>, a: T)
    requires GroupedBy(xs, key, keys, buckets) && SumSizes(keys, buckets) == |xs| && key(a) in buckets
    ensures GroupedBy(xs + [a], key, keys, buckets[key(a) := buckets[key(a)] + [a]])
    ensures SumSizes(keys, buckets[key(a) := buckets[key(a)] + [a]]) == |xs| + 1
  {
    FirstKeysSnoc(xs, key, a);
    KeysPresentStep(xs, key, buckets, a, buckets[key(a)] + [a]);
    BucketsPush(xs, key, buckets, a);
    SumBump(keys, buckets, key(a), a);
  }

  /** Creating the bucket of a key seen for the first time. */
  lemma GroupNew<T>(xs: seq<T>, key: T -> string, keys: seq<string>, buckets: map<string, seq<T>>, a: T)
    requires GroupedBy(xs, key, keys, buckets) && SumSizes(keys, buckets) == |xs| && key(a) !in buckets
    ensures GroupedBy(xs + [a], key, keys + [key(a)], buckets[key(a) := [a]])
    ensures SumSizes(keys + [key(a)], buckets[key(a) := [a]]) == |xs| + 1
  {
    var k := key(a);
    var b := buckets[k := [a]];
    FirstKeysSnoc(xs, key, a);
    KeysPresentStep(xs, key, buckets, a, [a]);
    BucketsCreate(xs, key, buckets, a);
    DistinctAppend(keys, k);
    assert forall k' :: k' in b <==> k' in keys + [k];
    SumFrame(keys, buckets, b);
    SumAppendKey(keys, b, k);
  }

  lemma DistinctAppend(keys: seq<string>, k: string)
    requires Distinct(keys) && k !in keys
    ensures Distinct(keys + [k])
  {
  }

  lemma {:induction false} SumFrame<T>(keys: seq<string>, m1: map<string, seq<T>>, m2: map<string, seq<T>>)
    requires forall k :: k in keys ==> (k in m1 <==> k in m2) && (k in m1 ==> m1[k] == m2[k])
    ensures SumSizes(keys, m1) == SumSizes(keys, m2)
  {
    if keys != [] {
      SumFrame(keys[1..], m1, m2);
    }
  }

  lemma {:induction false} SumAppendKey<T>(keys: seq<string>, m: map<string, seq<T>>, k: string)
    requires k in m
    ensures SumSizes(keys + [k], m) == SumSizes(keys, m) + |m[k]|
  {
    if keys == [] {
      assert keys + [k] == [k];
    } else {
      assert (keys + [k])[1..] == keys[1..] + [k];
      SumAppendKey(keys[1..], m, k);
    }
  }

  lemma {:induction false} SumBump<T>(keys: seq<string>, m: map<string, seq<T>>, k: string, a: T)
    requires Distinct(keys) && k in keys && k in m
    ensures SumSizes(keys, m[k := m[k] + [a]]) == SumSizes(keys, m) + 1
  {
    var m' := m[k := m[k] + [a]];
    if keys[0] == k {
      assert k !in keys[1..];
      SumFrame(keys[1..], m, m');
    } else {
      assert Distinct(keys[1..]);
      SumBump(keys[1..], m, k, a);
    }
  }
}
