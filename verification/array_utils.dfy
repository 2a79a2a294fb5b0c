/** Null-safe array helpers: `isNotNull`, `filterNullableStrings` and
    `getUniqueValues` (with and without a key selector). */
module ArrayUtils {
  import opened Seqs

  /** A TypeScript value of type `T | null | undefined`. */
  datatype Nullable<T> = Null | Undefined | Value(value: T)

  /** `isNotNull(v)`: `v !== null && v !== undefined`. */
  function IsNotNull<T>(v: Nullable<T>): (r: bool)
    ensures r <==> !v.Null? && !v.Undefined?
  {
    v.Value?
  }

  /** Wraps every element as a present value. */
  function Lift<T>(xs: seq<T>): (r: seq<Nullable<T>>)
    ensures |r| == |xs| && forall i :: 0 <= i < |xs| ==> r[i] == Value(xs[i])
  {
    if xs == [] then [] else [Value(xs[0])] + Lift(xs[1..])
  }

  /** `array.filter(isNotNull)`: the present values, in order; exactly the
      null and undefined entries are dropped. */
  function FilterNotNull<T>(a: seq<Nullable<T>>): (r: seq<T>)
    ensures Lift(r) == Filter(a, IsNotNull)
  {
    if a == [] then []
    else if a[0].Value? then
      assert Lift([a[0].value] + FilterNotNull(a[1..])) == [a[0]] + Lift(FilterNotNull(a[1..]));
      [a[0].value] + FilterNotNull(a[1..])
    else FilterNotNull(a[1..])
  }

  /** `filterNullableStrings(array)`. */
  function FilterNullableStrings(a: seq<Nullable<string>>): (r: seq<string>)
    ensures Lift(r) == Filter(a, IsNotNull)
    ensures forall s :: s in r <==> Value(s) in a
  {
    var r := FilterNotNull(a);
    assert forall s :: s in r <==> Value(s) in Lift(r);
    r
  }

  lemma {:induction false} FilterNotNullLift<T>(xs: seq<T>)
    ensures FilterNotNull(Lift(xs)) == xs
  {
    if xs != [] {
      FilterNotNullLift(xs[1..]);
      assert Lift(xs)[1..] == Lift(xs[1..]);
    }
  }

  // ------------------------------------------------------- unique values

  function KeySet<T, K>(xs: seq<T>, key: T -> K): set<K>
  {
    set i | 0 <= i < |xs| :: key(xs[i])
  }

  /** Scans `xs` left to right keeping an item only when its key is not in
      `seen` and not the key of an item kept earlier: the reference
      definition of the `seen`-set filter. */
  function UniqueBy<T, K(==)>(xs: seq<T>, key: T -> K, seen: set<K>): (r: seq<T>)
    ensures |r| <= |xs|
    ensures forall i, j :: 0 <= i < j < |r| ==> key(r[i]) != key(r[j])
    ensures forall i :: 0 <= i < |r| ==> key(r[i]) !in seen
  {
    if xs == [] then []
    else if key(xs[0]) in seen then UniqueBy(xs[1..], key, seen)
    else [xs[0]] + UniqueBy(xs[1..], key, seen + {key(xs[0])})
  }

  function Identity<T>(x: T): T
  {
    x
  }

  /** `getUniqueValues(array)` without a selector, `[...new Set(validItems)]`:
      the distinct present values in first-occurrence order. */
  function GetUniqueValues<T(==,!new)>(a: seq<Nullable<T>>): (r: seq<T>)
    ensures Distinct(r)
    ensures forall x :: x in r <==> Value(x) in a
    ensures IsSubsequence(Lift(r), a)
  {
    var valid := FilterNotNull(a);
    var r := UniqueBy(valid, Identity, {});
    FilterNotNullMembers(a);
    UniqueMembers(valid);
    UniqueBySubsequence(valid, Identity, {});
    LiftSubsequence(r, valid);
    FilterIsSubsequence(a, IsNotNull);
    SubsequenceTrans(Lift(r), Lift(valid), a);
    r
  }

  lemma FilterNotNullMembers<T(!new)>(a: seq<Nullable<T>>)
    ensures forall x :: x in FilterNotNull(a) <==> Value(x) in a
  {
    var valid := FilterNotNull(a);
    assert forall x :: x in valid <==> Value(x) in Lift(valid);
  }

  lemma UniqueMembers<T(!new)>(xs: seq<T>)
    ensures forall x :: x in UniqueBy(xs, Identity, {}) <==> x in xs
  {
    var r := UniqueBy(xs, Identity, {});
    UniqueByCovers(xs, Identity, {});
    forall x ensures x in r <==> x in xs {
      if x in xs {
        var i :| 0 <= i < |xs| && xs[i] == x;
        assert Identity(xs[i]) in KeySet(xs, Identity);
        var j :| 0 <= j < |r| && Identity(r[j]) == x;
      }
      if x in r {
        var j :| 0 <= j < |r| && r[j] == x;
        assert Identity(r[j]) in KeySet(r, Identity);
        var i :| 0 <= i < |xs| && Identity(xs[i]) == x;
      }
    }
  }

  /** `getUniqueValues(array, selector)`: the `seen`-set filter over the
      present values. */
  method GetUniqueValuesBy<T, K(==)>(a: seq<Nullable<T>>, selector: T -> K) returns (r: seq<T>)
    ensures r == UniqueBy(FilterNotNull(a), selector, {})
  {
    var validItems := FilterNotNull(a);
    var seen: set<K> := {};
    r := [];
    var i := 0;
    while i < |validItems|
      invariant 0 <= i <= |validItems|
      invariant r + UniqueBy(validItems[i..], selector, seen) == UniqueBy(validItems, selector, {})
    {
      var item := validItems[i];
      var key := selector(item);
      UniqueByStep(validItems, i, selector, seen, r);
      if key !in seen {
        seen := seen + {key};
        r := r + [item];
      }
      i := i + 1;
    }
  }

  /** One step of the `seen`-set filter: a new key is kept, a known one
      skipped. */
  lemma UniqueByStep<T, K>(xs: seq<T>, i: int, key: T -> K, seen: set<K>, done: seq<T>)
    requires 0 <= i < |xs|
    ensures key(xs[i]) in seen ==>
      done + UniqueBy(xs[i..], key, seen) == done + UniqueBy(xs[i + 1..], key, seen)
    ensures key(xs[i]) !in seen ==>
      done + UniqueBy(xs[i..], key, seen) == (done + [xs[i]]) + UniqueBy(xs[i + 1..], key, seen + {key(xs[i])})
  {
    assert xs[i..][1..] == xs[i + 1..];
  }

  lemma KeySetCons<T, K>(x: T, xs: seq<T>, key: T -> K)
    ensures KeySet([x] + xs, key) == {key(x)} + KeySet(xs, key)
  {
    var ys := [x] + xs;
    forall y | y in KeySet(ys, key) ensures y in {key(x)} + KeySet(xs, key) {
      var i :| 0 <= i < |ys| && key(ys[i]) == y;
      if i > 0 { assert key(xs[i - 1]) == y; }
    }
    forall y | y in KeySet(xs, key) ensures y in KeySet(ys, key) {
      var i :| 0 <= i < |xs| && key(xs[i]) == y;
      assert key(ys[i + 1]) == y;
    }
    assert key(ys[0]) == key(x);
  }

  /** Every key of the input is either in `seen` or carried by a kept item. */
  lemma {:induction false} UniqueByCovers<T, K>(xs: seq<T>, key: T -> K, seen: set<K>)
    ensures KeySet(UniqueBy(xs, key, seen), key) + seen == KeySet(xs, key) + seen
  {
    if xs != [] {
      var k := key(xs[0]);
      assert xs == [xs[0]] + xs[1..];
      KeySetCons(xs[0], xs[1..], key);
      if k in seen {
        UniqueByCovers(xs[1..], key, seen);
      } else {
        UniqueByCovers(xs[1..], key, seen + {k});
        KeySetCons(xs[0], UniqueBy(xs[1..], key, seen + {k}), key);
      }
    }
  }

  lemma {:induction false} UniqueBySubsequence<T, K>(xs: seq<T>, key: T -> K, seen: set<K>)
    ensures IsSubsequence(UniqueBy(xs, key, seen), xs)
  {
    if xs != [] {
      var k := key(xs[0]);
      if k in seen {
        UniqueBySubsequence(xs[1..], key, seen);
        var r := UniqueBy(xs[1..], key, seen);
        if r != [] {
          assert IsSubsequence(r, xs[1..]);
        }
      } else {
        UniqueBySubsequence(xs[1..], key, seen + {k});
      }
    }
  }

  /** The item kept for a key is the first input item with that key. */
  lemma {:induction false} UniqueByKeepsFirst<T, K>(xs: seq<T>, key: T -> K, seen: set<K>, j: int)
    requires 0 <= j < |UniqueBy(xs, key, seen)|
    ensures exists i :: 0 <= i < |xs| && xs[i] == UniqueBy(xs, key, seen)[j]
              && key(xs[i]) !in seen
              && forall i' :: 0 <= i' < i ==> key(xs[i']) != key(xs[i])
  {
    var r := UniqueBy(xs, key, seen);
    var k := key(xs[0]);
    if k in seen {
      UniqueByKeepsFirst(xs[1..], key, seen, j);
      var i :| 0 <= i < |xs[1..]| && xs[1..][i] == r[j] && key(xs[1..][i]) !in seen
               && forall i' :: 0 <= i' < i ==> key(xs[1..][i']) != key(xs[1..][i]);
      assert xs[i + 1] == r[j];
      forall i' | 0 <= i' < i + 1 ensures key(xs[i']) != key(xs[i + 1]) {
        if i' > 0 { assert xs[i'] == xs[1..][i' - 1]; }
      }
    } else if j == 0 {
      assert xs[0] == r[0];
    } else {
      UniqueByKeepsFirst(xs[1..], key, seen + {k}, j - 1);
      var i :| 0 <= i < |xs[1..]| && xs[1..][i] == r[j] && key(xs[1..][i]) !in seen + {k}
               && forall i' :: 0 <= i' < i ==> key(xs[1..][i']) != key(xs[1..][i]);
      assert xs[i + 1] == r[j];
      forall i' | 0 <= i' < i + 1 ensures key(xs[i']) != key(xs[i + 1]) {
        if i' > 0 { assert xs[i'] == xs[1..][i' - 1]; }
      }
    }
  }

  /** On input whose keys are already distinct and unseen, the filter keeps
      everything. */
  lemma {:induction false} UniqueByOfDistinct<T, K>(xs: seq<T>, key: T -> K, seen: set<K>)
    requires forall i, j :: 0 <= i < j < |xs| ==> key(xs[i]) != key(xs[j])
    requires forall i :: 0 <= i < |xs| ==> key(xs[i]) !in seen
    ensures UniqueBy(xs, key, seen) == xs
  {
    if xs != [] {
      var k := key(xs[0]);
      forall i | 0 <= i < |xs[1..]| ensures key(xs[1..][i]) !in seen + {k} {
        assert xs[1..][i] == xs[i + 1];
      }
      UniqueByOfDistinct(xs[1..], key, seen + {k});
    }
  }

  /** Running the filter again on its own output changes nothing. */
  lemma UniqueByIdempotent<T, K>(xs: seq<T>, key: T -> K)
    ensures UniqueBy(UniqueBy(xs, key, {}), key, {}) == UniqueBy(xs, key, {})
  {
    UniqueByOfDistinct(UniqueBy(xs, key, {}), key, {});
  }

  /** `getUniqueValues` is idempotent. */
  lemma GetUniqueValuesIdempotent<T(!new)>(a: seq<Nullable<T>>)
    ensures GetUniqueValues(Lift(GetUniqueValues(a))) == GetUniqueValues(a)
  {
    var r := GetUniqueValues(a);
    FilterNotNullLift(r);
    UniqueByOfDistinct(r, Identity, {});
  }

  lemma {:induction false} LiftSubsequence<T>(xs: seq<T>, ys: seq<T>)
    requires IsSubsequence(xs, ys)
    ensures IsSubsequence(Lift(xs), Lift(ys))
    decreases |ys|
  {
    if xs != [] {
      assert Lift(xs)[1..] == Lift(xs[1..]);
      assert Lift(ys)[1..] == Lift(ys[1..]);
      if xs[0] == ys[0] && IsSubsequence(xs[1..], ys[1..]) {
        LiftSubsequence(xs[1..], ys[1..]);
      } else {
        LiftSubsequence(xs, ys[1..]);
      }
    }
  }
}
