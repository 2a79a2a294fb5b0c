/** The master lists of the settings pages (skills, activity statuses): a
    list held in page state beside a store table keyed by id. Every write
    that the store accepts is mirrored in the list by one of three list
    operations; the store's rows and the list stay in step. */
module MasterList {
  import opened Seqs

  /** `xs.map(x => x.id === key ? row : x)` */
  function ReplaceById<T>(xs: seq<T>, id: T -> string, key: string, row: T): (r: seq<T>)
    ensures |r| == |xs|
  {
    seq(|xs|, i requires 0 <= i < |xs| => if id(xs[i]) == key then row else xs[i])
  }

  /** `xs.filter(x => x.id !== key)` */
  function RemoveById<T>(xs: seq<T>, id: T -> string, key: string): (r: seq<T>)
  {
    Filter(xs, x => id(x) != key)
  }

  /** The ids the list shows. */
  ghost function Ids<T>(xs: seq<T>, id: T -> string): set<string>
  {
    set i | 0 <= i < |xs| :: id(xs[i])
  }

  /** The list shows each stored row exactly once, as stored, and nothing
      else. */
  ghost predicate InStep<T>(xs: seq<T>, rows: map<string, T>, id: T -> string)
  {
    && DistinctBy(xs, id)
    && (forall i :: 0 <= i < |xs| ==> id(xs[i]) in rows && rows[id(xs[i])] == xs[i])
    && (forall k :: k in rows ==> exists i :: 0 <= i < |xs| && id(xs[i]) == k)
  }

  /** Replacing by id touches exactly the entries with that id: every
      position keeps its id when the new row has it, and all other entries
      keep their place and value. */
  lemma ReplaceKeepsOthers<T>(xs: seq<T>, id: T -> string, key: string, row: T)
    requires id(row) == key
    ensures var r := ReplaceById(xs, id, key, row);
      && (forall i :: 0 <= i < |xs| ==> id(r[i]) == id(xs[i]))
      && (forall i :: 0 <= i < |xs| ==> (r[i] == xs[i] || r[i] == row))
      && (forall i :: 0 <= i < |xs| && id(xs[i]) != key ==> r[i] == xs[i])
      && (forall i :: 0 <= i < |xs| && id(xs[i]) == key ==> r[i] == row)
  {
  }

  /** Removing by id leaves no entry with that id and keeps every other
      entry, in order. */
  lemma RemoveKeepsOthers<T>(xs: seq<T>, id: T -> string, key: string)
    ensures var r := RemoveById(xs, id, key);
      && (forall i :: 0 <= i < |r| ==> id(r[i]) != key && r[i] in xs)
      && (forall i :: 0 <= i < |xs| && id(xs[i]) != key ==> xs[i] in r)
      && IsSubsequence(r, xs)
  {
    FilterIsSubsequence(xs, x => id(x) != key);
  }

  /** Removing what was just appended gives the list back. */
  lemma {:induction false} RemoveAppended<T>(xs: seq<T>, id: T -> string, row: T)
    requires id(row) !in Ids(xs, id)
    ensures RemoveById(xs + [row], id, id(row)) == xs
  {
    var p := x => id(x) != id(row);
    FilterConcat(xs, [row], p);
    assert Filter([row], p) == [];
    FilterAll(xs, p);
  }

  /** Writing back a row as the list already shows it changes nothing. */
  lemma ReplaceSame<T>(xs: seq<T>, id: T -> string, row: T)
    requires forall i :: 0 <= i < |xs| && id(xs[i]) == id(row) ==> xs[i] == row
    ensures ReplaceById(xs, id, id(row), row) == xs
  {
  }

  /** An update the store accepted, mirrored by replacing the row. */
  lemma ReplaceInStep<T>(xs: seq<T>, rows: map<string, T>, id: T -> string, row: T)
    requires InStep(xs, rows, id) && id(row) in rows
    ensures InStep(ReplaceById(xs, id, id(row), row), rows[id(row) := row], id)
  {
    var key := id(row);
    var r := ReplaceById(xs, id, key, row);
    var rows' := rows[key := row];
    ReplaceKeepsOthers(xs, id, key, row);
    forall i | 0 <= i < |r| ensures id(r[i]) in rows' && rows'[id(r[i])] == r[i] {
      if id(xs[i]) != key {
        assert r[i] == xs[i];
      }
    }
    forall k | k in rows' ensures exists i :: 0 <= i < |r| && id(r[i]) == k {
      var i :| 0 <= i < |xs| && id(xs[i]) == k;
      assert id(r[i]) == k;
    }
  }

  /** An insert the store accepted under a new id, mirrored by appending. */
  lemma AppendInStep<T>(xs: seq<T>, rows: map<string, T>, id: T -> string, row: T)
    requires InStep(xs, rows, id) && id(row) !in rows
    ensures InStep(xs + [row], rows[id(row) := row], id)
  {
    var r := xs + [row];
    var rows' := rows[id(row) := row];
    forall i | 0 <= i < |r| ensures id(r[i]) in rows' && rows'[id(r[i])] == r[i] {
      if i < |xs| {
        assert r[i] == xs[i];
      }
    }
    forall k | k in rows' ensures exists i :: 0 <= i < |r| && id(r[i]) == k {
      if k != id(row) {
        var i :| 0 <= i < |xs| && id(xs[i]) == k;
        assert r[i] == xs[i];
      } else {
        assert id(r[|xs|]) == k;
      }
    }
  }

  /** A delete the store accepted, mirrored by removing the id. */
  lemma RemoveInStep<T>(xs: seq<T>, rows: map<string, T>, id: T -> string, key: string)
    requires InStep(xs, rows, id)
    ensures InStep(RemoveById(xs, id, key), rows - {key}, id)
  {
    var p := x => id(x) != key;
    var r := RemoveById(xs, id, key);
    var rows' := rows - {key};
    FilterDistinctBy(xs, p, id);
    forall i | 0 <= i < |r| ensures id(r[i]) in rows' && rows'[id(r[i])] == r[i] {
      assert r[i] in xs && p(r[i]);
    }
    forall k | k in rows' ensures exists i :: 0 <= i < |r| && id(r[i]) == k {
      var i :| 0 <= i < |xs| && id(xs[i]) == k;
      assert p(xs[i]);
      var j :| 0 <= j < |r| && r[j] == xs[i];
    }
  }
}
