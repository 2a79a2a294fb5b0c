/** `app/supporters/page.tsx`: the supporter list. `getSupporters` asks the
    store for the supporters that have a schedule row and match the search,
    status, area and time-slot parameters, newest first; it then keeps those
    with the requested skill name and collapses rows with the same id the
    way a `Map` keyed by id does. `getFilterOptions` supplies the distinct
    areas and the active skill names. */
module SupportersPage {
  import opened Wrappers
  import opened Seqs
  import opened Strings
  import opened PageProps
  import opened Entities
  import opened Store
  import opened ArrayUtils
  import MatchingPage

  /** One `ilike` or `eq` call on the query. */
  datatype Condition =
    | NameLike(pattern: string)
    | StatusIs(status: string)
    | AreaIs(area: string)
    | SlotIs(slot: string)

  /** `supporter_schedules!inner`: only supporters with at least one
      schedule row are returned. */
  predicate Scheduled(s: Supporter)
  {
    |s.schedules| > 0
  }

  /** Whether a row satisfies one condition; the time-slot condition is on
      the embedded schedules, so some schedule row must have that slot. */
  predicate Holds(c: Condition, s: Supporter, lower: char -> char)
  {
    match c
    case NameLike(pattern) => IlikeFilter(s.name, pattern, lower)
    case StatusIs(v) => s.status == Some(v)
    case AreaIs(v) => s.area == Some(v)
    case SlotIs(id) => MatchingPage.HasSlot(s, id)
  }

  predicate HoldsAll(query: seq<Condition>, s: Supporter, lower: char -> char)
  {
    forall i | 0 <= i < |query| :: Holds(query[i], s, lower)
  }

  function CreatedAt(s: Supporter): int
  {
    s.createdAt
  }

  function IdOf(s: Supporter): string
  {
    s.id
  }

  /** The store's answer to a query ordered by `created_at` descending:
      `None` for an error. */
  function RunQuery(table: seq<Supporter>, query: seq<Condition>, fails: bool, lower: char -> char)
    : Option<seq<Supporter>>
  {
    if fails then None
    else Some(SortDesc(Filter(table, (s: Supporter) => Scheduled(s) && HoldsAll(query, s, lower)), CreatedAt))
  }

  // ------------------------------------------------ what is asked for

  /** `%${search}%` */
  function SearchPattern(search: string): string
  {
    "%" + search + "%"
  }

  /** What the store part of the query asks of a row. */
  predicate StoreKeeps(p: SearchParams, lower: char -> char, s: Supporter)
  {
    && Scheduled(s)
    && (Truthy(p.search) ==> IlikeFilter(s.name, SearchPattern(p.search.value), lower))
    && (Narrows(p.status) ==> s.status == Some(p.status.value))
    && (Narrows(p.area) ==> s.area == Some(p.area.value))
    && (Narrows(p.timeSlot) ==> MatchingPage.HasSlot(s, p.timeSlot.value))
  }

  /** `supporter.supporter_skills.some((ss) => ss.skills.name === name)` */
  predicate HasSkillNamed(s: Supporter, name: string)
  {
    exists j | 0 <= j < |s.skills| :: s.skills[j].name == name
  }

  /** The skill post-filter: none unless a skill other than `"all"` is set. */
  predicate SkillKeeps(p: SearchParams, s: Supporter)
  {
    Narrows(p.skill) ==> HasSkillNamed(s, p.skill.value)
  }

  function Kept(p: SearchParams, lower: char -> char): Supporter -> bool
  {
    s => StoreKeeps(p, lower, s) && SkillKeeps(p, s)
  }

  /** The rows the store returns for `p`, newest first. */
  function StoreRows(table: seq<Supporter>, p: SearchParams, lower: char -> char): seq<Supporter>
  {
    SortDesc(Filter(table, (s: Supporter) => StoreKeeps(p, lower, s)), CreatedAt)
  }

  /** The store's rows that pass the skill post-filter, before the `Map`. */
  function Listed(table: seq<Supporter>, p: SearchParams, lower: char -> char): seq<Supporter>
  {
    Filter(StoreRows(table, p, lower), (s: Supporter) => SkillKeeps(p, s))
  }

  /** The store rows pass the skill post-filter newest first, and as a bag
      they are exactly the table rows that pass every condition. */
  lemma ListedOrder(table: seq<Supporter>, p: SearchParams, lower: char -> char)
    ensures SortedDesc(Listed(table, p, lower), CreatedAt)
    ensures multiset(Listed(table, p, lower)) == multiset(Filter(table, Kept(p, lower)))
  {
    SortedAnswerFiltered(table, (s: Supporter) => StoreKeeps(p, lower, s), (s: Supporter) => SkillKeeps(p, s),
                         Kept(p, lower), CreatedAt);
  }

  /** For a search text without `*` and without wildcard characters (after
      lower-casing), the `ilike` condition is a case-insensitive substring
      test. */
  lemma SearchIsSubstring(s: Supporter, q: string, lower: char -> char)
    requires lower('%') == '%' && '*' !in q && IsPlain(Lower(q, lower))
    ensures IlikeFilter(s.name, SearchPattern(q), lower) <==> Includes(Lower(s.name, lower), Lower(q, lower))
  {
    StarFree(SearchPattern(q));
    ILikeContains(s.name, q, lower);
  }

  /** A `*` in the search text is a wildcard: the search `a*c` is the SQL
      pattern `%a%c%`. */
  lemma SearchStarReading(a: string, c: string)
    requires '*' !in a && '*' !in c
    ensures StarAsPercent(SearchPattern(a + "*" + c)) == "%" + a + "%" + c + "%"
  {
    var x, y := "%" + a, c + "%";
    assert SearchPattern(a + "*" + c) == x + ("*" + y);
    StarConcat(x, "*" + y);
    StarConcat("*", y);
    StarFree(x);
    StarFree(y);
    assert StarAsPercent("*") == "%";
    assert x + ("%" + y) == "%" + a + "%" + c + "%";
  }

  /** The search `*` lists every name. */
  lemma SearchStarIsWildcard(s: Supporter, lower: char -> char)
    requires lower('%') == '%'
    ensures IlikeFilter(s.name, SearchPattern("*"), lower)
  {
    var ls := Lower(s.name, lower);
    assert Lower(StarAsPercent(SearchPattern("*")), lower) == "%%%";
    LikeAnything(ls);
    assert "%%%"[1..] == "%%" && "%%"[1..] == "%";
  }

  // ------------------------------------------------------ the Map

  /** The last element of `xs` with id `id`: the value a `Map` built from
      `xs` holds for that key. */
  function LastWith(xs: seq<Supporter>, id: string): (r: Option<Supporter>)
    ensures r.Some? <==> exists i :: 0 <= i < |xs| && xs[i].id == id
    ensures r.Some? ==> r.value in xs && r.value.id == id
  {
    if xs == [] then None
    else if xs[|xs| - 1].id == id then Some(xs[|xs| - 1])
    else
      var r := LastWith(xs[..|xs| - 1], id);
      assert forall i :: 0 <= i < |xs| - 1 ==> xs[..|xs| - 1][i] == xs[i];
      r
  }

  lemma LastWithSnoc(xs: seq<Supporter>, s: Supporter, id: string)
    ensures LastWith(xs + [s], id) == if s.id == id then Some(s) else LastWith(xs, id)
  {
    assert (xs + [s])[..|xs|] == xs;
  }

  /** No element after the one `LastWith` picks has its id. */
  lemma {:induction false} LastWithIsLast(xs: seq<Supporter>, id: string)
    requires LastWith(xs, id).Some?
    ensures exists i :: 0 <= i < |xs| && xs[i] == LastWith(xs, id).value
                        && forall k :: i < k < |xs| ==> xs[k].id != id
  {
    var n := |xs| - 1;
    if xs[n].id != id {
      var init := xs[..n];
      LastWithIsLast(init, id);
      var i :| 0 <= i < |init| && init[i] == LastWith(init, id).value
               && forall k :: i < k < |init| ==> init[k].id != id;
      assert xs[i] == init[i];
      forall k | i < k < |xs| ensures xs[k].id != id {
        if k < n {
          assert xs[k] == init[k];
        }
      }
    }
  }

  /** For an id held by one element only, that element is the last. */
  lemma {:induction false} LastWithUnique(xs: seq<Supporter>, i: int)
    requires 0 <= i < |xs|
    requires forall k :: 0 <= k < |xs| && k != i ==> xs[k].id != xs[i].id
    ensures LastWith(xs, xs[i].id) == Some(xs[i])
  {
    var n := |xs| - 1;
    if i != n {
      var init := xs[..n];
      assert init[i] == xs[i];
      forall k | 0 <= k < |init| && k != i ensures init[k].id != init[i].id {
        assert init[k] == xs[k];
      }
      LastWithUnique(init, i);
    }
  }

  /** `Array.from(new Map(xs.map(s => [s.id, s])).values())`: one entry per
      id, in the order the ids first occur, each holding the last element
      with that id. */
  ghost predicate MapDeduped(xs: seq<Supporter>, r: seq<Supporter>)
  {
    var firsts := UniqueBy(xs, IdOf, {});
    && |r| == |firsts|
    && forall j :: 0 <= j < |r| ==> r[j].id == firsts[j].id && LastWith(xs, r[j].id) == Some(r[j])
  }

  /** The state of the `Map` after the first `i` elements: the key order
      is the ids' first occurrences so far and each key holds the last
      element with it so far. */
  ghost predicate MapAfter(xs: seq<Supporter>, i: int, keys: seq<string>, m: map<string, Supporter>,
                           firsts: seq<Supporter>, seen: set<string>)
    requires 0 <= i <= |xs|
  {
    && seen == m.Keys
    && firsts + UniqueBy(xs[i..], IdOf, seen) == UniqueBy(xs, IdOf, {})
    && |keys| == |firsts|
    && (forall j :: 0 <= j < |keys| ==> keys[j] == firsts[j].id && keys[j] in m)
    && (forall k :: k in m ==> LastWith(xs[..i], k) == Some(m[k]))
  }

  /** The map's values in key order. */
  function ValuesInOrder(keys: seq<string>, m: map<string, Supporter>): (r: seq<Supporter>)
    requires forall j :: 0 <= j < |keys| ==> keys[j] in m
    ensures |r| == |keys| && forall j :: 0 <= j < |keys| ==> r[j] == m[keys[j]]
  {
    seq(|keys|, j requires 0 <= j < |keys| => m[keys[j]])
  }

  /** The `Map` construction: `set` on a new key appends it to the key
      order, `set` on a known key replaces its value in place. */
  method UniqueById(xs: seq<Supporter>) returns (r: seq<Supporter>)
    ensures MapDeduped(xs, r)
  {
    var keys: seq<string> := [];
    var m: map<string, Supporter> := map[];
    ghost var firsts: seq<Supporter> := [];
    ghost var seen: set<string> := {};
    assert xs[0..] == xs;
    for i := 0 to |xs|
      invariant MapAfter(xs, i, keys, m, firsts, seen)
    {
      var s := xs[i];
      MapStep(xs, i, keys, m, firsts, seen);
      if s.id !in m {
        keys := keys + [s.id];
        firsts := firsts + [s];
        seen := seen + {s.id};
      }
      m := m[s.id := s];
    }
    r := ValuesInOrder(keys, m);
    MapDone(xs, keys, m, firsts, seen);
  }

  /** One `set` keeps the state in step with one more element. */
  lemma MapStep(xs: seq<Supporter>, i: int, keys: seq<string>, m: map<string, Supporter>,
                firsts: seq<Supporter>, seen: set<string>)
    requires 0 <= i < |xs| && MapAfter(xs, i, keys, m, firsts, seen)
    ensures var s := xs[i];
      var known := s.id in m;
      MapAfter(xs, i + 1, if known then keys else keys + [s.id], m[s.id := s],
               if known then firsts else firsts + [s], if known then seen else seen + {s.id})
  {
    if xs[i].id in m {
      MapStepKnown(xs, i, keys, m, firsts, seen);
    } else {
      MapStepNew(xs, i, keys, m, firsts, seen);
    }
  }

  lemma MapStepKnown(xs: seq<Supporter>, i: int, keys: seq<string>, m: map<string, Supporter>,
                     firsts: seq<Supporter>, seen: set<string>)
    requires 0 <= i < |xs| && MapAfter(xs, i, keys, m, firsts, seen) && xs[i].id in m
    ensures MapAfter(xs, i + 1, keys, m[xs[i].id := xs[i]], firsts, seen)
  {
    var m' := m[xs[i].id := xs[i]];
    assert seen == m'.Keys;
    UniqueByStep(xs, i, IdOf, seen, firsts);
    ValuesStep(xs, i, m);
    forall j | 0 <= j < |keys| ensures keys[j] in m' {
      assert keys[j] in m;
    }
  }

  lemma MapStepNew(xs: seq<Supporter>, i: int, keys: seq<string>, m: map<string, Supporter>,
                   firsts: seq<Supporter>, seen: set<string>)
    requires 0 <= i < |xs| && MapAfter(xs, i, keys, m, firsts, seen) && xs[i].id !in m
    ensures MapAfter(xs, i + 1, keys + [xs[i].id], m[xs[i].id := xs[i]], firsts + [xs[i]], seen + {xs[i].id})
  {
    var s := xs[i];
    var m' := m[s.id := s];
    var keys', firsts' := keys + [s.id], firsts + [s];
    assert seen + {s.id} == m'.Keys;
    UniqueByStep(xs, i, IdOf, seen, firsts);
    ValuesStep(xs, i, m);
    forall j | 0 <= j < |keys'| ensures keys'[j] == firsts'[j].id && keys'[j] in m' {
      if j < |keys| {
        assert keys'[j] == keys[j] && firsts'[j] == firsts[j];
      }
    }
  }

  /** After the last element the values in key order are the result. */
  lemma MapDone(xs: seq<Supporter>, keys: seq<string>, m: map<string, Supporter>,
                firsts: seq<Supporter>, seen: set<string>)
    requires MapAfter(xs, |xs|, keys, m, firsts, seen)
    ensures MapDeduped(xs, ValuesInOrder(keys, m))
  {
    assert xs[|xs|..] == [] && xs[..|xs|] == xs;
  }

  /** One step of the values: the key of `xs[i]` now holds `xs[i]`, every
      other key keeps its last element. */
  lemma ValuesStep(xs: seq<Supporter>, i: int, m: map<string, Supporter>)
    requires 0 <= i < |xs|
    requires forall k :: k in m ==> LastWith(xs[..i], k) == Some(m[k])
    ensures var m' := m[xs[i].id := xs[i]];
      forall k :: k in m' ==> LastWith(xs[..i + 1], k) == Some(m'[k])
  {
    var s := xs[i];
    var m' := m[s.id := s];
    assert xs[..i + 1] == xs[..i] + [s];
    forall k | k in m' ensures LastWith(xs[..i + 1], k) == Some(m'[k]) {
      LastWithSnoc(xs[..i], s, k);
    }
  }

  /** The entries have distinct ids, each is an input element, and every
      input id has an entry. */
  lemma MapDedupedFacts(xs: seq<Supporter>, r: seq<Supporter>)
    requires MapDeduped(xs, r)
    ensures DistinctBy(r, IdOf)
    ensures forall j :: 0 <= j < |r| ==> r[j] in xs
    ensures forall s :: s in xs ==> exists j :: 0 <= j < |r| && r[j].id == s.id
  {
    var firsts := UniqueBy(xs, IdOf, {});
    forall s | s in xs ensures exists j :: 0 <= j < |r| && r[j].id == s.id {
      UniqueByCovers(xs, IdOf, {});
      var i :| 0 <= i < |xs| && xs[i] == s;
      assert IdOf(xs[i]) in KeySet(xs, IdOf);
      var j :| 0 <= j < |firsts| && IdOf(firsts[j]) == s.id;
      assert r[j].id == s.id;
    }
  }

  /** On elements with distinct ids the `Map` gives back its input. */
  lemma MapOfDistinct(xs: seq<Supporter>, r: seq<Supporter>)
    requires DistinctBy(xs, IdOf) && MapDeduped(xs, r)
    ensures r == xs
  {
    UniqueByOfDistinct(xs, IdOf, {});
    forall j | 0 <= j < |r| ensures r[j] == xs[j] {
      forall k | 0 <= k < |xs| && k != j ensures xs[k].id != xs[j].id {
        if k < j {
          assert IdOf(xs[k]) != IdOf(xs[j]);
        } else {
          assert IdOf(xs[j]) != IdOf(xs[k]);
        }
      }
      LastWithUnique(xs, j);
    }
  }

  // ---------------------------------------------------- getSupporters

  lemma HoldsSnoc(query: seq<Condition>, c: Condition, lower: char -> char)
    ensures forall s :: HoldsAll(query + [c], s, lower) <==> HoldsAll(query, s, lower) && Holds(c, s, lower)
  {
    forall s ensures HoldsAll(query + [c], s, lower) <==> HoldsAll(query, s, lower) && Holds(c, s, lower) {
      if HoldsAll(query + [c], s, lower) {
        assert (query + [c])[|query|] == c;
        forall i | 0 <= i < |query| ensures Holds(query[i], s, lower) {
          assert (query + [c])[i] == query[i];
        }
      }
    }
  }

  /** The if-chain that builds the query: one condition per parameter set,
      in source order. */
  method BuildQuery(p: SearchParams, lower: char -> char) returns (query: seq<Condition>)
    ensures forall s :: Scheduled(s) && HoldsAll(query, s, lower) <==> StoreKeeps(p, lower, s)
  {
    query := [];
    if Truthy(p.search) {
      HoldsSnoc(query, NameLike(SearchPattern(p.search.value)), lower);
      query := query + [NameLike(SearchPattern(p.search.value))];
    }
    assert forall s :: (HoldsAll(query, s, lower)
      <==> (Truthy(p.search) ==> IlikeFilter(s.name, SearchPattern(p.search.value), lower)));
    if Narrows(p.status) {
      HoldsSnoc(query, StatusIs(p.status.value), lower);
      query := query + [StatusIs(p.status.value)];
    }
    assert forall s :: (HoldsAll(query, s, lower)
      <==> && (Truthy(p.search) ==> IlikeFilter(s.name, SearchPattern(p.search.value), lower))
           && (Narrows(p.status) ==> s.status == Some(p.status.value)));
    if Narrows(p.area) {
      HoldsSnoc(query, AreaIs(p.area.value), lower);
      query := query + [AreaIs(p.area.value)];
    }
    assert forall s :: (HoldsAll(query, s, lower)
      <==> && (Truthy(p.search) ==> IlikeFilter(s.name, SearchPattern(p.search.value), lower))
           && (Narrows(p.status) ==> s.status == Some(p.status.value))
           && (Narrows(p.area) ==> s.area == Some(p.area.value)));
    if Narrows(p.timeSlot) {
      HoldsSnoc(query, SlotIs(p.timeSlot.value), lower);
      query := query + [SlotIs(p.timeSlot.value)];
    }
  }

  /** `getSupporters`: the empty list when the query fails; otherwise the
      `Map` over the store's rows that pass the skill post-filter. */
  method GetSupporters(table: seq<Supporter>, p: SearchParams, fails: bool, lower: char -> char)
    returns (r: seq<Supporter>)
    ensures fails ==> r == []
    ensures !fails ==> MapDeduped(Listed(table, p, lower), r)
  {
    var query := BuildQuery(p, lower);
    var data := RunQuery(table, query, fails, lower);
    if data.None? {
      return [];
    }
    FilterSame(table, (s: Supporter) => Scheduled(s) && HoldsAll(query, s, lower), (s: Supporter) => StoreKeeps(p, lower, s));
    var filteredData := data.value;
    if Narrows(p.skill) {
      var skill := p.skill.value;
      filteredData := Filter(filteredData, (s: Supporter) => HasSkillNamed(s, skill));
      FilterSame(data.value, (s: Supporter) => HasSkillNamed(s, skill), (s: Supporter) => SkillKeeps(p, s));
    } else {
      FilterAll(filteredData, (s: Supporter) => SkillKeeps(p, s));
    }
    r := UniqueById(filteredData);
  }

  /** A row is among the store's rows that pass the skill post-filter
      exactly when it is a table row that passes every condition. */
  lemma ListedMembers(table: seq<Supporter>, p: SearchParams, lower: char -> char, x: Supporter)
    ensures x in Listed(table, p, lower) <==> x in table && StoreKeeps(p, lower, x) && SkillKeeps(p, x)
  {
    var l := Listed(table, p, lower);
    var f := Filter(table, Kept(p, lower));
    ListedOrder(table, p, lower);
    assert x in l <==> x in multiset(l);
    assert x in f <==> x in multiset(f);
  }

  /** Every listed supporter is a table row that passes every condition,
      no id is listed twice, and every such table row has its id listed. */
  lemma SupportersListed(table: seq<Supporter>, p: SearchParams, lower: char -> char, r: seq<Supporter>)
    requires MapDeduped(Listed(table, p, lower), r)
    ensures DistinctBy(r, IdOf)
    ensures forall j :: 0 <= j < |r| ==> r[j] in table && StoreKeeps(p, lower, r[j]) && SkillKeeps(p, r[j])
    ensures forall s :: s in table && StoreKeeps(p, lower, s) && SkillKeeps(p, s) ==>
              exists j :: 0 <= j < |r| && r[j].id == s.id
  {
    var l := Listed(table, p, lower);
    MapDedupedFacts(l, r);
    forall j | 0 <= j < |r| ensures r[j] in table && StoreKeeps(p, lower, r[j]) && SkillKeeps(p, r[j]) {
      ListedMembers(table, p, lower, r[j]);
    }
    forall s | s in table && StoreKeeps(p, lower, s) && SkillKeeps(p, s)
      ensures exists j :: 0 <= j < |r| && r[j].id == s.id
    {
      ListedMembers(table, p, lower, s);
    }
  }

  /** With ids unique in the table, as the primary key makes them, the `Map`
      changes nothing: the page lists exactly the store's rows that pass the
      skill filter, newest first. */
  lemma KeyedTable(table: seq<Supporter>, p: SearchParams, lower: char -> char, r: seq<Supporter>)
    requires DistinctBy(table, IdOf)
    requires MapDeduped(Listed(table, p, lower), r)
    ensures r == Listed(table, p, lower)
    ensures SortedDesc(r, CreatedAt)
  {
    var rows := Filter(table, (s: Supporter) => StoreKeeps(p, lower, s));
    FilterDistinctBy(table, (s: Supporter) => StoreKeeps(p, lower, s), IdOf);
    SortDescDistinctBy(rows, CreatedAt, IdOf);
    FilterDistinctBy(StoreRows(table, p, lower), (s: Supporter) => SkillKeeps(p, s), IdOf);
    MapOfDistinct(Listed(table, p, lower), r);
    ListedOrder(table, p, lower);
  }

  /** With no parameter set, every supporter with a schedule row is listed,
      newest first. */
  lemma NoParametersScheduled(table: seq<Supporter>, p: SearchParams, lower: char -> char)
    requires !Truthy(p.search) && !Narrows(p.status) && !Narrows(p.area)
    requires !Narrows(p.timeSlot) && !Narrows(p.skill)
    ensures Listed(table, p, lower) == SortDesc(Filter(table, Scheduled), CreatedAt)
  {
    FilterSame(table, (s: Supporter) => StoreKeeps(p, lower, s), Scheduled);
    FilterAll(StoreRows(table, p, lower), (s: Supporter) => SkillKeeps(p, s));
  }

  // ------------------------------------------------- filter options

  /** `areasData.map((item) => item.area)` over the rows with an area. */
  function AreaValues(table: seq<Supporter>): (r: seq<Nullable<string>>)
    ensures forall x :: Value(x) in r <==> exists i :: 0 <= i < |table| && table[i].area == Some(x)
    ensures forall i :: 0 <= i < |r| ==> r[i].Value?
  {
    if table == [] then []
    else
      var rest := AreaValues(table[1..]);
      assert forall i :: 0 <= i < |table[1..]| ==> table[1..][i] == table[i + 1];
      var head := if table[0].area.Some? then [Value(table[0].area.value)] else [];
      assert forall x :: ((exists i :: 0 <= i < |table| && table[i].area == Some(x))
        <==> (table[0].area == Some(x) || exists i :: 0 <= i < |table[1..]| && table[1..][i].area == Some(x))) by {
        forall x | exists i :: 0 <= i < |table| && table[i].area == Some(x)
          ensures table[0].area == Some(x) || exists i :: 0 <= i < |table[1..]| && table[1..][i].area == Some(x)
        {
          var i :| 0 <= i < |table| && table[i].area == Some(x);
          if i > 0 {
            assert table[1..][i - 1].area == Some(x);
          }
        }
      }
      head + rest
  }

  /** The area options: each area some supporter has, once, in table
      order; none when the query fails. */
  function AreaOptions(table: seq<Supporter>, fails: bool): (r: seq<string>)
    ensures Distinct(r)
    ensures forall x :: x in r <==> !fails && exists i :: 0 <= i < |table| && table[i].area == Some(x)
  {
    if fails then [] else GetUniqueValues(AreaValues(table))
  }

  /** The skill options: the names of the active skills, in table order;
      none when the query fails. */
  function SkillOptions(skills: seq<Skill>, fails: bool): (r: seq<string>)
    ensures fails ==> r == []
    ensures !fails ==> |r| == |Filter(skills, (k: Skill) => k.isActive == Some(true))|
    ensures !fails ==> forall i :: 0 <= i < |r| ==>
              r[i] == Filter(skills, (k: Skill) => k.isActive == Some(true))[i].name
  {
    if fails then []
    else
      var active := Filter(skills, (k: Skill) => k.isActive == Some(true));
      seq(|active|, i requires 0 <= i < |active| => active[i].name)
  }

  /** The page shows the empty-result card exactly when the list is empty. */
  datatype ListView = NotFound | SupporterCards(items: seq<Supporter>)

  function ListViewOf(supporters: seq<Supporter>): (v: ListView)
    ensures v.NotFound? <==> supporters == []
    ensures v.SupporterCards? ==> v.items == supporters
  {
    if |supporters| == 0 then NotFound else SupporterCards(supporters)
  }
}
