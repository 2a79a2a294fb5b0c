/** `lib/types/page-props.ts`: how a page reads its `searchParams`, and the
    record Next.js hands it for a URL. */
module PageProps {
  import opened Wrappers
  import opened FormUrlEncoded
  import opened UrlUtils

  /** `string | string[]`; an absent key is a key missing from the map. */
  datatype RawValue = Str(s: string) | Arr(items: seq<string>)

  type SearchParamsRecord = map<string, RawValue>

  /** The typed view of the query every list page works from. */
  datatype SearchParams = SearchParams(
    search: Option<string>,
    status: Option<string>,
    area: Option<string>,
    skill: Option<string>,
    supporter: Option<string>,
    serviceUser: Option<string>,
    dateFrom: Option<string>,
    dateTo: Option<string>,
    skills: Option<string>,
    timeSlots: Option<string>,
    view: Option<string>,
    month: Option<string>,
    timeSlot: Option<string>)

  /** `getString`: a key counts only when it holds a single string. */
  function GetString(record: SearchParamsRecord, key: string): (r: Option<string>)
    ensures r.Some? <==> key in record && record[key].Str?
    ensures r.Some? ==> record[key] == Str(r.value)
  {
    if key in record && record[key].Str? then Some(record[key].s) else None
  }

  /** JavaScript truthiness of an optional string: present and not `""`. */
  predicate Truthy(v: Option<string>)
  {
    v.Some? && v.value != ""
  }

  /** `v && v !== "all"`: a select that narrows a list. */
  predicate Narrows(v: Option<string>)
  {
    Truthy(v) && v.value != "all"
  }

  /** `v || d` */
  function OrDefault(v: Option<string>, d: string): (r: string)
    ensures Truthy(v) ==> r == v.value
    ensures !Truthy(v) ==> r == d
  {
    if Truthy(v) then v.value else d
  }

  /** `parseSearchParams` */
  function ParseSearchParams(record: SearchParamsRecord): SearchParams
  {
    SearchParams(
      GetString(record, "search"),
      GetString(record, "status"),
      GetString(record, "area"),
      GetString(record, "skill"),
      GetString(record, "supporter"),
      GetString(record, "service_user"),
      GetString(record, "date_from"),
      GetString(record, "date_to"),
      GetString(record, "skills"),
      GetString(record, "time_slots"),
      GetString(record, "view"),
      GetString(record, "month"),
      GetString(record, "time_slot"))
  }

  /** The thirteen query keys the pages understand. */
  const Keys: set<string> := {"search", "status", "area", "skill", "supporter", "service_user",
                              "date_from", "date_to", "skills", "time_slots", "view", "month", "time_slot"}

  /** The field of `SearchParams` read from query key `key`. */
  function Field(p: SearchParams, key: string): Option<string>
    requires key in Keys
  {
    match key
    case "search" => p.search
    case "status" => p.status
    case "area" => p.area
    case "skill" => p.skill
    case "supporter" => p.supporter
    case "service_user" => p.serviceUser
    case "date_from" => p.dateFrom
    case "date_to" => p.dateTo
    case "skills" => p.skills
    case "time_slots" => p.timeSlots
    case "view" => p.view
    case "month" => p.month
    case _ => p.timeSlot
  }

  /** Each field holds its key's value when that is a single string, and is
      absent when the key is missing or repeated. */
  lemma ParseFields(record: SearchParamsRecord, key: string)
    requires key in Keys
    ensures Field(ParseSearchParams(record), key).Some?
            <==> key in record && record[key].Str?
    ensures key in record && record[key].Str? ==>
              Field(ParseSearchParams(record), key) == Some(record[key].s)
  {
  }

  /** Keys other than the thirteen make no difference. */
  lemma ParseIgnoresOtherKeys(r1: SearchParamsRecord, r2: SearchParamsRecord)
    requires forall k :: k in Keys ==> (k in r1 <==> k in r2) && (k in r1 ==> r1[k] == r2[k])
    ensures ParseSearchParams(r1) == ParseSearchParams(r2)
  {
    assert "search" in Keys && "status" in Keys && "area" in Keys && "skill" in Keys;
    assert "supporter" in Keys && "service_user" in Keys && "date_from" in Keys && "date_to" in Keys;
    assert "skills" in Keys && "time_slots" in Keys && "view" in Keys && "month" in Keys && "time_slot" in Keys;
  }

  // ------------------------------------------------ the record for a URL

  function Names(pairs: Pairs): set<string>
  {
    set i | 0 <= i < |pairs| :: pairs[i].0
  }

  function Values(pairs: Pairs): (r: seq<string>)
    ensures |r| == |pairs|
  {
    if pairs == [] then [] else [pairs[0].1] + Values(pairs[1..])
  }

  /** The record Next.js builds from a query's pairs: a name given once maps
      to its value, a name given several times to the list of its values. */
  function RecordOf(pairs: Pairs): SearchParamsRecord
  {
    map k | k in Names(pairs) ::
      var vs := Values(Named(pairs, k));
      if |vs| == 1 then Str(vs[0]) else Arr(vs)
  }

  /** The record of the page at `url`. */
  function RecordOfUrl(url: string): SearchParamsRecord
  {
    RecordOf(ParseQuery(SplitUrl(url).1))
  }

  lemma {:induction false} NamedOnce(pairs: Pairs, i: int)
    requires DistinctNames(pairs) && 0 <= i < |pairs|
    ensures Named(pairs, pairs[i].0) == [pairs[i]]
  {
    var k := pairs[i].0;
    var rest := pairs[1..];
    assert DistinctNames(rest) by {
      forall a, b | 0 <= a < b < |rest| ensures rest[a].0 != rest[b].0 {
        assert rest[a] == pairs[a + 1] && rest[b] == pairs[b + 1];
      }
    }
    if i == 0 {
      assert !HasName(rest, k) by {
        forall a | 0 <= a < |rest| ensures rest[a].0 != k {
          assert rest[a] == pairs[a + 1];
        }
      }
      NamedAbsent(rest, k);
    } else {
      assert pairs[0].0 != k;
      assert rest[i - 1] == pairs[i];
      NamedOnce(rest, i - 1);
    }
  }

  /** A record built from pairs with distinct names maps every name to its
      single value, and knows no other name. */
  lemma RecordOfDistinct(pairs: Pairs, k: string)
    requires DistinctNames(pairs)
    ensures k in RecordOf(pairs) <==> exists v :: (k, v) in pairs
    ensures forall v :: (k, v) in pairs ==> RecordOf(pairs)[k] == Str(v)
  {
    forall v | (k, v) in pairs ensures k in RecordOf(pairs) && RecordOf(pairs)[k] == Str(v) {
      var i :| 0 <= i < |pairs| && pairs[i] == (k, v);
      assert k in Names(pairs);
      NamedOnce(pairs, i);
      assert Values([pairs[i]]) == [v];
    }
    if k in RecordOf(pairs) {
      var i :| 0 <= i < |pairs| && pairs[i].0 == k;
      assert (k, pairs[i].1) in pairs;
    }
  }

  /** What a filter panel writes into the URL is what the page reads back:
      every written entry arrives with its value, and a key that was not
      written (absent, blank or `"all"`) arrives as absent. */
  lemma ReadBackWritten(pathname: string, ps: Params, k: string)
    requires '?' !in pathname && DistinctKeys(ps)
    ensures forall v :: (k, Some(v)) in ps && IsWritten(Some(v)) ==>
              GetString(RecordOfUrl(UpdateUrlWithParams(pathname, ps)), k) == Some(v)
    ensures (forall i :: 0 <= i < |ps| && ps[i].0 == k ==> !IsWritten(ps[i].1)) ==>
              GetString(RecordOfUrl(UpdateUrlWithParams(pathname, ps)), k) == None
  {
    var pairs := WrittenPairs(ps);
    UpdateUrlRoundTrip(pathname, ps);
    assert RecordOfUrl(UpdateUrlWithParams(pathname, ps)) == RecordOf(pairs);
    WrittenPairsDistinct(ps);
    RecordOfDistinct(pairs, k);
    forall v | (k, Some(v)) in ps && IsWritten(Some(v))
      ensures GetString(RecordOf(pairs), k) == Some(v)
    {
      WrittenPairsMembers(ps, k, v);
    }
    if forall i :: 0 <= i < |ps| && ps[i].0 == k ==> !IsWritten(ps[i].1) {
      forall v ensures (k, v) !in pairs {
        WrittenPairsMembers(ps, k, v);
      }
    }
  }

  /** Entry by entry: a page reads back each entry of the record it was sent
      to with its value when the entry was written, and as absent
      otherwise. */
  lemma ReadBackEntry(pathname: string, ps: Params, i: int)
    requires '?' !in pathname && DistinctKeys(ps) && 0 <= i < |ps|
    ensures GetString(RecordOfUrl(UpdateUrlWithParams(pathname, ps)), ps[i].0)
            == if IsWritten(ps[i].1) then ps[i].1 else None
  {
    ReadBackWritten(pathname, ps, ps[i].0);
    if IsWritten(ps[i].1) {
      assert (ps[i].0, Some(ps[i].1.value)) in ps;
    }
  }

  /** A key the record does not have reads back as absent. */
  lemma ReadBackAbsent(pathname: string, ps: Params, k: string)
    requires '?' !in pathname && DistinctKeys(ps)
    requires forall i :: 0 <= i < |ps| ==> ps[i].0 != k
    ensures GetString(RecordOfUrl(UpdateUrlWithParams(pathname, ps)), k) == None
  {
    ReadBackWritten(pathname, ps, k);
  }
}
