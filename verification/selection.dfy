/** The check-box handlers shared by the matching panel and the supporter
    form: checking appends the id, unchecking removes it. */
module Selection {
  import opened Seqs

  /** `[...selected, id]`: no guard against an id already present. */
  function ToggleOn(selected: seq<string>, id: string): seq<string>
  {
    selected + [id]
  }

  /** `selected.filter((x) => x !== id)` */
  function ToggleOff(selected: seq<string>, id: string): seq<string>
  {
    Filter(selected, (x: string) => x != id)
  }

  /** `checked ? ToggleOn : ToggleOff` */
  function Toggle(selected: seq<string>, id: string, checked: bool): seq<string>
  {
    if checked then ToggleOn(selected, id) else ToggleOff(selected, id)
  }

  /** Checking puts the id last, after everything selected before, and adds
      one more copy of it even when it was already selected. */
  lemma ToggleOnFacts(selected: seq<string>, id: string)
    ensures var r := ToggleOn(selected, id);
      && |r| == |selected| + 1 && r[|selected|] == id && r[..|selected|] == selected
      && multiset(r)[id] == multiset(selected)[id] + 1
  {
  }

  /** Unchecking removes every copy of the id and keeps every other id, in
      order and with its number of copies. */
  lemma ToggleOffFacts(selected: seq<string>, id: string, other: string)
    ensures id !in ToggleOff(selected, id)
    ensures other != id ==> multiset(ToggleOff(selected, id))[other] == multiset(selected)[other]
    ensures IsSubsequence(ToggleOff(selected, id), selected)
  {
    FilterMultiset(selected, (x: string) => x != id, other);
    FilterMultiset(selected, (x: string) => x != id, id);
    FilterIsSubsequence(selected, (x: string) => x != id);
  }

  /** Unchecking after checking is the same as unchecking alone. */
  lemma OffAfterOn(selected: seq<string>, id: string)
    ensures ToggleOff(ToggleOn(selected, id), id) == ToggleOff(selected, id)
  {
    FilterConcat(selected, [id], (x: string) => x != id);
  }

  /** Unchecking an id that is not selected changes nothing. */
  lemma OffAbsent(selected: seq<string>, id: string)
    requires id !in selected
    ensures ToggleOff(selected, id) == selected
  {
    FilterAll(selected, (x: string) => x != id);
  }
}
