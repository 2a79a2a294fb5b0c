/** `components/navigation.tsx`: the header's fixed list of sections and the
    rule that highlights the section the current pathname belongs to. */
module Navigation {
  import opened Seqs

  datatype NavItem = NavItem(name: string, href: string)

  /** `navigation` */
  const Items: seq<NavItem> := [
    NavItem("ダッシュボード", "/"),
    NavItem("サポーター", "/supporters"),
    NavItem("利用者", "/service-users"),
    NavItem("活動履歴", "/activities"),
    NavItem("マッチング", "/matching"),
    NavItem("設定", "/settings")]

  /** `isActive`: the pathname is the href or lies below it. */
  predicate IsActive(pathname: string, href: string)
  {
    pathname == href || href + "/" <= pathname
  }

  /** The names of the highlighted items, in list order. */
  function ActiveNames(pathname: string): (r: seq<string>)
    ensures |r| <= |Items|
  {
    Names(Filter(Items, ActiveAt(pathname)))
  }

  function ActiveAt(pathname: string): NavItem -> bool
  {
    (item: NavItem) => IsActive(pathname, item.href)
  }

  function Names(items: seq<NavItem>): (r: seq<string>)
    ensures |r| == |items| && forall i :: 0 <= i < |items| ==> r[i] == items[i].name
  {
    if items == [] then [] else [items[0].name] + Names(items[1..])
  }

  /** An active href is spelled out at the start of the pathname, and
      anything after it starts a new path segment. */
  lemma ActiveShape(pathname: string, href: string)
    requires IsActive(pathname, href)
    ensures |href| <= |pathname| && pathname[..|href|] == href
    ensures |href| < |pathname| ==> pathname[|href|] == '/'
  {
    if pathname != href {
      assert (href + "/")[|href|] == '/';
    }
  }

  /** Two hrefs that differ at a position both reach cannot both be active. */
  lemma ApartHrefs(pathname: string, h1: string, h2: string, k: nat)
    requires k < |h1| && k < |h2| && h1[k] != h2[k]
    ensures !(IsActive(pathname, h1) && IsActive(pathname, h2))
  {
    if IsActive(pathname, h1) && IsActive(pathname, h2) {
      ActiveShape(pathname, h1);
      ActiveShape(pathname, h2);
    }
  }

  /** The dashboard `/` is active exactly at `/` itself, and otherwise only
      for a pathname starting with an empty segment (`//`). */
  lemma RootActive(pathname: string)
    ensures IsActive(pathname, "/") <==> pathname == "/" || (|pathname| >= 2 && pathname[..2] == "//")
  {
    if |pathname| >= 2 && pathname[..2] == "//" {
      assert "/" + "/" == pathname[..2];
    }
  }

  /** The dashboard and a section whose href does not begin with `//` are
      never highlighted together. */
  lemma RootApart(pathname: string, href: string)
    requires |href| >= 2 && href[1] != '/'
    ensures !(IsActive(pathname, "/") && IsActive(pathname, href))
  {
    if IsActive(pathname, "/") && IsActive(pathname, href) {
      RootActive(pathname);
      ActiveShape(pathname, href);
    }
  }

  /** Any two items of the list are apart. */
  lemma ItemsApart(pathname: string, i: nat, j: nat)
    requires i < j < |Items|
    ensures !(IsActive(pathname, Items[i].href) && IsActive(pathname, Items[j].href))
  {
    var h1, h2 := Items[i].href, Items[j].href;
    if i == 0 {
      assert h2[1] in "sam";
      RootApart(pathname, h2);
    } else if i == 1 && (j == 2 || j == 5) {
      ApartHrefs(pathname, h1, h2, 2);
    } else if i == 2 && j == 5 {
      ApartHrefs(pathname, h1, h2, 3);
    } else {
      assert h1[1] != h2[1];
      ApartHrefs(pathname, h1, h2, 1);
    }
  }

  /** Whatever the pathname, at most one item is highlighted. */
  lemma AtMostOneActive(pathname: string)
    ensures forall i, j :: 0 <= i < j < |Items| && IsActive(pathname, Items[i].href) ==> !IsActive(pathname, Items[j].href)
    ensures |ActiveNames(pathname)| <= 1
  {
    forall i, j | 0 <= i < j < |Items| && IsActive(pathname, Items[i].href)
      ensures !IsActive(pathname, Items[j].href)
    {
      ItemsApart(pathname, i, j);
    }
    FilterAtMostOne(Items, ActiveAt(pathname));
  }

  /** A page below a section highlights that section alone. */
  lemma DeeperPathActive()
    ensures ActiveNames("/supporters/x/edit") == ["サポーター"]
  {
    var p := "/supporters/x/edit";
    forall i | 0 <= i < |Items| && i != 1 ensures !ActiveAt(p)(Items[i]) {
      AtMostOneActive(p);
      if i == 0 {
        assert !IsActive(p, "/") by { RootActive(p); }
      }
    }
    assert ActiveAt(p)(Items[1]) by {
      assert "/supporters" + "/" <= p;
    }
    FilterSingle(Items, ActiveAt(p), 1);
  }

  /** A pathname that merely shares the letters of an href highlights
      nothing. */
  lemma TextualPrefixInactive()
    ensures ActiveNames("/supportersX") == []
  {
    var p := "/supportersX";
    forall i | 0 <= i < |Items| ensures !ActiveAt(p)(Items[i]) {
      if IsActive(p, Items[i].href) {
        ActiveShape(p, Items[i].href);
      }
    }
    FilterNone(Items, ActiveAt(p));
  }
}
