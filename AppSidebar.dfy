/** The sidebar's active-route highlighting: `isActive` compares a menu url
    with the current location path, and `getNavClassName` picks the
    highlighted or the muted class from it. */
module AppSidebar {

  import opened Filters

  datatype MenuItem = MenuItem(title: string, url: string)

  const MenuItems: seq<MenuItem> := [
    MenuItem("Dashboard", "/"),
    MenuItem("Ticket Bookings", "/bookings"),
    MenuItem("Water Rides", "/water-rides"),
    MenuItem("Agro Activities", "/agro-activities"),
    MenuItem("Staff Management", "/staff"),
    MenuItem("Reports & Analytics", "/reports"),
    MenuItem("Settings", "/settings")
  ]

  /** `isActive(path)` for location `currentPath`: the root matches only itself,
      every other url matches by plain string prefix (`startsWith`). */
  predicate IsActive(currentPath: string, path: string) {
    (path == "/" && currentPath == "/") || (path != "/" && path <= currentPath)
  }

  lemma RootActiveOnlyAtRoot(currentPath: string)
    ensures IsActive(currentPath, "/") <==> currentPath == "/"
  {
  }

  lemma NonRootActiveByPrefix(currentPath: string, path: string)
    requires path != "/"
    ensures IsActive(currentPath, path) <==> |path| <= |currentPath| && currentPath[..|path|] == path
  {
  }

  /** The prefix test is not segment-aware: "/staff" is active on "/staffing". */
  lemma NonSegmentPrefixActive()
    ensures IsActive("/staffing", "/staff")
  {
  }

  const HighlightedClass := "bg-gradient-to-r from-primary/20 to-secondary/20 text-primary border-r-2 border-primary font-medium"
  const MutedClass := "hover:bg-muted/50 text-muted-foreground hover:text-foreground"

  /** `getNavClassName`: the highlighted class exactly for an active url, the muted class otherwise. */
  function NavClassName(currentPath: string, path: string): (cls: string)
    ensures cls == HighlightedClass <==> IsActive(currentPath, path)
    ensures cls == MutedClass <==> !IsActive(currentPath, path)
  {
    assert |HighlightedClass| != |MutedClass|;
    if IsActive(currentPath, path) then HighlightedClass else MutedClass
  }

  /** Menu urls are pairwise distinct and all begin with "/". */
  lemma MenuUrlsWellFormed()
    ensures forall i :: 0 <= i < |MenuItems| ==> |MenuItems[i].url| > 0 && MenuItems[i].url[0] == '/'
    ensures forall i, j :: 0 <= i < j < |MenuItems| ==> MenuItems[i].url != MenuItems[j].url
  {
  }

  /** No non-root menu url is a prefix of another one. */
  lemma NoUrlPrefixOfAnother()
    ensures forall i, j :: 1 <= i < |MenuItems| && 1 <= j < |MenuItems| && i != j ==>
      !(MenuItems[i].url <= MenuItems[j].url)
  {
    forall i, j | 1 <= i < |MenuItems| && 1 <= j < |MenuItems| && i != j
      ensures !(MenuItems[i].url <= MenuItems[j].url)
    {
      var u, v := MenuItems[i].url, MenuItems[j].url;
      assert |u| >= 3 && |v| >= 3;
      assert u[1] != v[1] || u[2] != v[2];
    }
  }

  /** Two prefixes of the same string are prefixes of one another. */
  lemma PrefixesComparable(a: string, b: string, c: string)
    requires a <= c && b <= c
    ensures a <= b || b <= a
  {
    if |a| <= |b| {
      assert a == c[..|a|] == b[..|a|];
    } else {
      assert b == c[..|b|] == a[..|b|];
    }
  }

  /** Whatever the location, no two menu items are active together. */
  lemma AtMostOneActive(currentPath: string)
    ensures forall i, j :: 0 <= i < j < |MenuItems| && IsActive(currentPath, MenuItems[i].url) ==>
      !IsActive(currentPath, MenuItems[j].url)
  {
    NoUrlPrefixOfAnother();
    forall i, j | 0 <= i < j < |MenuItems| && IsActive(currentPath, MenuItems[i].url)
      ensures !IsActive(currentPath, MenuItems[j].url)
    {
      var u, v := MenuItems[i].url, MenuItems[j].url;
      if i != 0 && IsActive(currentPath, v) {
        PrefixesComparable(u, v, currentPath);
      }
    }
  }

  /** The menu items a location highlights. */
  function ActiveItems(currentPath: string): (items: seq<MenuItem>)
    ensures |items| <= 1
    ensures forall m :: m in items <==> m in MenuItems && IsActive(currentPath, m.url)
  {
    var keep := (m: MenuItem) => IsActive(currentPath, m.url);
    AtMostOneActive(currentPath);
    FilterAtMostOne(MenuItems, keep);
    FilterExact(MenuItems, keep);
    Filter(MenuItems, keep)
  }

  /** At the root only the Dashboard item is highlighted. */
  lemma RootHighlightsDashboard()
    ensures ActiveItems("/") == [MenuItems[0]]
  {
    assert MenuItems[0] in ActiveItems("/");
  }

  /** On each menu page exactly that page's item is highlighted. */
  lemma OwnPageHighlightsOwnItem(k: nat)
    requires k < |MenuItems|
    ensures ActiveItems(MenuItems[k].url) == [MenuItems[k]]
  {
    var url := MenuItems[k].url;
    var items := ActiveItems(url);
    assert IsActive(url, url);
    assert MenuItems[k] in items;
    assert items == [items[0]];
  }
}
