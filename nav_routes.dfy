/** The "active route" rule that both navigation components (the desktop
    sidebar and the mobile drawer) evaluate for each of their links: an item
    is active on an exact match of the current path, or, for every item except
    the dashboard, when the path merely starts with the item's href. */
module NavRoutes {
  import opened Types

  const DASHBOARD := "/dashboard"

  datatype NavItem = NavItem(href: string, text: string)

  /** A titled (or untitled) group of links in the navigation. */
  datatype NavSection = NavSection(heading: Option<string>, items: seq<NavItem>)

  /** JavaScript's `s.startsWith(prefix)`: a raw character prefix test. */
  predicate StartsWith(s: string, prefix: string) {
    prefix <= s
  }

  /** `pathname === href || (href !== "/dashboard" && pathname.startsWith(href))` */
  predicate IsActive(pathname: string, href: string)
    ensures pathname == href ==> IsActive(pathname, href)
    ensures IsActive(pathname, href) ==> |href| <= |pathname| && pathname[..|href|] == href
  {
    pathname == href || (href != DASHBOARD && StartsWith(pathname, href))
  }

  /** `startsWith` holds exactly when the string is the prefix followed by some rest. */
  lemma StartsWithMeansExtension(s: string, prefix: string)
    ensures StartsWith(s, prefix) <==> exists rest :: s == prefix + rest
  {
    if StartsWith(s, prefix) {
      assert s == prefix + s[|prefix|..];
    }
    if exists rest :: s == prefix + rest {
      var rest :| s == prefix + rest;
      assert s[..|prefix|] == prefix;
    }
  }

  /** The rule stated without `startsWith`: active on the exact path, or, for
      any item but the dashboard, on any path that extends the href. */
  lemma IsActiveCharacterized(pathname: string, href: string)
    ensures IsActive(pathname, href) <==>
      pathname == href || (href != DASHBOARD && exists rest :: pathname == href + rest)
  {
    StartsWithMeansExtension(pathname, href);
  }

  /** The dashboard is never active by prefix: only its exact path activates it. */
  lemma DashboardExactOnly(pathname: string)
    ensures IsActive(pathname, DASHBOARD) <==> pathname == DASHBOARD
  {}

  /** Every other item is active on every extension of its href. */
  lemma ExtensionActivates(href: string, rest: string)
    requires href != DASHBOARD
    ensures IsActive(href + rest, href)
  {
    StartsWithMeansExtension(href + rest, href);
  }

  /** The prefix test ignores path segments: "/pipelineX" activates "/pipeline",
      while "/dashboardX" does not activate the dashboard. */
  lemma PrefixNotSegmentAware()
    ensures IsActive("/pipelineX", "/pipeline")
    ensures !IsActive("/dashboardX", DASHBOARD)
  {
    ExtensionActivates("/pipeline", "X");
  }

  /** All links of the sections, in display order. */
  function Flatten(sections: seq<NavSection>): (items: seq<NavItem>)
    ensures forall it :: it in items <==> exists k :: 0 <= k < |sections| && it in sections[k].items
  {
    if sections == [] then []
    else
      assert forall k :: 0 < k < |sections| ==> sections[k] == sections[1..][k - 1];
      sections[0].items + Flatten(sections[1..])
  }

  /** The hrefs rendered as active for the current path, in display order. */
  function ActiveHrefs(pathname: string, items: seq<NavItem>): (hrefs: seq<string>)
    ensures |hrefs| <= |items|
    ensures forall h :: h in hrefs <==> exists k :: 0 <= k < |items| && items[k].href == h && IsActive(pathname, h)
  {
    if items == [] then []
    else
      assert forall k :: 0 < k < |items| ==> items[k] == items[1..][k - 1];
      (if IsActive(pathname, items[0].href) then [items[0].href] else []) + ActiveHrefs(pathname, items[1..])
  }
}
