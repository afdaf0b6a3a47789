/** The desktop sidebar of src/components/layout/Sidebar.tsx: its link list,
    the active rule for those links, and the separate Settings link, which is
    active only on the exact path "/settings". */
module Sidebar {
  import opened Types
  import opened NavRoutes

  const SETTINGS := "/settings"

  const NAV_SECTIONS: seq<NavSection> := [
    NavSection(None, [NavItem(DASHBOARD, "Dashboard")]),
    NavSection(Some("Pipeline"), [NavItem("/pipeline", "Submissions"), NavItem("/pipeline/quotes", "Quotes")]),
    NavSection(Some("Clients"), [NavItem("/clients", "Portfolio")]),
    NavSection(Some("Book Management"), [
      NavItem("/wordings", "Wordings"),
      NavItem("/pricing", "Pricing"),
      NavItem("/markets", "Markets"),
      NavItem("/processes", "Processes"),
      NavItem("/positioning", "Positioning"),
      NavItem("/people", "People")
    ]),
    NavSection(Some("Analytics"), [NavItem("/results", "Historic Results")])
  ]

  /** What one rendered link shows: where it goes, whether it is highlighted,
      and whether its text label is visible (only while the sidebar is expanded). */
  datatype LinkView = LinkView(href: string, active: bool, labelShown: bool)

  /** The Settings link's own rule: exact equality, no prefix. */
  predicate SettingsActive(pathname: string)
    ensures SettingsActive(pathname) <==> IsActive(pathname, SETTINGS) && |pathname| == |SETTINGS|
  {
    pathname == SETTINGS
  }

  /** One link per item, in order. The highlighted ones carry exactly the
      hrefs that `ActiveHrefs` selects for the same path. */
  function ItemLinks(pathname: string, expanded: bool, items: seq<NavItem>): (links: seq<LinkView>)
    ensures |links| == |items|
    ensures forall k :: 0 <= k < |items| ==>
      links[k] == LinkView(items[k].href, IsActive(pathname, items[k].href), expanded)
    ensures forall h :: h in ActiveHrefs(pathname, items) <==>
      exists k :: 0 <= k < |links| && links[k].active && links[k].href == h
  {
    seq(|items|, k requires 0 <= k < |items| => LinkView(items[k].href, IsActive(pathname, items[k].href), expanded))
  }

  /** Every link the sidebar renders, in order: the section links, then Settings. */
  function SidebarLinks(pathname: string, expanded: bool): (links: seq<LinkView>)
    ensures |links| == |Flatten(NAV_SECTIONS)| + 1
    ensures forall h :: (exists k :: 0 <= k < |links| && links[k].active && links[k].href == h) <==>
      h in ActiveHrefs(pathname, Flatten(NAV_SECTIONS)) || (h == SETTINGS && pathname == SETTINGS)
  {
    var items := Flatten(NAV_SECTIONS);
    var front := ItemLinks(pathname, expanded, items);
    var links := front + [LinkView(SETTINGS, SettingsActive(pathname), expanded)];
    assert forall k :: 0 <= k < |front| ==> links[k] == front[k];
    assert links[|front|] == LinkView(SETTINGS, SettingsActive(pathname), expanded);
    links
  }

  /** Highlighting depends on the path alone: collapsing or expanding the
      sidebar changes which labels are shown and nothing else. */
  lemma ActiveIgnoresExpanded(pathname: string)
    ensures |SidebarLinks(pathname, true)| == |SidebarLinks(pathname, false)|
    ensures forall k :: 0 <= k < |SidebarLinks(pathname, true)| ==>
      SidebarLinks(pathname, true)[k].href == SidebarLinks(pathname, false)[k].href &&
      SidebarLinks(pathname, true)[k].active == SidebarLinks(pathname, false)[k].active &&
      SidebarLinks(pathname, true)[k].labelShown && !SidebarLinks(pathname, false)[k].labelShown
  {
    var items := Flatten(NAV_SECTIONS);
    var t, f := SidebarLinks(pathname, true), SidebarLinks(pathname, false);
    forall k | 0 <= k < |t|
      ensures t[k].href == f[k].href && t[k].active == f[k].active && t[k].labelShown && !f[k].labelShown
    {
      if k < |items| {
        assert t[k] == ItemLinks(pathname, true, items)[k];
        assert f[k] == ItemLinks(pathname, false, items)[k];
      }
    }
  }

  /** The Settings link is the last one and is highlighted exactly on
      "/settings": a deeper path such as "/settings/x" does not highlight it,
      and, since no section link has the href "/settings", the section rule
      never reports Settings as highlighted. */
  lemma SettingsExactOnly(pathname: string, expanded: bool)
    ensures var links := SidebarLinks(pathname, expanded);
      |links| > 0 && links[|links| - 1].href == SETTINGS &&
      (links[|links| - 1].active <==> pathname == SETTINGS)
    ensures SETTINGS !in ActiveHrefs(pathname, Flatten(NAV_SECTIONS))
    ensures !SidebarLinks("/settings/x", expanded)[|SidebarLinks("/settings/x", expanded)| - 1].active
  {
    var items := Flatten(NAV_SECTIONS);
    assert forall it :: it in items ==> it.href != SETTINGS;
  }

  /** Several links can be highlighted together: on "/pipeline/quotes" both
      "Submissions" ("/pipeline") and "Quotes" are active. */
  lemma PipelineQuotesActivatesBoth()
    ensures "/pipeline" in ActiveHrefs("/pipeline/quotes", Flatten(NAV_SECTIONS))
    ensures "/pipeline/quotes" in ActiveHrefs("/pipeline/quotes", Flatten(NAV_SECTIONS))
  {
    var items := Flatten(NAV_SECTIONS);
    assert NavItem("/pipeline", "Submissions") in items;
    assert NavItem("/pipeline/quotes", "Quotes") in items;
    ExtensionActivates("/pipeline", "/quotes");
    assert IsActive("/pipeline/quotes", "/pipeline/quotes");
  }
}
