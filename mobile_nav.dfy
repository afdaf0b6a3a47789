/** The mobile drawer of src/components/layout/MobileNav.tsx: its link list
    (which, unlike the sidebar's, includes Settings as an ordinary item), the
    shared active rule over that list, and the drawer's `open` flag with the
    events that set it. */
module MobileNav {
  import opened Types
  import opened NavRoutes
  import Sidebar

  const SETTINGS := "/settings"

  const NAV_SECTIONS: seq<NavSection> := [
    NavSection(None, [NavItem(DASHBOARD, "Dashboard")]),
    NavSection(Some("Pipeline"), [NavItem("/pipeline", "Submissions"), NavItem("/pipeline/quotes", "Quotes")]),
    NavSection(Some("Clients"), [NavItem("/clients", "Portfolio")]),
    NavSection(Some("Book Management"), [
      NavItem("/wordings", "Wordings"),
      NavItem("/pricing", "Pricing"),
      NavItem("/markets", "Markets"),
      NavItem("/processes", "Processes"),
      NavItem("/positioning", "Positioning"),
      NavItem("/people", "People")
    ]),
    NavSection(Some("Analytics"), [NavItem("/results", "Historic Results")]),
    NavSection(None, [NavItem(SETTINGS, "Settings")])
  ]

  /** The drawer's links that are highlighted for the current path. */
  function MobileActiveHrefs(pathname: string): (hrefs: seq<string>)
    ensures SETTINGS in hrefs <==> StartsWith(pathname, SETTINGS)
    ensures DASHBOARD in hrefs <==> pathname == DASHBOARD
  {
    assert NavItem(SETTINGS, "Settings") in NAV_SECTIONS[5].items;
    assert NavItem(SETTINGS, "Settings") in Flatten(NAV_SECTIONS);
    assert NavItem(DASHBOARD, "Dashboard") in NAV_SECTIONS[0].items;
    assert NavItem(DASHBOARD, "Dashboard") in Flatten(NAV_SECTIONS);
    ActiveHrefs(pathname, Flatten(NAV_SECTIONS))
  }

  /** Settings is an ordinary item here, so any path that extends "/settings"
      highlights it, while the desktop sidebar leaves its Settings link
      unhighlighted on the same path. */
  lemma SettingsActiveByPrefix(rest: string)
    requires rest != []
    ensures SETTINGS in MobileActiveHrefs(SETTINGS + rest)
    ensures !Sidebar.SettingsActive(SETTINGS + rest)
  {
    assert NavItem(SETTINGS, "Settings") in NAV_SECTIONS[5].items;
    assert NavItem(SETTINGS, "Settings") in Flatten(NAV_SECTIONS);
    ExtensionActivates(SETTINGS, rest);
    assert |SETTINGS + rest| > |SETTINGS|;
  }

  /** Two drawer links are highlighted at once on "/pipeline/quotes". */
  lemma PipelineQuotesActivatesBoth()
    ensures "/pipeline" in MobileActiveHrefs("/pipeline/quotes")
    ensures "/pipeline/quotes" in MobileActiveHrefs("/pipeline/quotes")
  {
    assert NavItem("/pipeline", "Submissions") in Flatten(NAV_SECTIONS);
    assert NavItem("/pipeline/quotes", "Quotes") in Flatten(NAV_SECTIONS);
    ExtensionActivates("/pipeline", "/quotes");
  }

  // ---------------------------------------------------------------------
  // The drawer's open flag

  /** Everything that calls `setOpen`: the menu button, a click on a nav link
      or on the logo, a pointer-down outside the drawer, the Escape key, and
      the dialog's own `onOpenChange` (its close button reports `false`). */
  datatype MenuEvent =
    | MenuButtonClick
    | NavLinkClick
    | LogoClick
    | PointerDownOutside
    | EscapeKeyDown
    | OpenChange(requested: bool)

  predicate IsClosing(e: MenuEvent) {
    e.NavLinkClick? || e.LogoClick? || e.PointerDownOutside? || e.EscapeKeyDown?
  }

  /** The flag after one event. */
  function NextOpen(open: bool, e: MenuEvent): (r: bool)
    ensures r <==> e == MenuButtonClick || e == OpenChange(true)
  {
    match e
    case MenuButtonClick => true
    case OpenChange(requested) => requested
    case _ => false
  }

  /** Every handler writes a constant (or the value the dialog asks for), so
      the prior value never matters: the menu button opens, each closing
      event closes. */
  lemma NextOpenIgnoresPrior(open: bool, e: MenuEvent)
    ensures NextOpen(open, e) == NextOpen(!open, e)
    ensures e == MenuButtonClick ==> NextOpen(open, e)
    ensures IsClosing(e) ==> !NextOpen(open, e)
    ensures e.OpenChange? ==> NextOpen(open, e) == e.requested
  {}

  /** Closing is idempotent: a second closing event of any kind leaves the
      drawer closed. */
  lemma CloseIdempotent(open: bool, e1: MenuEvent, e2: MenuEvent)
    requires IsClosing(e1) && IsClosing(e2)
    ensures NextOpen(NextOpen(open, e1), e2) == NextOpen(open, e1) == false
  {}

  /** The flag after a series of events, starting from `open`. */
  function Run(open: bool, events: seq<MenuEvent>): (r: bool)
    ensures events != [] && IsClosing(events[|events| - 1]) ==> !r
    ensures (forall k :: 0 <= k < |events| ==> IsClosing(events[k])) ==> r == (open && events == [])
  {
    if events == [] then open
    else NextOpen(Run(open, events[..|events| - 1]), events[|events| - 1])
  }

  /** After any non-empty series of events the flag is decided by the last
      event alone; with no events it is the starting value. */
  lemma {:induction false} RunIsLastEvent(open: bool, events: seq<MenuEvent>)
    ensures events == [] ==> Run(open, events) == open
    ensures events != [] ==> Run(open, events) == NextOpen(false, events[|events| - 1])
  {
    if events != [] {
      NextOpenIgnoresPrior(Run(open, events[..|events| - 1]), events[|events| - 1]);
    }
  }

  /** The drawer's state cell. */
  class MobileMenu {
    var open: bool

    /** `useState(false)`: the drawer starts closed. */
    constructor ()
      ensures !open
    {
      open := false;
    }

    /** One `setOpen` call from an event handler. */
    method Handle(e: MenuEvent)
      modifies this
      ensures open == NextOpen(old(open), e)
      ensures e == MenuButtonClick ==> open
      ensures IsClosing(e) ==> !open
    {
      match e
      case MenuButtonClick => open := true;
      case OpenChange(requested) => open := requested;
      case _ => open := false;
    }
  }
}
