# Broker dashboard core, modelled in Dafny

This project models the few pieces of logic in a broker's insurance-book
dashboard. The dashboard is a Next.js/React application over static mock
data. The pieces modelled are:

- **Markets**: the syndicate × territory appetite matrix builder
  (`buildAppetiteMatrix`). It walks a fixed list of six syndicates and six
  territories. It looks each pair up in a nested appetite table and appends
  one cell per pair. A missing level reads as "declined", and a syndicate
  with no row is skipped. `BuildCells` is the nested loop over any axes and
  table. It is proved equal to the specification function `Matrix`. The
  lemmas then establish the length, the syndicate-major order, soundness,
  coverage and uniqueness of pairs, and the facts about the constant data.
- **NavRoutes / Sidebar / MobileNav**: the "active route" rule used by both
  navigation components. An item is active on an exact path match. Every item
  except `/dashboard` is also active when the path starts with its href. The
  desktop sidebar has its own Settings link, active only on exactly
  `/settings`. The mobile drawer lists Settings as an ordinary item, so the
  prefix rule applies to it.
- **MobileNav.MobileMenu**: the drawer's `open` flag and the events that
  set it.
- **SidebarContext**: the provider's `expanded` flag. It starts true, and
  `toggle` negates it. `useSidebar` fails outside a provider.
- **ClientRiskScores**: the constant per-client score table and its lookup.
  The lookup returns `null` for an unknown id.
- **SubmissionCard**: the coverage label (every `_` shown as a space), the
  status badge class with its fallback, the "days open" line, and the guard
  on the drag handler.

The value domains are Dafny datatypes in module `Types`: status, risk grade,
appetite level, territory and coverage type.

`buildAppetiteMatrix` takes no argument; it walks the fixed `SYNDICATES` and
`TERRITORIES` lists and returns an array of cells in syndicate-major order.
`BuildAppetiteMatrix` models it.

## Model

| member | source | states |
|---|---|---|
| `Markets.RowCells` | src/lib/mock-data/markets.ts:128-130 | one syndicate's row gives one cell per territory, in territory order, each carrying the row's level or "declined" when the entry is missing |
| `Markets.Matrix` | src/lib/mock-data/markets.ts:125-131 | the specification matrix: syndicate by syndicate, each contributes at most one cell per territory, so it has at most (syndicates) × (territories) cells |
| `Markets.BuildCells` | src/lib/mock-data/markets.ts:115-133 | the nested loop (skipping syndicates without a row, appending one cell per territory) yields exactly the specification matrix `Matrix` |
| `Markets.BuildAppetiteMatrix` | src/lib/mock-data/markets.ts:111-135 | on the constant axes and table the builder returns 6 × 6 = 36 cells, and the cell at index i·6 + j is (SYNDICATES[i], TERRITORIES[j], stored level) |
| `Markets.MatrixLength` | src/lib/mock-data/markets.ts:125-131 | when every syndicate has a row the matrix has (number of syndicates) × (number of territories) cells |
| `Markets.MatrixAt` | src/lib/mock-data/markets.ts:125-130 | syndicate-major order: index i × (number of territories) + j holds the cell for (ss[i], ts[j]) with the row's level or the "declined" default |
| `Markets.MatrixCellsSound` | src/lib/mock-data/markets.ts:125-131 | every cell names a listed syndicate that has a row and a listed territory, with that row's level (or "declined"); a syndicate without a row contributes no cell |
| `Markets.MatrixCellsComplete` | src/lib/mock-data/markets.ts:125-130 | every (listed syndicate with a row, listed territory) pair has its cell in the matrix |
| `Markets.MatrixPairsUnique` | src/lib/mock-data/markets.ts:111-131 | over axes without repeats, no (syndicate, territory) pair occurs in two cells |
| `Markets.TableCoversAxes` | src/lib/mock-data/markets.ts:117-124 | every listed syndicate has a row, and every row has an entry for every territory, so the default is never used on the constant data |
| `Markets.AxesDistinct` | src/lib/mock-data/markets.ts:111-112 | neither axis repeats an element |
| `Markets.TableLatamAndMea` | src/lib/mock-data/markets.ts:118-123 | in the table LATAM is declined in every row, and Hiscox (33) is the only row whose MEA entry is not declined |
| `Markets.ConstantMatrixShape` | src/lib/mock-data/markets.ts:111-135 | the exported matrix has 36 cells, contains every (syndicate, territory) pair with its stored level, and no pair twice |
| `Markets.ConstantMatrixLatamAndMea` | src/lib/mock-data/markets.ts:117-135 | every LATAM cell is declined; an MEA cell is not declined exactly when its syndicate is Hiscox (33), and that cell is cold |
| `NavRoutes.IsActive` | src/components/layout/Sidebar.tsx:122-124 | a link is always active on its own path, and an active href is always a leading part of the path |
| `NavRoutes.StartsWithMeansExtension` | src/components/layout/Sidebar.tsx:124 | `startsWith` holds exactly when the path is the href followed by some rest |
| `NavRoutes.IsActiveCharacterized` | src/components/layout/Sidebar.tsx:122-124 | an item is active iff the path equals its href, or the href is not `/dashboard` and the path extends it |
| `NavRoutes.DashboardExactOnly` | src/components/layout/Sidebar.tsx:124 | `/dashboard` is active iff the path is exactly `/dashboard` |
| `NavRoutes.ExtensionActivates` | src/components/layout/Sidebar.tsx:124 | any href other than `/dashboard` is active on every path that extends it |
| `NavRoutes.PrefixNotSegmentAware` | src/components/layout/Sidebar.tsx:124 | the test ignores segments: `/pipelineX` activates `/pipeline`; `/dashboardX` does not activate `/dashboard` |
| `NavRoutes.Flatten` | src/components/layout/Sidebar.tsx:113-121 | the rendered links are exactly the items of all sections |
| `NavRoutes.ActiveHrefs` | src/components/layout/Sidebar.tsx:121-124 | the highlighted hrefs are exactly those of listed items that the active rule accepts |
| `Sidebar.ItemLinks` | src/components/layout/Sidebar.tsx:121-137 | one link per item, in order; the highlighted links carry exactly the hrefs that `ActiveHrefs` selects for the same path |
| `Sidebar.SettingsActive` | src/components/layout/Sidebar.tsx:149-152 | the Settings rule is the shared active rule restricted to paths no longer than `/settings`, i.e. exact match only |
| `Sidebar.SidebarLinks` | src/components/layout/Sidebar.tsx:113-159 | the sidebar renders one link per section item plus Settings; the highlighted hrefs are the section items the active rule accepts, plus `/settings` exactly when the path is `/settings` |
| `Sidebar.ActiveIgnoresExpanded` | src/components/layout/Sidebar.tsx:122-137 | expanding or collapsing changes only label visibility; which links are highlighted depends on the path alone |
| `Sidebar.SettingsExactOnly` | src/components/layout/Sidebar.tsx:146-159 | the last link is Settings, highlighted iff the path is exactly `/settings`; `/settings/x` does not highlight it; since no section item has the href `/settings`, `/settings` is never among the section rule's highlighted hrefs |
| `Sidebar.PipelineQuotesActivatesBoth` | src/components/layout/Sidebar.tsx:33-34 | on `/pipeline/quotes` both "Submissions" (`/pipeline`) and "Quotes" are highlighted |
| `MobileNav.MobileActiveHrefs` | src/components/layout/MobileNav.tsx:116-127 | in the drawer, `/settings` is highlighted iff the path starts with `/settings`, and `/dashboard` iff the path is exactly `/dashboard` |
| `MobileNav.SettingsActiveByPrefix` | src/components/layout/MobileNav.tsx:57-60 | in the drawer any path extending `/settings` highlights Settings, while the sidebar's exact rule does not |
| `MobileNav.PipelineQuotesActivatesBoth` | src/components/layout/MobileNav.tsx:125-127 | two drawer links are active at once on `/pipeline/quotes` |
| `MobileNav.NextOpen` | src/components/layout/MobileNav.tsx:71-86 | after one event the drawer is open iff the event is the menu button or the dialog asking to open |
| `MobileNav.Run` | src/components/layout/MobileNav.tsx:65-132 | a series ending in a closing event leaves the drawer closed; after a series made only of closing events the drawer is open iff it was open before and the series is empty |
| `MobileNav.NextOpenIgnoresPrior` | src/components/layout/MobileNav.tsx:71-86 | the menu button always opens; nav link, logo, pointer-down outside and Escape always close; the dialog's own change sets what it asks for; the prior value never matters |
| `MobileNav.CloseIdempotent` | src/components/layout/MobileNav.tsx:82-86 | after a closing event any further closing event leaves the drawer closed |
| `MobileNav.RunIsLastEvent` | src/components/layout/MobileNav.tsx:65-132 | after a series of events the flag is decided by the last event alone (or is the initial value if there were none) |
| `MobileNav.MobileMenu.constructor` | src/components/layout/MobileNav.tsx:65 | the drawer starts closed |
| `MobileNav.MobileMenu.Handle` | src/components/layout/MobileNav.tsx:71-132 | one `setOpen` call: the new flag is the step function of the old flag and the event |
| `SidebarContext.SidebarProvider.constructor` | src/components/layout/sidebar-context.tsx:19 | `expanded` starts true |
| `SidebarContext.SidebarProvider.Toggle` | src/components/layout/sidebar-context.tsx:20 | `toggle` replaces `expanded` with its negation, which is one step of `Toggled`, and a consumer then reads the new flag through `useSidebar` |
| `SidebarContext.SidebarProvider.Value` | src/components/layout/sidebar-context.tsx:22-32 | a consumer inside the provider gets `useSidebar` success carrying the provider's current flag |
| `SidebarContext.Toggled` | src/components/layout/sidebar-context.tsx:20 | n toggles: two more toggles than n − 2 give the same flag |
| `SidebarContext.ToggledParity` | src/components/layout/sidebar-context.tsx:20 | after n toggles the flag is the original for even n and its negation for odd n |
| `SidebarContext.ToggleTwiceRestores` | src/components/layout/sidebar-context.tsx:20 | two toggles restore the original value; one changes it |
| `SidebarContext.UseSidebar` | src/components/layout/sidebar-context.tsx:28-32 | fails with the "must be used within SidebarProvider" error exactly when there is no provider; otherwise returns the provider's value unchanged |
| `ClientRiskScores.KeysAreIds` | src/lib/mock-data/client-risk-scores.ts:7-92 | the table's keys are exactly the ids cl-001 … cl-012 |
| `ClientRiskScores.AllWellScaled` | src/lib/mock-data/client-risk-scores.ts:3-92 | all five scores of every stored record lie in 0..100 |
| `ClientRiskScores.TableShape` | src/lib/mock-data/client-risk-scores.ts:7-92 | the table holds exactly 12 entries, keyed by cl-001 … cl-012, all on the 0–100 scale |
| `ClientRiskScores.GetClientRiskScores` | src/lib/mock-data/client-risk-scores.ts:94-96 | returns the stored record for a known id, which is then on the 0–100 scale, and `null` for an unknown id |
| `ClientRiskScores.LookupDomain` | src/lib/mock-data/client-risk-scores.ts:94-96 | the lookup answers exactly for the twelve listed ids |
| `SubmissionCard.ReplaceUnderscores` | src/components/broker/SubmissionCard.tsx:53 | the label has the input's length; each `_` becomes a space and every other character stays at its position |
| `SubmissionCard.LabelHasNoUnderscore` | src/components/broker/SubmissionCard.tsx:53 | the label contains no `_` and keeps every non-underscore character |
| `SubmissionCard.ReplaceUnderscoresIdempotent` | src/components/broker/SubmissionCard.tsx:53 | formatting twice equals formatting once |
| `SubmissionCard.CoverageLabel` | src/components/broker/SubmissionCard.tsx:53 | the shown coverage label has the coverage name's length and no `_` |
| `SubmissionCard.BadgeClass` | src/components/broker/SubmissionCard.tsx:42 | the class is the muted fallback exactly when the status is missing from the table, and otherwise one of the table's classes |
| `SubmissionCard.BadgeNeverFallsBack` | src/lib/status-colors.ts:4-16 | every submission status has a colour entry, so the card's badge is that entry and never the muted fallback |
| `SubmissionCard.BadgeFallbackForUnknown` | src/components/broker/SubmissionCard.tsx:42 | a status string missing from the table gets "bg-muted text-muted-foreground" |
| `SubmissionCard.RenderCard` | src/components/broker/SubmissionCard.tsx:34-61 | the card never shows the fallback badge, shows the status name and a coverage label without `_`, and has a "days open" line iff `daysOpen > 0` |
| `SubmissionCard.RenderCardFacts` | src/components/broker/SubmissionCard.tsx:34-61 | the card's badge comes from the table, its coverage label has no `_` and the name's length, and the "days open" line is shown iff `daysOpen > 0`, showing that count |
| `SubmissionCard.OnDragStart` | src/components/broker/SubmissionCard.tsx:14-32 | the payload (the submission, effect "move") is set iff `draggable` (default true) holds and a handler was passed |
| `SubmissionCard.DragNeedsBoth` | src/components/broker/SubmissionCard.tsx:26-31 | with dragging off or no handler nothing is written; with the default and a handler the payload is set |

## Left out

- Rendering is not modelled: JSX, CSS class strings other than the badge table, icons, images, and the section headings shown only while the sidebar is expanded.
- The current path is a parameter. Next.js `usePathname` and `Link` are foreign calls, and the route change a link click causes is not modelled.
- The Radix dialog is reduced to the `onOpenChange` calls it makes, as the `OpenChange` event. Its focus handling and animation are not modelled.
- The drawer's close button is the `OpenChange(false)` event; the dialog's own close logic is not modelled.
- `toggle` keeps a stable identity across renders through `useCallback`. React identity is not modelled; `toggle` is the provider's `Toggle` method.
- The drag handler's `dataTransfer.setData(JSON.stringify(...))` and `effectAllowed` are browser APIs. The model records the payload and effect as values and does not model JSON serialisation or the parent handler's behaviour.
- The amounts line divides by 1000 and formats with `toFixed(0)`. It is floating point and is not modelled.
- SubmissionCard.ReplaceUnderscores: the concrete labels (for example "ai content ip") are not proved as string constants; the label is characterised character by character instead.
- SubmissionCard.RenderCardFacts: `daysOpen`, `limitRequested` and `premiumIndication` are JavaScript numbers, modelled as integers; fractional, infinite or NaN values are not modelled.
- ClientRiskScores.GetClientRiskScores: the five scores are JavaScript numbers, modelled as integers; fractional values are not modelled.
- ClientRiskScores.GetClientRiskScores: the table is a finite map. A JavaScript object lookup can also return inherited members for keys such as "constructor". That divergence is not reproduced.
- Markets.BuildCells: the JavaScript `cells` array grown by `push` is a local sequence that is reassigned. With value semantics, the builder cannot modify the table or the axes and always returns a new list. That is automatic here rather than proved about aliasing.
- The static data files (people, processes, pricing, historic results, positioning, alerts) have no functions over them, so they are not modelled. Neither are the page components that hold pricing, quote comparison, SLA and filtering logic; they are not part of this model.
