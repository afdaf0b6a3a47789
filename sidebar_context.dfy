/** The sidebar's shared state of src/components/layout/sidebar-context.tsx:
    one `expanded` flag owned by the provider and flipped by `toggle`, and the
    `useSidebar` accessor that fails outside a provider. */
module SidebarContext {
  import opened Types

  const OUTSIDE_PROVIDER_MESSAGE := "useSidebar must be used within SidebarProvider"

  /** What the context carries. The `toggle` callback is the provider's
      Toggle method; only the flag is a value. */
  datatype SidebarContextValue = SidebarContextValue(expanded: bool)

  /** The value after `toggle` has run n times from `expanded`. */
  function Toggled(expanded: bool, n: nat): (r: bool)
    ensures n >= 2 ==> r == Toggled(expanded, n - 2)
  {
    if n == 0 then expanded else !Toggled(expanded, n - 1)
  }

  /** An even number of toggles restores the flag; an odd number inverts it. */
  lemma {:induction false} ToggledParity(expanded: bool, n: nat)
    ensures Toggled(expanded, n) == (if n % 2 == 0 then expanded else !expanded)
  {
    if n > 0 {
      ToggledParity(expanded, n - 1);
    }
  }

  /** Two toggles in a row restore the original value. */
  lemma ToggleTwiceRestores(expanded: bool)
    ensures Toggled(expanded, 2) == expanded
    ensures Toggled(expanded, 1) != expanded
  {
    ToggledParity(expanded, 2);
  }

  /** `SidebarProvider`: the state cell behind the context. */
  class SidebarProvider {
    var expanded: bool

    /** `useState(true)`: the sidebar starts expanded. */
    constructor ()
      ensures expanded
    {
      expanded := true;
    }

    /** `setExpanded((p) => !p)` */
    method Toggle()
      modifies this
      ensures expanded == !old(expanded) == Toggled(old(expanded), 1)
      ensures UseSidebar(Some(Value())) == Success(SidebarContextValue(Toggled(old(expanded), 1)))
    {
      expanded := !expanded;
    }

    /** The value the provider publishes to its subtree. */
    function Value(): (v: SidebarContextValue)
      reads this
      ensures UseSidebar(Some(v)) == Success(SidebarContextValue(expanded))
    {
      SidebarContextValue(expanded)
    }
  }

  /** `useSidebar()`: `None` stands for a component rendered outside any
      provider, where the hook throws; inside one it hands back the value
      unchanged. */
  function UseSidebar(ctx: Option<SidebarContextValue>): (r: Result<SidebarContextValue, string>)
    ensures r.Failure? <==> ctx.None?
    ensures r.Failure? ==> r.error == OUTSIDE_PROVIDER_MESSAGE
    ensures ctx.Some? ==> r == Success(ctx.value)
  {
    match ctx
    case None => Failure(OUTSIDE_PROVIDER_MESSAGE)
    case Some(v) => Success(v)
  }
}
