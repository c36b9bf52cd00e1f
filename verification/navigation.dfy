/** Previous/next links of a service page: the page one step before or after the
    current one in the order's page list, or the application summary when there is none. */
module Navigation {
  import opened OrderModel

  /** One entry of the order's page list (`pages`); the completion counters are not modelled. */
  datatype Page = Page(service: string, step: int, route: string, titleAlias: string)

  /** A navigation target: the route name (the URL is that route for the order) and the title. */
  datatype Link = Link(route: string, title: string)

  const SummaryRoute := "order.application-summary"
  /** Translation key of the summary page's title. */
  const SummaryTitle := "order.summary.title"
  const NavigationPrevious := -1
  const NavigationNext := 1

  const SummaryLink := Link(SummaryRoute, SummaryTitle)

  predicate HasRoute(pages: seq<Page>, route: string) {
    exists i :: 0 <= i < |pages| && pages[i].route == route
  }

  predicate HasStep(pages: seq<Page>, step: int) {
    exists i :: 0 <= i < |pages| && pages[i].step == step
  }

  /** `k` is the first page on `route` (`firstWhere('route', ...)`). */
  predicate FirstRouteAt(pages: seq<Page>, route: string, k: int) {
    0 <= k < |pages| && pages[k].route == route &&
    forall j :: 0 <= j < k ==> pages[j].route != route
  }

  /** `k` is the first page at `step` (`firstWhere('step', ...)`). */
  predicate FirstStepAt(pages: seq<Page>, step: int, k: int) {
    0 <= k < |pages| && pages[k].step == step &&
    forall j :: 0 <= j < k ==> pages[j].step != step
  }

  function RouteIndex(pages: seq<Page>, route: string): (k: nat)
    requires HasRoute(pages, route)
    ensures FirstRouteAt(pages, route, k)
  {
    if pages[0].route == route then 0
    else
      assert HasRoute(pages[1..], route) by {
        var i :| 0 <= i < |pages| && pages[i].route == route;
        assert pages[1..][i - 1].route == route;
      }
      1 + RouteIndex(pages[1..], route)
  }

  function StepIndex(pages: seq<Page>, step: int): (r: Option<nat>)
    ensures r.None? <==> !HasStep(pages, step)
    ensures r.Some? ==> FirstStepAt(pages, step, r.value)
  {
    if pages == [] then None
    else if pages[0].step == step then Some(0)
    else
      assert HasStep(pages, step) ==> HasStep(pages[1..], step) by {
        if HasStep(pages, step) {
          var i :| 0 <= i < |pages| && pages[i].step == step;
          assert pages[1..][i - 1].step == step;
        }
      }
      match StepIndex(pages[1..], step)
      case None => None
      case Some(k) => Some(k + 1)
  }

  /** The step of the current page. */
  function CurrentStep(pages: seq<Page>, route: string): int
    requires HasRoute(pages, route)
  {
    pages[RouteIndex(pages, route)].step
  }

  /** `getNavigation(increment)` for the page on `route`. */
  function GetNavigation(pages: seq<Page>, route: string, increment: int): (nav: Link)
    requires HasRoute(pages, route)
    ensures forall c, t :: FirstRouteAt(pages, route, c) && FirstStepAt(pages, pages[c].step + increment, t) ==>
              nav == Link(pages[t].route, pages[t].titleAlias)
    ensures forall c :: FirstRouteAt(pages, route, c) && !HasStep(pages, pages[c].step + increment) ==>
              nav == SummaryLink
  {
    var c := RouteIndex(pages, route);
    FirstRouteUnique(pages, route, c);
    match StepIndex(pages, CurrentStep(pages, route) + increment)
    case Some(t) =>
      FirstStepUnique(pages, CurrentStep(pages, route) + increment, t);
      Link(pages[t].route, pages[t].titleAlias)
    case None => SummaryLink
  }

  lemma FirstRouteUnique(pages: seq<Page>, route: string, c: int)
    requires FirstRouteAt(pages, route, c)
    ensures forall c' :: FirstRouteAt(pages, route, c') ==> c' == c
  {
  }

  lemma FirstStepUnique(pages: seq<Page>, step: int, t: int)
    requires FirstStepAt(pages, step, t)
    ensures forall t' :: FirstStepAt(pages, step, t') ==> t' == t
  {
  }

  predicate DistinctRoutes(pages: seq<Page>) {
    forall i, j :: 0 <= i < j < |pages| ==> pages[i].route != pages[j].route
  }

  predicate DistinctSteps(pages: seq<Page>) {
    forall i, j :: 0 <= i < j < |pages| ==> pages[i].step != pages[j].step
  }

  /** With one page per route and per step, "next" from a page and then "previous" from
      where it led come back to the page itself. */
  lemma NextThenPrevious(pages: seq<Page>, a: nat, b: nat)
    requires DistinctRoutes(pages) && DistinctSteps(pages)
    requires a < |pages| && b < |pages|
    requires pages[b].step == pages[a].step + NavigationNext
    ensures GetNavigation(pages, pages[a].route, NavigationNext) == Link(pages[b].route, pages[b].titleAlias)
    ensures GetNavigation(pages, pages[b].route, NavigationPrevious) == Link(pages[a].route, pages[a].titleAlias)
  {
    assert FirstRouteAt(pages, pages[a].route, a);
    assert FirstRouteAt(pages, pages[b].route, b);
    assert FirstStepAt(pages, pages[a].step + NavigationNext, b);
    assert FirstStepAt(pages, pages[b].step + NavigationPrevious, a);
  }

  /** A page with no successor leads "next" to the summary, however the list is ordered. */
  lemma LastPageLeadsToSummary(pages: seq<Page>, a: nat)
    requires a < |pages| && DistinctRoutes(pages)
    requires forall i :: 0 <= i < |pages| ==> pages[i].step <= pages[a].step
    ensures GetNavigation(pages, pages[a].route, NavigationNext) == SummaryLink
  {
    assert FirstRouteAt(pages, pages[a].route, a);
  }
}
