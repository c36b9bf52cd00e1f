/** Rules of the collection-range guard: which service a component belongs to, the
    minimum and maximum entry counts taken from the requirements, whether the maximum
    is met, and which introduction template (with which plural count) is shown. */
module CollectionRange {
  import opened OrderModel

  /** `Order::COLLECTION_YEARS` ('Y') or `Order::COLLECTION_MIN_MAX` ('M'). */
  datatype CollectionType = Years | MinMax

  /** One requirement component: service name and its min/max entry counts (absent or null read as 0). */
  datatype RangeComponent = RangeComponent(name: string, min: int, max: int)

  datatype Requirements = Requirements(components: seq<RangeComponent>)

  /** One entry of `Services::SERVICES_TO_COMPONENTS`: service name to component class. */
  datatype ServiceComponent = ServiceComponent(service: string, component: string)

  /** A translated introduction: `trans_choice(key, count, replace)`. */
  datatype Intro = Intro(key: string, count: int, replace: map<string, int>)

  // ---------------------------------------------------------------------------
  // Service of a component: `array_flip(SERVICES_TO_COMPONENTS)[class]`

  /** `k` is the last table entry for component `cls`; on duplicate values `array_flip` keeps the last key. */
  predicate LastComponentAt(table: seq<ServiceComponent>, cls: string, k: int) {
    0 <= k < |table| && table[k].component == cls &&
    forall j :: k < j < |table| ==> table[j].component != cls
  }

  function ServiceFor(table: seq<ServiceComponent>, cls: string): (r: Option<string>)
    ensures r.None? <==> forall i :: 0 <= i < |table| ==> table[i].component != cls
    ensures forall k :: LastComponentAt(table, cls, k) ==> r == Some(table[k].service)
  {
    if table == [] then None
    else
      var rest := ServiceFor(table[1..], cls);
      assert forall k :: 1 <= k && LastComponentAt(table, cls, k) ==> LastComponentAt(table[1..], cls, k - 1);
      assert forall k :: LastComponentAt(table[1..], cls, k) ==> LastComponentAt(table, cls, k + 1);
      if rest.Some? then rest
      else if table[0].component == cls then Some(table[0].service)
      else None
  }

  /** When each component class appears once, flipping the table maps every component back to its service. */
  lemma {:induction false} FlipRoundTrip(table: seq<ServiceComponent>, i: nat)
    requires i < |table|
    requires forall a, b :: 0 <= a < b < |table| ==> table[a].component != table[b].component
    ensures ServiceFor(table, table[i].component) == Some(table[i].service)
  {
    assert LastComponentAt(table, table[i].component, i);
  }

  // ---------------------------------------------------------------------------
  // The range: `setCollectionRange`

  /** `k` is the first component named `service` (`where('name', ...)->first()`). */
  predicate FirstComponentAt(components: seq<RangeComponent>, service: string, k: int) {
    0 <= k < |components| && components[k].name == service &&
    forall j :: 0 <= j < k ==> components[j].name != service
  }

  function ComponentIndex(components: seq<RangeComponent>, service: string): (r: Option<nat>)
    ensures r.None? <==> forall i :: 0 <= i < |components| ==> components[i].name != service
    ensures r.Some? ==> FirstComponentAt(components, service, r.value)
  {
    if components == [] then None
    else if components[0].name == service then Some(0)
    else match ComponentIndex(components[1..], service)
      case None => None
      case Some(k) => Some(k + 1)
  }

  /** The (min, max) pair after `setCollectionRange`, starting from `(min0, max0)`: the service's
      component overwrites both bounds when either is non-empty, else the bounds stay. */
  function RangeFor(components: seq<RangeComponent>, service: string, min0: int, max0: int): (r: (int, int))
    ensures forall k :: FirstComponentAt(components, service, k) && (components[k].min != 0 || components[k].max != 0) ==>
              r == (components[k].min, components[k].max)
    ensures forall k :: FirstComponentAt(components, service, k) && components[k].min == 0 && components[k].max == 0 ==>
              r == (min0, max0)
    ensures (forall i :: 0 <= i < |components| ==> components[i].name != service) ==> r == (min0, max0)
  {
    match ComponentIndex(components, service)
    case None => (min0, max0)
    case Some(k) =>
      assert forall k' :: FirstComponentAt(components, service, k') ==> k' == k;
      var c := components[k];
      if c.min != 0 || c.max != 0 then (c.min, c.max) else (min0, max0)
  }

  /** Reading the requirements never turns non-zero bounds into (0, 0): a zero pair only comes from a zero pair. */
  lemma RangeKeepsNonZero(components: seq<RangeComponent>, service: string, min0: int, max0: int)
    requires min0 != 0 || max0 != 0
    ensures RangeFor(components, service, min0, max0) != (0, 0)
  {
    var r := RangeFor(components, service, min0, max0);
    match ComponentIndex(components, service)
    case None =>
    case Some(k) =>
      assert FirstComponentAt(components, service, k);
  }

  // ---------------------------------------------------------------------------
  // The maximum: `renderingWithCollectionRange`

  /** `collectionMaxMet` for a section of `count` entries and maximum `max` (an empty maximum is never met). */
  predicate MaxMet(count: nat, max: int) {
    max != 0 && count >= max
  }

  // ---------------------------------------------------------------------------
  // The introduction: `setIntroContent`

  function IntroKey(service: string, variant: string): string {
    "order." + service + ".introduction" + variant
  }

  /** The introduction `setIntroContent` assigns, or None when it leaves the current one. */
  function IntroFor(ctype: CollectionType, service: string, min: int, max: int): (r: Option<Intro>)
    ensures r.None? <==> (ctype == Years && min <= 0) || (ctype == MinMax && min == 0 && max == 0)
    ensures r.Some? ==> r.value.count != 0
    ensures r.Some? && ctype == Years ==> r.value == Intro(IntroKey(service, ""), min, map[])
    ensures r.Some? && ctype == MinMax ==>
              r.value.replace == map["min" := min, "max" := max] &&
              r.value.count == (if max != 0 then max else min) &&
              r.value.key == IntroKey(service, if min == 0 then ".max_only" else if max == 0 then ".min_only" else ".min_max")
  {
    match ctype
    case Years =>
      if min > 0 then Some(Intro(IntroKey(service, ""), min, map[])) else None
    case MinMax =>
      if min != 0 || max != 0 then
        var replace := map["min" := min, "max" := max];
        if min == 0 then Some(Intro(IntroKey(service, ".max_only"), max, replace))
        else if max == 0 then Some(Intro(IntroKey(service, ".min_only"), min, replace))
        else Some(Intro(IntroKey(service, ".min_max"), max, replace))
      else None
  }
}
