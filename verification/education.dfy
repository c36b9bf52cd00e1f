/** The `Education` Livewire component: one object holding the state of the order
    traits it uses (the clean/dirty order session and the collection-range guard) and
    its own draft education entry. Collaborators it cannot see are parameters: the
    store's update (`update`), the section sorter (`sort`), display formatting
    (`format`, `formatDraft`), the validators (`validateAll`, `validateOnly`), lookups
    whose absence aborts with 404 (`Option` arguments), and the identifier a new
    `Educator` receives (`freshId`). */
module EducationComponent {
  import opened OrderModel
  import opened MessageBags
  import opened ResourceDeletion
  import opened Navigation
  import opened CollectionRange
  import opened LiveValidation

  /** `Education::ROUTE_NAME`. */
  const RouteName := "order.education"
  /** The component's class, as `Services::SERVICES_TO_COMPONENTS` names it. */
  const ComponentClass := "App\\Http\\Livewire\\Services\\Education"
  const EducationSection := "education"

  datatype Severity = ErrorToast
  /** `$this->emit('toast', trans(messageKey), severity)`. */
  datatype Toast = Toast(messageKey: string, severity: Severity)
  const SaveOrderToast := Toast("order.errors.saveOrder", ErrorToast)

  /** A validator run: it passes, or it fails with its error bag. */
  datatype Validation = Passed | Failed(errors: Bag)

  /** What `getClean` / `getDirty` hand back: the order, or the draft educator. */
  datatype Snapshot = OrderSnapshot(order: Order) | DraftSnapshot(draft: Resource)

  /** A step that fetches something and aborts with 404 when it is missing. */
  datatype Fetch = Found | NotFound

  /** What the model needs of `ResourceSorter::sort`: it reorders the entries of each
      section and neither drops nor adds a section or an entry. */
  ghost predicate SortKeepsSections(sort: Order -> Order) {
    forall o: Order, name: string :: Section(o, name).Some? ==>
      Section(sort(o), name).Some? && multiset(Section(sort(o), name).value) == multiset(Section(o, name).value)
  }

  /** A sorter that leaves the order as it is keeps every section, so the hypothesis can be met. */
  lemma IdentityKeepsSections()
    ensures SortKeepsSections(o => o)
  {
  }

  /** `false !== strpos($propertyName, 'newEducator')`. */
  predicate IsDraftPath(path: string) {
    Contains(path, "newEducator")
  }

  class Education {
    // --- WithOrderable ---
    var order: Order
    var orderDirty: Order
    var orderClean: bool
    var errorBag: Bag
    var pages: seq<Page>
    /** `previousUrl`/`previousTitle` and `nextUrl`/`nextTitle`. */
    var previousLink: Link
    var nextLink: Link
    /** Toasts emitted to the browser, oldest first. */
    var toasts: seq<Toast>

    // --- Education ---
    var newEducator: Resource

    // --- WithCollectionRange ---
    var collectionOrderId: string
    var collectionService: string
    var collectionMin: int
    var collectionMax: int
    /** None while the introduction is still the initial ''. */
    var collectionIntro: Option<Intro>
    var collectionMaxMet: bool
    var collectionRangeConfirmed: bool
    var collectionType: CollectionType

    /** The property defaults a new component starts from. */
    constructor ()
      ensures orderClean && errorBag == map[] && pages == [] && toasts == []
      ensures previousLink == Link("", "") && nextLink == Link("", "")
      ensures collectionService == "" && collectionMin == 0 && collectionMax == 0
      ensures collectionIntro.None? && !collectionMaxMet && !collectionRangeConfirmed && collectionType == MinMax
    {
      order := Order("", "", [], map[]);
      orderDirty := Order("", "", [], map[]);
      orderClean := true;
      errorBag := map[];
      pages := [];
      previousLink, nextLink := Link("", ""), Link("", "");
      toasts := [];
      newEducator := DefaultEducator("");
      collectionOrderId, collectionService := "", "";
      collectionMin, collectionMax := 0, 0;
      collectionIntro := None;
      collectionMaxMet, collectionRangeConfirmed := false, false;
      collectionType := MinMax;
    }

    // =========================================================================
    // Clean/dirty order session (WithOrderable)

    /** The state `saveOrder` leaves after sending `sent` to the store: the dirty copy is
        sorted whatever happens; success promotes it to clean, failure keeps the old clean
        order and flag and emits one error toast. */
    twostate predicate SavedAs(sent: Order, update: Order -> bool, sort: Order -> Order, status: bool)
      reads this
    {
      && status == update(sent)
      && orderDirty == sort(sent)
      && (status ==> order == orderDirty && orderClean && toasts == old(toasts))
      && (!status ==> order == old(order) && orderClean == old(orderClean) && toasts == old(toasts) + [SaveOrderToast])
    }

    /** `saveOrder`. */
    method SaveOrder(update: Order -> bool, sort: Order -> Order) returns (status: bool)
      modifies this`order, this`orderDirty, this`orderClean, this`toasts
      ensures SavedAs(old(orderDirty), update, sort, status)
    {
      var updated := update(orderDirty);
      orderDirty := sort(orderDirty);
      if updated {
        order := orderDirty;
        orderClean := true;
      } else {
        toasts := toasts + [SaveOrderToast];
      }
      status := updated;
    }

    /** `getClean`, as `Education` overrides it: for a draft path a default educator that
        carries the draft's identifier, otherwise the clean order. */
    function GetClean(path: string): (r: Snapshot)
      reads this
      ensures r.DraftSnapshot? <==> IsDraftPath(path)
      ensures r.DraftSnapshot? ==>
                r.draft.kind == EducatorKind && Key(r.draft) == Some(EducationId(newEducator)) &&
                forall i :: 1 <= i < |r.draft.attrs| ==> r.draft.attrs[i].value == ""
      ensures r.OrderSnapshot? ==> r.order == order
    {
      if IsDraftPath(path) then DraftSnapshot(DefaultEducator(EducationId(newEducator)))
      else OrderSnapshot(order)
    }

    /** `getDirty`, as `Education` overrides it: the draft for a draft path, otherwise the dirty order. */
    function GetDirty(path: string): (r: Snapshot)
      reads this
      ensures r.DraftSnapshot? <==> IsDraftPath(path)
      ensures r.DraftSnapshot? ==> r.draft == newEducator
      ensures r.OrderSnapshot? ==> r.order == orderDirty
    {
      if IsDraftPath(path) then DraftSnapshot(newEducator) else OrderSnapshot(orderDirty)
    }

    /** `updatedWithOrderable`: after a field update, the clean flag is value equality of the
        whole dirty and clean objects the path selects. */
    method UpdatedWithOrderable(path: string, format: Order -> Order)
      modifies this`orderDirty, this`orderClean
      ensures orderDirty == if Before(path, '.') == "orderDirty" then format(old(orderDirty)) else old(orderDirty)
      ensures orderClean == (GetDirty(path) == GetClean(path))
      ensures IsDraftPath(path) ==> (orderClean <==> newEducator == DefaultEducator(EducationId(newEducator)))
      ensures !IsDraftPath(path) ==> (orderClean <==> orderDirty == order)
    {
      if Before(path, '.') == "orderDirty" {
        orderDirty := format(orderDirty);
      }
      orderClean := GetDirty(path) == GetClean(path);
    }

    /** `cancelChanges` of WithOrderable (`cancelOrderableChanges` in `Education`). */
    method CancelOrderableChanges() returns (status: bool)
      modifies this`orderDirty, this`orderClean
      ensures status && orderDirty == order && orderClean
    {
      orderDirty := order;
      orderClean := true;
      status := true;
    }

    /** `renderingWithOrderable`: the bag is rebuilt from a full validation of the dirty order;
        when that fails, the messages that stood before the render are merged back in. */
    method RenderingWithOrderable(validateAll: Order -> Validation)
      modifies this`errorBag
      ensures validateAll(orderDirty).Passed? ==> errorBag == map[]
      ensures validateAll(orderDirty).Failed? ==> errorBag == Merge(validateAll(orderDirty).errors, old(errorBag))
      ensures validateAll(orderDirty).Failed? ==>
                forall k, m :: k in old(errorBag) && m in old(errorBag)[k] ==> k in errorBag && m in errorBag[k]
    {
      var newFormErrors := errorBag;
      errorBag := map[];
      var outcome := validateAll(orderDirty);
      if outcome.Failed? {
        errorBag := outcome.errors;
        errorBag := Merge(errorBag, newFormErrors);
      }
    }

    /** `deleteResource`: remove the first entry of class `kind` keyed `id` from the dirty
        order and save; when there is none, nothing is saved and nothing changes. */
    method DeleteResource(kind: string, id: string, update: Order -> bool, sort: Order -> Order)
      returns (status: bool)
      modifies this`order, this`orderDirty, this`orderClean, this`toasts
      ensures !OrderHas(old(orderDirty), kind, id) ==>
                !status && orderDirty == old(orderDirty) && order == old(order) &&
                orderClean == old(orderClean) && toasts == old(toasts)
      ensures OrderHas(old(orderDirty), kind, id) ==>
                SavedAs(RemoveFromOrder(old(orderDirty), kind, id), update, sort, status)
    {
      var pruned;
      pruned, status := DeleteFromOrder(orderDirty, kind, id);
      if status {
        orderDirty := pruned;
        status := SaveOrder(update, sort);
      }
    }

    /** `populate`: take the page list and, unless this component's route is one of the
        non-service pages, set the previous and next links from it. */
    method Populate(settingsPages: seq<Page>, nonServiceRoutes: seq<string>)
      requires RouteName in nonServiceRoutes || HasRoute(settingsPages, RouteName)
      modifies this`pages, this`previousLink, this`nextLink
      ensures pages == settingsPages
      ensures RouteName in nonServiceRoutes ==> previousLink == old(previousLink) && nextLink == old(nextLink)
      ensures RouteName !in nonServiceRoutes ==>
                previousLink == GetNavigation(pages, RouteName, NavigationPrevious) &&
                nextLink == GetNavigation(pages, RouteName, NavigationNext)
    {
      pages := settingsPages;
      if RouteName !in nonServiceRoutes {
        previousLink := GetNavigation(pages, RouteName, NavigationPrevious);
        nextLink := GetNavigation(pages, RouteName, NavigationNext);
      }
    }

    /** `loadOrderable`: fetch the order (404 when missing), format and sort it, copy it to
        the dirty order, fetch the invitation (404 when missing) and populate. */
    method LoadOrderable(found: Option<Order>, invitationFound: bool, format: Order -> Order, sort: Order -> Order,
                         settingsPages: seq<Page>, nonServiceRoutes: seq<string>)
      returns (status: Fetch)
      requires found.Some? && invitationFound ==> RouteName in nonServiceRoutes || HasRoute(settingsPages, RouteName)
      modifies this`pages, this`order, this`orderDirty, this`previousLink, this`nextLink
      ensures status == Found <==> found.Some? && invitationFound
      ensures found.None? ==> order == old(order) && orderDirty == old(orderDirty)
      ensures found.Some? ==> order == sort(format(found.value)) && orderDirty == order
      ensures status == NotFound ==> pages == [] && previousLink == old(previousLink) && nextLink == old(nextLink)
      ensures status == Found ==> pages == settingsPages
      ensures status == Found && RouteName in nonServiceRoutes ==>
                previousLink == old(previousLink) && nextLink == old(nextLink)
      ensures status == Found && RouteName !in nonServiceRoutes ==>
                previousLink == GetNavigation(pages, RouteName, NavigationPrevious) &&
                nextLink == GetNavigation(pages, RouteName, NavigationNext)
    {
      pages := [];
      if found.None? {
        return NotFound;
      }
      order := sort(format(found.value));
      orderDirty := order;
      if !invitationFound {
        return NotFound;
      }
      Populate(settingsPages, nonServiceRoutes);
      status := Found;
    }

    // =========================================================================
    // Draft new entry (Education)

    /** `mount`: load the order, then start a blank draft. */
    method Mount(found: Option<Order>, invitationFound: bool, format: Order -> Order, sort: Order -> Order,
                 settingsPages: seq<Page>, nonServiceRoutes: seq<string>, freshId: string)
      returns (status: Fetch)
      requires found.Some? && invitationFound ==> RouteName in nonServiceRoutes || HasRoute(settingsPages, RouteName)
      modifies this`pages, this`order, this`orderDirty, this`previousLink, this`nextLink, this`newEducator
      ensures status == Found <==> found.Some? && invitationFound
      ensures found.None? ==> order == old(order) && orderDirty == old(orderDirty)
      ensures found.Some? ==> order == sort(format(found.value)) && orderDirty == order
      ensures status == Found ==> pages == settingsPages && newEducator == DefaultEducator(freshId)
      ensures status == Found && RouteName in nonServiceRoutes ==>
                previousLink == old(previousLink) && nextLink == old(nextLink)
      ensures status == Found && RouteName !in nonServiceRoutes ==>
                previousLink == GetNavigation(pages, RouteName, NavigationPrevious) &&
                nextLink == GetNavigation(pages, RouteName, NavigationNext)
      ensures status == NotFound ==>
                pages == [] && previousLink == old(previousLink) && nextLink == old(nextLink) &&
                newEducator == old(newEducator)
    {
      status := LoadOrderable(found, invitationFound, format, sort, settingsPages, nonServiceRoutes);
      if status == Found {
        var _ := ResetNewEducator(freshId);
      }
    }

    /** `resetNewEducator`: the draft becomes a fresh default educator. */
    method ResetNewEducator(freshId: string) returns (status: bool)
      modifies this`newEducator
      ensures status && newEducator == DefaultEducator(freshId)
    {
      newEducator := DefaultEducator(freshId);
      status := true;
    }

    /** `saveNewEducator`: push the draft onto the dirty education list and save; only a
        successful save resets the draft, and nothing takes the pushed entry back out. */
    method SaveNewEducator(update: Order -> bool, sort: Order -> Order, freshId: string) returns (status: bool)
      requires Section(orderDirty, EducationSection).Some?
      modifies this`order, this`orderDirty, this`orderClean, this`toasts, this`newEducator
      ensures var sent := AppendToSection(old(orderDirty), EducationSection, old(newEducator));
              Section(sent, EducationSection) == Some(Section(old(orderDirty), EducationSection).value + [old(newEducator)]) &&
              SavedAs(sent, update, sort, status)
      ensures status ==> newEducator == DefaultEducator(freshId)
      ensures !status ==> newEducator == old(newEducator)
      ensures SortKeepsSections(sort) ==>
                Section(orderDirty, EducationSection).Some? && old(newEducator) in Section(orderDirty, EducationSection).value
      ensures SortKeepsSections(sort) && status ==>
                Section(order, EducationSection).Some? && old(newEducator) in Section(order, EducationSection).value
    {
      var entry := newEducator;
      var sent := AppendToSection(orderDirty, EducationSection, entry);
      orderDirty := sent;
      status := SaveOrder(update, sort);
      if SortKeepsSections(sort) {
        var items := Section(sent, EducationSection).value;
        assert items == Section(old(orderDirty), EducationSection).value + [entry];
        assert entry in multiset(items);
      }
      if status {
        status := ResetNewEducator(freshId);
      }
    }

    /** `updatedNewEducator`: validate the draft's non-blank fields and the edited one; a
        failure replaces the whole error bag, a pass leaves it as it was. */
    method UpdatedNewEducator(name: string, formatDraft: Resource -> Resource,
                              validateOnly: (Resource, seq<string>) -> Validation)
      modifies this`newEducator, this`errorBag
      ensures newEducator == formatDraft(old(newEducator))
      ensures var outcome := validateOnly(newEducator, LiveAttributeList(newEducator, name));
              errorBag == if outcome.Failed? then outcome.errors else old(errorBag)
    {
      newEducator := formatDraft(newEducator);
      var attributes := LiveAttributes(newEducator, name);
      var outcome := validateOnly(newEducator, attributes);
      if outcome.Failed? {
        errorBag := outcome.errors;
      }
    }

    /** `cancelChanges`, as `Education` overrides it: reset the draft, then cancel the order's changes. */
    method CancelChanges(freshId: string) returns (status: bool)
      modifies this`newEducator, this`orderDirty, this`orderClean
      ensures status && newEducator == DefaultEducator(freshId)
      ensures orderDirty == order && orderClean
    {
      status := ResetNewEducator(freshId);
      if status {
        status := CancelOrderableChanges();
      }
    }

    // =========================================================================
    // Collection-range guard (WithCollectionRange)

    method SetCollectionTypeToYears()
      modifies this`collectionType
      ensures collectionType == Years
    {
      collectionType := Years;
    }

    method SetCollectionTypeToMinMax()
      modifies this`collectionType
      ensures collectionType == MinMax
    {
      collectionType := MinMax;
    }

    /** `setCollectionRange`: fetch the order and its requirements (404 when either is
        missing), load the gap confirmation, and take the bounds from the requirements. */
    method SetCollectionRange(found: Option<Order>, requirements: Option<Requirements>) returns (status: Fetch)
      requires found.Some? && requirements.Some? ==> collectionService in found.value.confirmedGaps
      modifies this`collectionMin, this`collectionMax, this`collectionRangeConfirmed
      ensures status == Found <==> found.Some? && requirements.Some?
      ensures status == NotFound ==>
                collectionMin == old(collectionMin) && collectionMax == old(collectionMax) &&
                collectionRangeConfirmed == old(collectionRangeConfirmed)
      ensures status == Found ==>
                collectionRangeConfirmed == found.value.confirmedGaps[collectionService] &&
                (collectionMin, collectionMax) ==
                  RangeFor(requirements.value.components, collectionService, old(collectionMin), old(collectionMax))
    {
      if found.None? || requirements.None? {
        return NotFound;
      }
      collectionRangeConfirmed := found.value.confirmedGaps[collectionService];
      var range := RangeFor(requirements.value.components, collectionService, collectionMin, collectionMax);
      collectionMin, collectionMax := range.0, range.1;
      status := Found;
    }

    /** `setIntroContent`: assign the introduction the bounds call for, or leave it. */
    method SetIntroContent()
      modifies this`collectionIntro
      ensures IntroFor(collectionType, collectionService, collectionMin, collectionMax).None? ==>
                collectionIntro == old(collectionIntro)
      ensures IntroFor(collectionType, collectionService, collectionMin, collectionMax).Some? ==>
                collectionIntro == IntroFor(collectionType, collectionService, collectionMin, collectionMax)
    {
      var intro := IntroFor(collectionType, collectionService, collectionMin, collectionMax);
      if intro.Some? {
        collectionIntro := intro;
      }
    }

    /** `mountWithCollectionRange`: remember the order, pick the service from the component
        table when none was set, then read the range and the introduction. */
    method MountWithCollectionRange(orderId: string, table: seq<ServiceComponent>,
                                    found: Option<Order>, requirements: Option<Requirements>)
      returns (status: Fetch)
      requires IsEmptyString(collectionService) ==> ServiceFor(table, ComponentClass).Some?
      requires found.Some? && requirements.Some? ==>
                 (if IsEmptyString(collectionService) then ServiceFor(table, ComponentClass).value else collectionService)
                   in found.value.confirmedGaps
      modifies this`collectionOrderId, this`collectionService, this`collectionMin, this`collectionMax,
               this`collectionRangeConfirmed, this`collectionIntro
      ensures collectionOrderId == orderId
      ensures collectionService ==
                if IsEmptyString(old(collectionService)) then ServiceFor(table, ComponentClass).value else old(collectionService)
      ensures status == Found <==> found.Some? && requirements.Some?
      ensures status == NotFound ==>
                collectionMin == old(collectionMin) && collectionMax == old(collectionMax) &&
                collectionRangeConfirmed == old(collectionRangeConfirmed) && collectionIntro == old(collectionIntro)
      ensures status == Found ==>
                collectionRangeConfirmed == found.value.confirmedGaps[collectionService] &&
                (collectionMin, collectionMax) ==
                  RangeFor(requirements.value.components, collectionService, old(collectionMin), old(collectionMax)) &&
                collectionIntro ==
                  var intro := IntroFor(collectionType, collectionService, collectionMin, collectionMax);
                  if intro.Some? then intro else old(collectionIntro)
    {
      collectionOrderId := orderId;
      if IsEmptyString(collectionService) {
        collectionService := ServiceFor(table, ComponentClass).value;
      }
      status := SetCollectionRange(found, requirements);
      if status == Found {
        SetIntroContent();
      }
    }

    /** `renderingWithCollectionRange`: the maximum is met when it is non-empty and the stored
        order's section already holds that many entries. */
    method RenderingWithCollectionRange(found: Option<Order>) returns (status: Fetch)
      requires found.Some? ==> Section(found.value, collectionService).Some?
      modifies this`collectionMaxMet
      ensures status == Found <==> found.Some?
      ensures status == NotFound ==> collectionMaxMet == old(collectionMaxMet)
      ensures status == Found ==> collectionMaxMet == MaxMet(|Section(found.value, collectionService).value|, collectionMax)
      ensures collectionMax == 0 ==> collectionMaxMet == (status == NotFound && old(collectionMaxMet))
    {
      if found.None? {
        return NotFound;
      }
      collectionMaxMet := false;
      if collectionMax != 0 {
        if |Section(found.value, collectionService).value| >= collectionMax {
          collectionMaxMet := true;
        }
      }
      status := Found;
    }

    /** `updatedCollectionRangeConfirmed`: Livewire has already set the toggle to `value`;
        store it on the stored order and, when the store refuses, flip the toggle back and
        emit an error toast. */
    method UpdatedCollectionRangeConfirmed(value: bool, found: Option<Order>, update: Order -> bool)
      returns (status: Fetch)
      requires collectionRangeConfirmed == value
      requires found.Some? ==> collectionService in found.value.confirmedGaps
      modifies this`collectionRangeConfirmed, this`toasts
      ensures status == Found <==> found.Some?
      ensures status == NotFound ==> collectionRangeConfirmed == value && toasts == old(toasts)
      ensures status == Found ==>
                var sent := found.value.(confirmedGaps := found.value.confirmedGaps[collectionService := value]);
                if update(sent) then collectionRangeConfirmed == value && toasts == old(toasts)
                else collectionRangeConfirmed == !value && toasts == old(toasts) + [SaveOrderToast]
    {
      if found.None? {
        return NotFound;
      }
      var sent := found.value.(confirmedGaps := found.value.confirmedGaps[collectionService := value]);
      if !update(sent) {
        collectionRangeConfirmed := !value;
        toasts := toasts + [SaveOrderToast];
      }
      status := Found;
    }
  }

  /** A draft path compares clean exactly when the draft is still a default educator. */
  lemma DraftComparison(c: Education, path: string)
    requires IsDraftPath(path)
    ensures c.GetDirty(path) == c.GetClean(path) <==> c.newEducator == DefaultEducator(EducationId(c.newEducator))
  {
  }

  /** A freshly reset draft compares clean, whatever identifier it was given. */
  lemma FreshDraftIsClean(c: Education, path: string, freshId: string)
    requires IsDraftPath(path)
    requires c.newEducator == DefaultEducator(freshId)
    ensures c.GetDirty(path) == c.GetClean(path)
  {
    assert FirstAttrAt(c.newEducator.attrs, EducatorKey, 0);
  }
}
