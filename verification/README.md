# Education order-editing component, modelled in Dafny

This project models the state behind one page of an order wizard: the `Education`
Livewire component. The component keeps three pieces of state.

- **The clean/dirty order session** (trait `WithOrderable`). There is a persisted order
  (`order`), a working copy (`orderDirty`) and an `orderClean` flag. Save promotes the
  working copy. Cancel re-copies the clean order. A field update recomputes the flag by
  value equality. Deletion removes the first entry with a given class and key, then saves.
  Render rebuilds the error bag from a full validation. Previous/next links come from the
  order's page list.
- **The collection-range guard** (trait `WithCollectionRange`). It holds the min/max entry
  counts taken from the invitation's requirements and whether the maximum is met. It picks
  the introduction template and its plural count. It keeps the "gaps confirmed" toggle and
  rolls the toggle back when the store refuses it.
- **The draft new entry** (class `Education`). `newEducator` is a second clean/dirty pair.
  Saving appends the draft to the dirty education list and saves the order. Every edit runs
  live validation on the draft's filled-in fields plus the field just edited.

Files:

- `order_model.dfy`: orders, sections and resources as immutable values, plus property lookup.
- `message_bag.dfy`: the error bag and its merge.
- `deletion.dfy`: `deleteResource` / `deleteResourceFromCollection` as loops over values,
  specified by first-match removal functions.
- `navigation.dfy`: `getNavigation`.
- `collection_range.dfy`: the service lookup, range, maximum and introduction rules.
- `live_validation.dfy`: the live-validation attribute list.
- `education.dfy`: the component as a class.

The component is one `class Education`, because PHP traits mix into a single object. Its
fields are those of the three source files. Its methods update them in place.

Collaborators the model cannot see are parameters of the methods that use them:

| collaborator | parameter |
|---|---|
| `OrderService::update` | `update: Order -> bool` |
| `ResourceSorter::sort` | `sort: Order -> Order` |
| `formatForDisplay` | `format`, `formatDraft` |
| `OrderValidator` | `validateAll`, `validateOnly`, each returning `Passed` or `Failed(bag)` |
| `find`, `findRequirements` | `Option` arguments, where `None` is the `abort(404)` path (`NotFound`) |
| `SERVICES_TO_COMPONENTS` | the `table` argument |
| non-service route names | the `nonServiceRoutes` argument |
| identifier of a new `Educator` | `freshId` |

Translation and routing are kept as keys: an introduction is the template key, the plural
count and the replacements; a link is a route name and a title.

Behaviour the model keeps from the code:

- A render keeps the messages that stood before it only when full validation FAILS. When
  full validation passes, the bag is emptied, draft-form errors included.
- Live validation of the draft replaces the whole error bag. It does not merge per path.
- `saveOrder` runs the sorter over the dirty order even when the store refuses the save.
- `collectionMaxMet` counts the entries of the order as fetched from the store, not of
  the dirty copy. Any non-zero maximum takes part, negative ones included.
- A failed `saveNewEducator` leaves the pushed draft in the dirty education list, so a
  second attempt pushes it again.

The sorter is an arbitrary function. Where a contract needs the sorter to keep every
section and its entries (reordering them only), it assumes so through the hypothesis
`SortKeepsSections`.

## Model

| member | source | states |
|---|---|---|
| `EducationComponent.Education.SaveOrder` | App/Traits/WithOrderable.php:213-227 | The store gets the dirty order and the dirty order is sorted either way. On success, `order` equals the new dirty order, `orderClean` is true and the result is true. On failure, `order` and `orderClean` keep their old values, exactly one error toast is emitted and the result is false. |
| `EducationComponent.Education.CancelOrderableChanges` | App/Traits/WithOrderable.php:287-294 | Afterwards `orderDirty` equals `order` by value, `orderClean` is true, and the result is always true. |
| `EducationComponent.Education.UpdatedWithOrderable` | App/Traits/WithOrderable.php:273-280 | The dirty order is re-formatted only for `orderDirty.*` paths. `orderClean` becomes exactly `getDirty(path) == getClean(path)` by value. For draft paths that means "the draft is still a default educator with its own id". For other paths it means "dirty order equals clean order". |
| `EducationComponent.Education.GetClean` | App/Http/Livewire/Services/Employment.php:155-166 | For a path containing `newEducator`, the clean object is a default educator: the educator class, the draft's own `educationId` as key, every other property blank. For any other path, it is the clean order. This override replaces `getClean` at App/Traits/WithOrderable.php:236-239. |
| `EducationComponent.Education.GetDirty` | App/Http/Livewire/Services/Employment.php:175-178 | For a path containing `newEducator`, the dirty object is the draft itself. For any other path, it is the dirty order. This override replaces `getDirty` at App/Traits/WithOrderable.php:248-251. |
| `EducationComponent.DraftComparison` | App/Http/Livewire/Services/Employment.php:155-178 | For a path containing `newEducator`, dirty and clean compare equal exactly when the draft equals a default educator carrying the draft's `educationId`. |
| `EducationComponent.FreshDraftIsClean` | App/Http/Livewire/Services/Employment.php:155-178 | A draft just reset with any identifier compares clean on a draft path. |
| `EducationComponent.Education.RenderingWithOrderable` | App/Traits/WithOrderable.php:192-205 | If full validation of the dirty order passes, the bag is empty. If it fails, the bag is the validator's errors merged with the bag from before the render, so every earlier message is still there. |
| `MessageBags.Merge` | App/Traits/WithOrderable.php:204 | The merged bag has the keys of both bags. Each key keeps the first bag's messages as a prefix and contains every message of the second. Its length is the sum, and it holds no message from elsewhere. |
| `MessageBags.MergeEmpty` | App/Traits/WithOrderable.php:204 | Merging an empty bag leaves a bag unchanged. |
| `MessageBags.MergeIntoEmpty` | App/Traits/WithOrderable.php:202-204 | Merging into an empty bag copies the merged bag. |
| `EducationComponent.Education.DeleteResource` | App/Traits/WithOrderable.php:304-334 | If no collection at top level or one level down holds an entry of that class with that key, the result is false, nothing is saved, and the dirty order, clean order, flag and toasts are unchanged. Otherwise the order with the first such entry removed is saved, with the outcome `SaveOrder` states. |
| `ResourceDeletion.DeleteFromOrder` | App/Traits/WithOrderable.php:308-327 | Walks the order's properties in order and stops at the first that held a match. Its result is true exactly when the order holds a match, and the new order is the first-match removal. |
| `ResourceDeletion.DeleteFromProp` | App/Traits/WithOrderable.php:309-326 | A collection property is searched directly, a nested resource one level down, anything else is skipped. The result says whether that property held a match. |
| `ResourceDeletion.DeleteFromMembers` | App/Traits/WithOrderable.php:315-322 | Searches the collections of a nested resource in order and stops at the first removal. The result is true exactly when one of them held a match. |
| `ResourceDeletion.DeleteFromCollection` | App/Traits/WithOrderable.php:345-359 | The result is true exactly when some entry has the class and key. The new collection is the old one with the first such entry removed, or unchanged when there is none. |
| `ResourceDeletion.RemoveFirst` | App/Traits/WithOrderable.php:345-359 | With no match the collection is unchanged. Otherwise it is `items[..k] + items[k+1..]`, where `k` is the first matching position, so every other entry stays in place and in order. |
| `ResourceDeletion.RemoveFirstTakesOne` | App/Traits/WithOrderable.php:345-359 | When a match exists, exactly one entry is removed, and it is a matching one (a multiset equation). |
| `ResourceDeletion.FirstMatchExists` | App/Traits/WithOrderable.php:348-355 | A collection holding a match has a first matching position, which is where the loop stops. |
| `ResourceDeletion.RemoveInMembers` | App/Traits/WithOrderable.php:315-322 | Only the first member collection holding a match changes. With no match nothing changes. |
| `ResourceDeletion.RemoveInProps` | App/Traits/WithOrderable.php:308-327 | Only the first order property holding a match changes. With no match nothing changes. |
| `ResourceDeletion.RemoveFromOrder` | App/Traits/WithOrderable.php:304-334 | With no match the order is unchanged. Its identifiers and gap confirmations never change. |
| `ResourceDeletion.AppendThenDelete` | App/Http/Livewire/Services/Employment.php:96 | Pushing an entry whose key is not yet in the order onto a section and then deleting by that key restores the original order. The round trip is about the dirty order before any sorter runs. It says nothing about saving, sorting or a second push of the same entry. |
| `OrderModel.Lookup` | App/Traits/WithOrderable.php:350 | Reading a property gives none exactly when no property has that name. |
| `OrderModel.LookupFirst` | App/Traits/WithOrderable.php:350 | The value read is that of the FIRST property with the name, so later duplicates are shadowed. |
| `OrderModel.AppendToSection` | App/Http/Livewire/Services/Employment.php:96 | The named collection gains the entry as its last element. Identifiers, gap confirmations and every differently named property are unchanged. |
| `OrderModel.DefaultEducator` | App/Http/Livewire/Services/Employment.php:113 | A default educator has the educator class, the given key, and every editable property blank. |
| `OrderModel.Before` | App/Traits/WithOrderable.php:275 | The result is the prefix of the path up to its first '.', or the whole path when there is none. |
| `EducationComponent.Education.Populate` | App/Traits/WithOrderable.php:366-390 | Stores the page list. For a route among the non-service pages the previous/next links are left as they were. Otherwise they are `getNavigation(-1)` and `getNavigation(+1)`. |
| `EducationComponent.Education.LoadOrderable` | App/Traits/WithOrderable.php:160-181 | A missing order or invitation aborts (`NotFound`) with an empty page list. Once the order is found, `order` is the formatted and sorted order and `orderDirty` equals it. With both found, the page list and links are populated as `Populate` states. |
| `Navigation.GetNavigation` | App/Traits/WithOrderable.php:397-415 | The link is the route and `titleAlias` of the first page whose step is the current page's step plus the increment. When no page has that step, it is the application-summary route with the summary title. |
| `Navigation.RouteIndex` | App/Traits/WithOrderable.php:401 | Finds the first page on the current route. |
| `Navigation.StepIndex` | App/Traits/WithOrderable.php:402 | Finds the first page at a given step, and none exactly when no page has it. |
| `Navigation.NextThenPrevious` | App/Traits/WithOrderable.php:397-415 | With one page per route and per step, "next" from a page leads to the page one step on, and "previous" from there leads back. |
| `Navigation.LastPageLeadsToSummary` | App/Traits/WithOrderable.php:406-411 | "Next" from the page with the highest step falls back to the application summary. |
| `EducationComponent.Education.constructor` | App/Traits/WithCollectionRange.php:39-67 | A new component has a clean flag, an empty bag, bounds 0, no introduction, the maximum unmet, gaps unconfirmed and min/max mode. |
| `EducationComponent.Education.SetCollectionTypeToYears` | App/Traits/WithCollectionRange.php:84-87 | Selects years mode. |
| `EducationComponent.Education.SetCollectionTypeToMinMax` | App/Traits/WithCollectionRange.php:94-97 | Selects min/max mode. |
| `EducationComponent.Education.MountWithCollectionRange` | App/Traits/WithCollectionRange.php:123-132 | Records the order id. An empty service name is replaced by the flipped component-to-service table's entry for this component. The range and the introduction are then read. On success the gap toggle is loaded from the order, the bounds are `RangeFor`'s and the introduction is `IntroFor`'s (or stays). When a lookup aborts, the bounds, toggle and introduction are unchanged. |
| `CollectionRange.ServiceFor` | App/Traits/WithCollectionRange.php:128 | The flipped table maps a component to the service of its LAST entry in the table, and to nothing when the component is not listed. |
| `CollectionRange.FlipRoundTrip` | App/Traits/WithCollectionRange.php:128 | When every component appears once, flipping maps each component back to its own service. |
| `EducationComponent.Education.RenderingWithCollectionRange` | App/Traits/WithCollectionRange.php:141-152 | A missing order aborts with the flag untouched. Otherwise `collectionMaxMet` holds exactly when `collectionMax` is non-zero and the stored section's entry count is at least `collectionMax`. When `collectionMax` is 0 it is false whatever the count. |
| `EducationComponent.Education.UpdatedCollectionRangeConfirmed` | App/Traits/WithCollectionRange.php:162-174 | The store gets the fetched order with this service's `confirmedGaps` set to v. If it refuses, the toggle becomes !v and one error toast is emitted. If it accepts, the toggle stays v with no toast. |
| `EducationComponent.Education.SetCollectionRange` | App/Traits/WithCollectionRange.php:192-205 | A missing order or requirements aborts with nothing changed. Otherwise the toggle is loaded from `serviceInfo.<service>.confirmedGaps`, and the bounds are the range the requirements give. |
| `CollectionRange.RangeFor` | App/Traits/WithCollectionRange.php:199-203 | Both bounds come from the first requirement component named after the service, if either of its bounds is non-empty. Otherwise, or with no such component, the previous bounds stay. |
| `CollectionRange.ComponentIndex` | App/Traits/WithCollectionRange.php:199 | Finds the first requirement component with the service's name, and none exactly when there is no such component. |
| `CollectionRange.RangeKeepsNonZero` | App/Traits/WithCollectionRange.php:199-203 | Reading the requirements never resets non-zero bounds to (0, 0). |
| `CollectionRange.IntroFor` | App/Traits/WithCollectionRange.php:214-230 | No introduction is chosen (the old one stays) exactly in years mode with min ≤ 0, or in min/max mode with both bounds 0. Any chosen count is non-zero. Years mode uses the service's introduction with count min. Min/max mode uses `max_only` (min 0), `min_only` (max 0) or `min_max`, with count max unless max is 0, and min/max as replacements. |
| `EducationComponent.Education.SetIntroContent` | App/Traits/WithCollectionRange.php:212-231 | The introduction becomes the chosen one, or stays as it was when none is chosen. |
| `EducationComponent.Education.Mount` | App/Http/Livewire/Services/Employment.php:73-77 | Loads the order as `loadOrderable` does, with the same page list, links and clean/dirty orders, then starts a blank draft. When loading aborts, the page list is empty, the links and the draft are unchanged. |
| `EducationComponent.Education.ResetNewEducator` | App/Http/Livewire/Services/Employment.php:111-116 | The draft becomes a fresh default educator, and the result is true. |
| `EducationComponent.Education.SaveNewEducator` | App/Http/Livewire/Services/Employment.php:94-104 | The store gets the dirty order with the draft appended as the last education entry, and the save outcome is `SaveOrder`'s. Both the clean order (on success) and the dirty order (either way) become the sorted form of that appended order. On success the draft is reset. On failure the draft is unchanged and the result is false. For a sorter that keeps sections and their entries, the pushed entry is then in the dirty education section either way, and on success also in the clean one. |
| `EducationComponent.IdentityKeepsSections` | App/Http/Livewire/Services/Employment.php:96-97 | The sorter hypothesis behind `SaveNewEducator`'s membership promises can be met: the identity sorter keeps every section. |
| `EducationComponent.Education.UpdatedNewEducator` | App/Http/Livewire/Services/Employment.php:127-146 | The draft is re-formatted and then validated on the live attribute list. A failure replaces the whole error bag with the validator's errors. A pass leaves the bag untouched. |
| `LiveValidation.LiveAttributes` | App/Http/Livewire/Services/Employment.php:133-139 | The list holds exactly the draft's non-blank property names plus the edited field, with the edited field appended only when missing. It has no repeats when the property names are distinct. |
| `LiveValidation.NonBlankNames` | App/Http/Livewire/Services/Employment.php:133-135 | A name is in the list exactly when some property with that name has a value that is not empty after `trim`. |
| `LiveValidation.NonBlankNamesDistinct` | App/Http/Livewire/Services/Employment.php:133-135 | Distinct property names give a filtered list without repeats. |
| `LiveValidation.NonBlankNamesSnoc` | App/Http/Livewire/Services/Employment.php:133-135 | Filtering one more property extends the list by that property's name exactly when its value is not blank. |
| `EducationComponent.Education.CancelChanges` | App/Http/Livewire/Services/Employment.php:185-194 | The draft is reset, then `orderDirty` equals `order`, `orderClean` is true, and the result is true. |

## Left out

- PHP `clone` depth. `clone $this->order` is shallow unless `Order::__clone` (not part of this model) copies deeply, and with a shallow clone `order` and `orderDirty` share their collections. The model treats every record as an immutable value, so copying is a value copy and the aliasing is not captured.
- Collection keys. `forget($index)` leaves a gap in a collection's keys. The model's collections are sequences, so removal closes the gap.
- PHP comparison semantics. `==` on objects compares loosely, and `instanceof` accepts subclasses. The model compares by value and matches the class name exactly. Keys are strings compared with `===`.
- PHP errors. Some inputs make the source fail with a PHP error: a missing section or `serviceInfo` node, the current route missing from the page list, or a component absent from the service table. These are `requires` clauses, not modelled error paths. Explicit `abort(404)` calls are modelled as `NotFound`.
- Null values. Null property values are the empty string, and a null or absent `min`/`max` is 0.
- CollectionRange.RangeFor (and with it `SetCollectionRange`, `MountWithCollectionRange`): a requirement component with one bound set and the other null or absent makes PHP throw a TypeError. The cause is the destructuring assignment of null to the `int` properties. The model reads the null bound as 0 and accepts the input, so that error is not captured.
- `App\Support\MessageBag` is not part of this model. Merge is modelled as per-key append, and the constructor as a plain copy; whether the class removes duplicate messages is not captured.
- `Educator::make()` is not part of this model. Its default is the identifier plus the form's editable properties, all blank.
- External collaborators. `OrderService`, `InvitationService` (including `findRequirements`), `OrderSettings`, `ResourceSorter`, `formatForDisplay`, `MaxLength::setOrderId`, `OrderValidator`'s rules, `trans`, `trans_choice` and `route` are parameters or keys, as listed above. `populate`'s header, introduction and `areServicesSupported` come straight from `OrderSettings` and are not modelled.
- Dependency wiring. `hydrateWithOrderable`, `bootWithCollectionRange`, `render` and `processCollectionRange` only wire services or call other methods. `processCollectionRange` is folded into `MountWithCollectionRange`. `setCollectionService` is private and has no caller among these files.
- Rollback of the local copy. On failure, `updatedCollectionRangeConfirmed` also flips the fetched order's `confirmedGaps` back. That object is discarded afterwards, so the model leaves it out.
- Livewire hooks. The model does not fix the order in which Livewire calls the hooks. The write Livewire performs before an `updated*` hook is a precondition (`collectionRangeConfirmed == value`) or a direct assignment to the public field.
- Page-list counters. The `complete`/`total` counters of the page list are not modelled.
- Out-of-scope files. The dropdown traits (`WithCountryList`, `WithDegreeList`, `WithMajorMinorList`, `WithStateList`), the Blade templates and `resources/formManager.js` (client-side glue for in-flight requests and dialogs) are not part of this model.
