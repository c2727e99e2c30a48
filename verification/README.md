# pinspotter-map core, modelled in Dafny

The application lets a user type a street address, geocodes it, keeps the
resolved places as an ordered list of pins, and shows them as markers on a
map. This project models the bookkeeping behind that:

- **Geocoding** (`geocoding.dfy`): the check `geocodeAddress` applies to the
  geocoding service's parsed reply, with JavaScript truthiness for `center`.
- **LocationStore** (`location_store.dfy`): the page state of `Index` (the
  `locations` list and the `isLoading` flag) and the add, remove and select
  handlers.
- **MapSync** (`map_sync.dfy`): the marker-sync effect of `MapView`, which
  removes the recorded markers, rebuilds the id-to-marker record and fits the
  viewport. The viewport is known through the `fitBounds` calls made on the map.
- **AddressForm** (`address_form.dfy`): `handleSubmit`, with ECMAScript's
  `String.prototype.trim`.
- **App** (`app.dfy`): the wiring in `Index` — which actions re-run the sync
  effect, the invariant that holds across any sequence of actions, and the
  form submitting to the page's add handler.

Coordinates are never computed on. A coordinate is the JSON value the
service put in `center`, carried through to the marker and the bounds
unchanged; the map engine is assumed to accept it (see "## Left out").
Marker objects are modelled by fresh handles, so "this marker was removed"
can be stated. Location ids (the source uses `Date.now().toString()`) are
parameters, and nothing assumes they are distinct; where a property needs
distinct ids it says so.

## What the code does not do

- It does not check the HTTP status. A non-success reply whose JSON body
  lacks `features` is reported as "Address not found"
  (src/pages/Index.tsx:19-27).
- It does not check that `center` is a coordinate pair: any truthy value is
  accepted (src/pages/Index.tsx:25).
- It does not make ids unique. With a repeated id, the earlier marker stays
  on the map for good (`MapSync.DuplicateIdLeavesStray`,
  `MapSync.DuplicateIdStrandsMarker`).
- Selecting a location does nothing (src/pages/Index.tsx:53-56). The map
  view has no selection handling.
- It does not validate or store an access token. The token is a fixed
  placeholder (src/pages/Index.tsx:22, src/components/Map/MapView.tsx:24).
- The sync effect does not add or remove only the markers that changed. It
  rebuilds every marker on each run.
- `handleAddAddress` catches every error, so the form always takes its
  success path. A failed geocode shows the failure toast and then "Address
  added successfully".

## Model

| member | source | states |
|---|---|---|
| Geocoding.FirstCenter | src/pages/Index.tsx:25 | the optional chain `features?.[0]?.center` yields a value exactly when `features` is present, non-empty, and its first element has `center`, and then yields that `center` |
| Geocoding.Geocode | src/pages/Index.tsx:18-29 | a failed request rejects with the network error; a `null` body rejects because reading `features` from it throws; any other parsed reply is rejected only as "address not found"; a success returns the first feature's `center`, which is truthy |
| Geocoding.GeocodeReturnsFirstCenter | src/pages/Index.tsx:25-28 | whenever the first feature has a truthy `center`, geocoding returns exactly that value |
| Geocoding.GeocodeRejectsExactly | src/pages/Index.tsx:25-27 | a parsed reply fails exactly when `features` is missing, `features` is empty, or the first feature's `center` is missing or falsy |
| LocationStore.HandleAdd | src/pages/Index.tsx:31-46 | loading is on while pending and off once settled, whatever the outcome; the promise never rejects; on success the list gains one location at the end, with the given address and id, the geocoded coordinates and no details; on failure the list is unchanged and one error toast is shown |
| LocationStore.AddAppendsOne | src/pages/Index.tsx:34-40 | a successful add keeps the old list as a prefix, adds exactly one entry, and the id set grows by exactly the new id |
| LocationStore.RemoveId | src/pages/Index.tsx:49 | an entry is kept exactly when it was in the list and has another id; removing an absent id returns the list unchanged |
| LocationStore.RemoveIdDistributes | src/pages/Index.tsx:49 | removal distributes over concatenation, so the kept entries keep their relative order |
| LocationStore.RemoveIdCounts | src/pages/Index.tsx:49 | every entry with another id is kept as many times as it occurred; no entry with the removed id survives |
| LocationStore.RemoveIdIds | src/pages/Index.tsx:49 | the ids after removal are the old ids minus the removed one |
| LocationStore.RemoveIdIdempotent | src/pages/Index.tsx:49 | removing the same id twice equals removing it once |
| LocationStore.RemoveIdKeepsUnique | src/pages/Index.tsx:49 | removal never creates a duplicate id |
| LocationStore.HandleRemove | src/pages/Index.tsx:48-51 | the remaining list is the filtered list (exactly the entries with another id, in their original order, by `RemoveId`'s contract and lemmas); the loading flag is untouched, the removed id disappears, an absent id leaves the state identical, and the success toast is shown in every case |
| LocationStore.HandleSelect | src/pages/Index.tsx:53-56 | selecting leaves the whole page state unchanged |
| MapSync.PopupFor | src/components/Map/MapView.tsx:56-61 | the popup always carries the address, and has a details paragraph exactly when `details` is a non-empty string, showing that text |
| MapSync.Place | src/components/Map/MapView.tsx:52-63 | the marker made for a location sits at exactly its coordinates, carries its address as the popup heading, and has a details paragraph exactly when `details` is a non-empty string |
| MapSync.AddAll | src/components/Map/MapView.tsx:48-66 | after the loop the record's keys are the old keys plus the list's ids; each id maps to the marker built for the last entry with that id; every built marker has been added to the map |
| MapSync.Coords | src/components/Map/MapView.tsx:71-73 | the bounds are extended once per location, in list order, by exactly that location's coordinates |
| MapSync.Sync | src/components/Map/MapView.tsx:40-76 | without a map nothing changes; otherwise the recorded markers are taken off the map, the record's keys equal the list's ids, each id's marker is built from the last entry with that id, and `fitBounds` is called exactly when the list is non-empty, once, with bounds extended by exactly the list's coordinates in order and padding 50; an empty list makes no call |
| MapSync.SyncBindsLastLocation | src/components/Map/MapView.tsx:48-65 | for every id in the list, the recorded marker sits at the coordinates of the last location with that id and shows its popup |
| MapSync.SyncRemovesRecordedMarkers | src/components/Map/MapView.tsx:44-45 | no marker recorded before the sync is still on the map after it |
| MapSync.SyncDependsOnlyOnList | src/components/Map/MapView.tsx:43-75 | for a non-empty list, the id-to-position bindings, the popups and the resulting viewport after a sync do not depend on the state before it |
| MapSync.SyncIdempotent | src/components/Map/MapView.tsx:43-75 | running the sync a second time on the same list gives the same id-to-position bindings and the same viewport |
| MapSync.SyncLeavesNoNewStrays | src/components/Map/MapView.tsx:44-66 | with distinct ids, the record holds exactly the markers the sync built: the sync adds no unrecorded marker, and unrecorded markers from before stay on the map |
| MapSync.DuplicateIdLeavesStray | src/components/Map/MapView.tsx:48-65 | for any list and map state, when an entry's id comes again later in the list, the marker built for the earlier entry is on the map but not in the record, so no later sync removes it |
| MapSync.DuplicateIdStrandsMarker | src/components/Map/MapView.tsx:63-65 | with a repeated id, the earlier marker is added to the map but not recorded, so it stays on the map after the list is emptied |
| AddressForm.TrimIsInnerSlice | src/components/Map/AddressForm.tsx:16 | `trim` returns a contiguous slice of the text, with only whitespace before and after it and no whitespace at either end |
| AddressForm.TrimEmptyIffBlank | src/components/Map/AddressForm.tsx:16 | the trimmed text is empty exactly when every character is whitespace |
| AddressForm.Trim | src/components/Map/AddressForm.tsx:16 | the trimmed text is no longer than the input and neither starts nor ends with whitespace |
| AddressForm.Submit | src/components/Map/AddressForm.tsx:14-27 | blank input: no call, field unchanged, "Please enter an address"; otherwise the untrimmed text is passed on, and the field is cleared with a success toast when the promise resolves and kept with an error toast when it rejects |
| App.StartIsClean | src/pages/Index.tsx:15-16 | on first render the list and the marker record are both empty and consistent |
| App.Step | src/pages/Index.tsx:40-69 | the sync effect re-runs whenever a new `locations` array is set: a successful add settles the page and re-syncs the map on the longer list; a failed add leaves the list and the map as they were; every remove re-syncs the map on the filtered list, even for an absent id, since `filter` returns a new array; a select changes nothing |
| App.StepKeepsSynced | src/pages/Index.tsx:61-69 | after any add, remove or select, the marker record's keys equal the list's ids |
| App.RunKeepsSynced | src/pages/Index.tsx:61-69 | for every sequence of adds, removes and selects, the marker record's keys equal the list's ids |
| App.SyncCleans | src/components/Map/MapView.tsx:43-66 | a sync over a list with distinct ids leaves one marker on the map per location, at its coordinates and with its popup |
| App.StepKeepsClean | src/pages/Index.tsx:31-56 | while every add uses a new id, each action keeps one correctly placed marker per location and nothing else on the map |
| App.SubmitAddress | src/components/Map/AddressForm.tsx:14-27 | submitting to the page's add handler with non-blank text always clears the field and ends with the success toast; blank text changes nothing |
| App.FailedGeocodeStillClearsForm | src/pages/Index.tsx:41-45 | when geocoding fails, the list and map are unchanged, yet the form clears and shows the failure toast followed by "Address added successfully" |

## Left out

- The HTTP request, `response.json()`, `encodeURIComponent`, and the geocoding URL and token (src/pages/Index.tsx:19-24). These are network I/O; the model takes a failed request or a parsed body.
- Replies whose `features` is not an array, or whose first feature is not an object. Also NaN as a falsy `center`. The model's reply shape cannot express these. A body that is `null` is modelled; a body that is another non-object value counts as a reply without `features`.
- Map-engine rejection of a bad coordinate. The model assumes `setLngLat` and `bounds.extend` (src/components/Map/MapView.tsx:53, 72) accept every coordinate, because the engine is outside the model. In the source, a truthy `center` that is not a `[lng, lat]` pair makes the engine throw partway through the sync effect, after `markersRef` was cleared at src/components/Map/MapView.tsx:45. The model instead places a marker at that value and includes it in the fitted bounds.
- Map construction, the navigation control, the default centre and zoom, and teardown on unmount (src/components/Map/MapView.tsx:21-38). These are map-engine and React lifecycle. The map is taken as constructed.
- `LngLatBounds` arithmetic. A `fitBounds` call records only the coordinates passed to `extend` and the padding, because the bounds math is floating point inside the map engine.
- Popup HTML, marker element classes, toast rendering, and `src/components/Map/AddressList.tsx`. These are presentation. Toasts appear only as their messages.
- Typing into the field (`onChange`) and disabling the form while loading. These are rendering. Overlapping adds are not modelled: each add is atomic.
- Generating ids with `Date.now()`. The id is a parameter instead, since the clock is outside the model.
- Credential validation and storage, and focusing a selected location. The code has no such behaviour to model.
