/**
 How src/pages/Index.tsx wires the pieces together: the form calls
 `handleAddAddress`, the list calls remove and select, and the map view
 receives `locations` as its `markers`. The map's sync effect re-runs only
 when that array changes identity: after a successful add and after every
 remove (`filter` always builds a new array), never after a failed add or a
 select. The map is taken as mounted, which in the source happens on first
 render before the first sync.
 */
module App {
  import opened Wrappers
  import opened Geocoding
  import opened LocationStore
  import opened MapSync
  import opened AddressForm

  datatype AppState = AppState(page: PageState, view: MapState)

  /** The map just after construction: no markers, the default viewport. */
  const MountedView := MapState(true, {}, map[], [], 0)

  const Start := AppState(InitialPage, MountedView)

  datatype Event =
    | AddEvent(address: string, id: Id, fetched: Fetched)
    | RemoveEvent(id: Id)
    | SelectEvent(id: Id)

  /** One user action, followed by the sync effect when the location array was replaced. */
  function Step(a: AppState, e: Event): (r: AppState)
    ensures e.AddEvent? ==> r.page == HandleAdd(a.page, e.address, e.id, e.fetched).settled
    ensures e.AddEvent? && Geocode(e.fetched).Success? ==> r.view == Sync(a.view, r.page.locations)
    ensures e.AddEvent? && Geocode(e.fetched).Failure? ==> r.view == a.view && r.page.locations == a.page.locations
    ensures e.RemoveEvent? ==>
              && r.page == HandleRemove(a.page, e.id).0
              && r.view == Sync(a.view, RemoveId(a.page.locations, e.id))
    ensures e.SelectEvent? ==> r == a
  {
    match e
    case AddEvent(address, id, fetched) =>
      var run := HandleAdd(a.page, address, id, fetched);
      if Geocode(fetched).Success? then AppState(run.settled, Sync(a.view, run.settled.locations))
      else AppState(run.settled, a.view)
    case RemoveEvent(id) =>
      var page := HandleRemove(a.page, id).0;
      AppState(page, Sync(a.view, page.locations))
    case SelectEvent(id) =>
      AppState(HandleSelect(a.page, id), a.view)
  }

  /** A sequence of actions, applied in order. */
  function Run(a: AppState, es: seq<Event>): AppState
    decreases |es|
  {
    if es == [] then a else Run(Step(a, es[0]), es[1..])
  }

  /** The marker record holds exactly the ids of the page's locations. */
  ghost predicate Synced(a: AppState)
  {
    && a.view.ready
    && WellFormed(a.view)
    && a.view.markersRef.Keys == Ids(a.page.locations)
  }

  /**
   With distinct ids, the map shows exactly the recorded markers, and each
   location's marker sits at its coordinates with its popup.
   */
  ghost predicate Clean(a: AppState)
  {
    && Synced(a)
    && UniqueIds(a.page.locations)
    && a.view.onMap == a.view.markersRef.Values
    && ShowsAll(a.view, a.page.locations)
  }

  /** Every location's marker is at its coordinates and shows its popup. */
  ghost predicate ShowsAll(view: MapState, ls: seq<Location>)
  {
    forall i :: 0 <= i < |ls| ==> ShowsLocation(view, ls[i])
  }

  /** The marker recorded under the location's id is at its coordinates and shows its popup. */
  ghost predicate ShowsLocation(view: MapState, l: Location)
  {
    l.id in view.markersRef
    && view.markersRef[l.id].position == l.coordinates
    && view.markersRef[l.id].popup == PopupFor(l)
  }

  /** An add whose id is not already in the list. */
  ghost predicate FreshId(a: AppState, e: Event)
  {
    e.AddEvent? ==> e.id !in Ids(a.page.locations)
  }

  lemma StartIsClean()
    ensures Clean(Start)
  {
  }

  /** Every action keeps the marker record's keys equal to the list's ids. */
  lemma StepKeepsSynced(a: AppState, e: Event)
    requires Synced(a)
    ensures Synced(Step(a, e))
  {
    SyncKeepsWellFormed(a.view, Step(a, e).page.locations);
  }

  /** For every sequence of adds, removes and selects, the marker record's keys equal the list's ids. */
  lemma {:induction false} RunKeepsSynced(a: AppState, es: seq<Event>)
    requires Synced(a)
    ensures Synced(Run(a, es))
    decreases |es|
  {
    if es != [] {
      StepKeepsSynced(a, es[0]);
      RunKeepsSynced(Step(a, es[0]), es[1..]);
    }
  }

  /** After a sync over a list with distinct ids, every location of it is shown. */
  lemma SyncShowsAll(view: MapState, ls: seq<Location>)
    requires view.ready && UniqueIds(ls)
    ensures ShowsAll(Sync(view, ls), ls)
  {
    forall i | 0 <= i < |ls| ensures ShowsLocation(Sync(view, ls), ls[i]) {
      assert IsLastWithId(ls, i);
    }
  }

  /** A sync that starts with no strays and builds from distinct ids leaves none. */
  lemma SyncKeepsNoStrays(view: MapState, ls: seq<Location>)
    requires view.ready && WellFormed(view) && UniqueIds(ls)
    requires view.onMap == view.markersRef.Values
    ensures Sync(view, ls).onMap == Sync(view, ls).markersRef.Values
  {
    var r := Sync(view, ls);
    SyncLeavesNoNewStrays(view, ls);
    assert Strays(view) == {};
    assert r.markersRef.Values <= r.onMap;
  }

  /**
   A sync over a list with distinct ids, from a map with no strays, leaves
   exactly one correctly placed marker per location.
   */
  lemma SyncCleans(a: AppState, ls: seq<Location>)
    requires a.view.ready && WellFormed(a.view) && a.view.onMap == a.view.markersRef.Values
    requires UniqueIds(ls)
    ensures Clean(AppState(a.page.(locations := ls), Sync(a.view, ls)))
  {
    var r := Sync(a.view, ls);
    var b := AppState(a.page.(locations := ls), r);
    assert Synced(b) by {
      SyncKeepsWellFormed(a.view, ls);
    }
    assert r.onMap == r.markersRef.Values by {
      SyncKeepsNoStrays(a.view, ls);
    }
    SyncShowsAll(a.view, ls);
  }

  lemma AppendFreshKeepsUnique(ls: seq<Location>, l: Location)
    requires UniqueIds(ls) && l.id !in Ids(ls)
    ensures UniqueIds(ls + [l])
  {
    forall i | 0 <= i < |ls| ensures ls[i].id != l.id {
      assert ls[i] in ls;
    }
  }

  /** While every add uses a new id, each action keeps one correctly placed marker per location and no strays. */
  lemma StepKeepsClean(a: AppState, e: Event)
    requires Clean(a) && FreshId(a, e)
    ensures Clean(Step(a, e))
  {
    match e
    case AddEvent(address, id, fetched) =>
      var run := HandleAdd(a.page, address, id, fetched);
      if Geocode(fetched).Success? {
        AppendFreshKeepsUnique(a.page.locations, run.settled.locations[|a.page.locations|]);
        SyncCleans(a, run.settled.locations);
      }
    case RemoveEvent(id) =>
      RemoveIdKeepsUnique(a.page.locations, id);
      SyncCleans(a, HandleRemove(a.page, id).0.locations);
    case SelectEvent(id) =>
  }

  /** The result of submitting the form: the application, the field, and the toasts in the order shown. */
  datatype Submission = Submission(app: AppState, form: FormState, toasts: seq<Toast>)

  /** The form submitting to `handleAddAddress`, whose promise never rejects. */
  function SubmitAddress(a: AppState, form: FormState, id: Id, fetched: Fetched): (r: Submission)
    ensures IsBlank(form.input) ==> r.app == a && r.form == form
    ensures !IsBlank(form.input) ==>
              && r.form.input == ""
              && r.app == Step(a, AddEvent(form.input, id, fetched))
              && |r.toasts| > 0 && r.toasts[|r.toasts| - 1] == SuccessToast(AddedMessage)
  {
    var run := HandleAdd(a.page, form.input, id, fetched);
    var sub := Submit(form, run.rejected);
    match sub.sent
    case None => Submission(a, sub.form, sub.toasts)
    case Some(text) => Submission(Step(a, AddEvent(text, id, fetched)), sub.form, run.toasts + sub.toasts)
  }

  /**
   A geocoding failure is swallowed by the page, so the form still clears its
   field and reports success right after the failure toast, and the list is
   unchanged.
   */
  lemma FailedGeocodeStillClearsForm(a: AppState, form: FormState, id: Id, fetched: Fetched)
    requires !IsBlank(form.input) && Geocode(fetched).Failure?
    ensures var r := SubmitAddress(a, form, id, fetched);
            && r.form.input == ""
            && r.app.page.locations == a.page.locations
            && r.app.view == a.view
            && r.toasts == [ErrorToast(GeocodeFailedMessage), SuccessToast(AddedMessage)]
  {
  }
}
