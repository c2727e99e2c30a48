/**
 The marker-sync effect of src/components/Map/MapView.tsx, which runs
 whenever the `markers` list changes. The map engine is abstracted: a marker
 is a handle (each `new mapboxgl.Marker` is a distinct object) with its
 position and popup content; the map is the set of markers added to it; the
 viewport is known through the `fitBounds` calls made on the map.
 */
module MapSync {
  import opened Wrappers
  import opened Geocoding
  import opened LocationStore

  /** Popup content: the address heading, and a details paragraph or none. */
  datatype Popup = Popup(heading: string, detailsParagraph: Option<string>)

  datatype Marker = Marker(handle: nat, position: Coord, popup: Popup)

  /** One `fitBounds` call: the coordinates the bounds were extended with, in order, and the padding. */
  datatype FitCall = FitCall(bounds: seq<Coord>, padding: nat)

  /**
   `ready` is `map.current != null`; `onMap` the markers added to the map and
   not yet removed; `markersRef` the id-to-marker record; `fits` the
   `fitBounds` calls made so far; `nextHandle` the identity the next
   constructed marker receives.
   */
  datatype MapState = MapState(
    ready: bool,
    onMap: set<Marker>,
    markersRef: map<Id, Marker>,
    fits: seq<FitCall>,
    nextHandle: nat)

  const FitPadding: nat := 50

  /** The viewport the map shows: None for the default centre and zoom, else the last fit. */
  function Viewport(st: MapState): Option<FitCall>
  {
    if st.fits == [] then None else Some(st.fits[|st.fits| - 1])
  }

  /** Every marker the state knows of was constructed before `nextHandle`. */
  ghost predicate WellFormed(st: MapState)
  {
    && (forall m :: m in st.onMap ==> m.handle < st.nextHandle)
    && (forall k :: k in st.markersRef ==> st.markersRef[k].handle < st.nextHandle)
  }

  /** Markers still on the map that `markersRef` no longer records, so no later sync removes them. */
  function Strays(st: MapState): set<Marker>
  {
    st.onMap - st.markersRef.Values
  }

  /** The id-to-position bindings of a marker record. */
  function Positions(ref: map<Id, Marker>): map<Id, Coord>
  {
    map k | k in ref :: ref[k].position
  }

  /** The details paragraph appears exactly when `details` is a non-empty string. */
  function PopupFor(l: Location): (p: Popup)
    ensures p.heading == l.address
    ensures p.detailsParagraph.Some? <==> l.details.Some? && l.details.value != ""
    ensures p.detailsParagraph.Some? ==> p.detailsParagraph == l.details
  {
    match l.details
    case Some(d) => if d != "" then Popup(l.address, Some(d)) else Popup(l.address, None)
    case None => Popup(l.address, None)
  }

  /**
   The marker built for a location, with the given identity: at the
   location's coordinates, headed by its address, with a details paragraph
   only for non-empty details.
   */
  function Place(l: Location, handle: nat): (m: Marker)
    ensures m.handle == handle && m.position == l.coordinates
    ensures m.popup.heading == l.address
    ensures m.popup.detailsParagraph.Some? <==> l.details.Some? && l.details.value != ""
  {
    Marker(handle, l.coordinates, PopupFor(l))
  }

  /** The markers built for `ls` when the first receives `next` and each later one the following handle. */
  function Placed(ls: seq<Location>, next: nat): set<Marker>
  {
    set i | 0 <= i < |ls| :: Place(ls[i], next + i)
  }

  /** The last entry carrying its id: its marker is the one `markersRef` keeps. */
  ghost predicate IsLastWithId(ls: seq<Location>, i: int)
  {
    0 <= i < |ls| && forall j :: i < j < |ls| ==> ls[j].id != ls[i].id
  }

  /** The coordinates of every entry, in order. */
  function Coords(ls: seq<Location>): (cs: seq<Coord>)
    ensures |cs| == |ls| && forall i {:trigger cs[i]} :: 0 <= i < |ls| ==> cs[i] == ls[i].coordinates
  {
    if ls == [] then [] else [ls[0].coordinates] + Coords(ls[1..])
  }

  datatype Built = Built(ref: map<Id, Marker>, onMap: set<Marker>)

  /** A later entry's id is among the tail's ids. */
  lemma IdsOfTail(ls: seq<Location>, i: int)
    requires 0 < i < |ls|
    ensures ls[i].id in Ids(ls[1..])
  {
    assert ls[1..][i - 1] == ls[i];
  }

  /** An id of the tail belongs to some later entry of the list. */
  lemma IdOfTailAt(ls: seq<Location>, x: Id)
    requires |ls| > 0 && x in Ids(ls[1..])
    ensures exists j :: 0 < j < |ls| && ls[j].id == x
  {
    var l :| l in ls[1..] && l.id == x;
    var j :| 0 <= j < |ls[1..]| && ls[1..][j] == l;
    assert ls[j + 1] == l;
  }

  /** The ids of a non-empty list are the head's id and the tail's ids. */
  lemma IdsCons(ls: seq<Location>)
    requires |ls| > 0
    ensures Ids(ls) == {ls[0].id} + Ids(ls[1..])
  {
    forall x | x in Ids(ls) ensures x in {ls[0].id} + Ids(ls[1..]) {
      var l :| l in ls && l.id == x;
      var j :| 0 <= j < |ls| && ls[j] == l;
      if j > 0 { IdsOfTail(ls, j); }
    }
    forall x | x in Ids(ls[1..]) ensures x in Ids(ls) {
      var l :| l in ls[1..] && l.id == x;
      assert l in ls;
    }
  }

  /** The markers built for a non-empty list are the head's marker and the tail's markers. */
  lemma PlacedCons(ls: seq<Location>, next: nat)
    requires |ls| > 0
    ensures Placed(ls, next) == {Place(ls[0], next)} + Placed(ls[1..], next + 1)
  {
    forall x | x in Placed(ls, next) ensures x in {Place(ls[0], next)} + Placed(ls[1..], next + 1) {
      var i :| 0 <= i < |ls| && x == Place(ls[i], next + i);
      if i > 0 { assert x == Place(ls[1..][i - 1], next + 1 + (i - 1)); }
    }
    forall x | x in Placed(ls[1..], next + 1) ensures x in Placed(ls, next) {
      var i :| 0 <= i < |ls[1..]| && x == Place(ls[1..][i], next + 1 + i);
      assert x == Place(ls[i + 1], next + (i + 1));
    }
  }

  /**
   The `markers.forEach` loop: build a marker for each entry in order, add it
   to the map and store it under its id, overwriting any earlier entry with
   the same id.
   */
  function AddAll(ref: map<Id, Marker>, onMap: set<Marker>, ls: seq<Location>, next: nat): (b: Built)
    ensures b.ref.Keys == ref.Keys + Ids(ls)
    ensures forall k :: k in ref && k !in Ids(ls) ==> b.ref[k] == ref[k]
    ensures forall i {:trigger IsLastWithId(ls, i)} :: IsLastWithId(ls, i) ==> b.ref[ls[i].id] == Place(ls[i], next + i)
    ensures b.onMap == onMap + Placed(ls, next)
    decreases |ls|
  {
    if ls == [] then
      Built(ref, onMap)
    else
      var m := Place(ls[0], next);
      var b := AddAll(ref[ls[0].id := m], onMap + {m}, ls[1..], next + 1);
      AddAllStepKeys(ref, ls, next, b.ref);
      PlacedCons(ls, next);
      LastWinsStep(ls, next, b.ref);
      b
  }

  /** One iteration of the loop, for the record's keys. */
  lemma AddAllStepKeys(ref: map<Id, Marker>, ls: seq<Location>, next: nat, bref: map<Id, Marker>)
    requires |ls| > 0
    requires var ref1 := ref[ls[0].id := Place(ls[0], next)];
             && bref.Keys == ref1.Keys + Ids(ls[1..])
             && (forall k :: k in ref1 && k !in Ids(ls[1..]) ==> bref[k] == ref1[k])
    ensures bref.Keys == ref.Keys + Ids(ls)
    ensures forall k :: k in ref && k !in Ids(ls) ==> bref[k] == ref[k]
  {
    IdsCons(ls);
  }

  /** When the head is the last entry with its id, no later entry carries it. */
  lemma HeadLastHasNoLaterId(ls: seq<Location>)
    requires IsLastWithId(ls, 0)
    ensures ls[0].id !in Ids(ls[1..])
  {
    if ls[0].id in Ids(ls[1..]) {
      IdOfTailAt(ls, ls[0].id);
    }
  }

  /** A later entry that is last with its id in the list is also last in the tail. */
  lemma TailLast(ls: seq<Location>, i: int)
    requires 0 < i && IsLastWithId(ls, i)
    ensures IsLastWithId(ls[1..], i - 1) && ls[1..][i - 1] == ls[i]
  {
  }

  /** The head's marker survives the rest of the loop only when no later entry shares its id. */
  lemma LastWinsStep(ls: seq<Location>, next: nat, ref: map<Id, Marker>)
    requires |ls| > 0
    requires ls[0].id !in Ids(ls[1..]) ==> ls[0].id in ref && ref[ls[0].id] == Place(ls[0], next)
    requires forall i {:trigger IsLastWithId(ls[1..], i)} :: IsLastWithId(ls[1..], i) ==>
               ls[1..][i].id in ref && ref[ls[1..][i].id] == Place(ls[1..][i], next + 1 + i)
    ensures forall i {:trigger IsLastWithId(ls, i)} :: IsLastWithId(ls, i) ==> ls[i].id in ref && ref[ls[i].id] == Place(ls[i], next + i)
  {
    forall i | IsLastWithId(ls, i) ensures ls[i].id in ref && ref[ls[i].id] == Place(ls[i], next + i) {
      if i == 0 {
        HeadLastHasNoLaterId(ls);
      } else {
        TailLast(ls, i);
      }
    }
  }

  /**
   One run of the effect: do nothing while the map is not initialised;
   otherwise remove every marker `markersRef` records, rebuild the record
   from `markers`, and fit the viewport to all coordinates when the list is
   non-empty.
   */
  function Sync(st: MapState, markers: seq<Location>): (r: MapState)
    ensures !st.ready ==> r == st
    ensures st.ready ==> r.ready && r.markersRef.Keys == Ids(markers)
    ensures st.ready ==> forall i {:trigger IsLastWithId(markers, i)} :: IsLastWithId(markers, i) ==>
              markers[i].id in r.markersRef && r.markersRef[markers[i].id] == Place(markers[i], st.nextHandle + i)
    ensures st.ready ==> r.onMap == (st.onMap - st.markersRef.Values) + Placed(markers, st.nextHandle)
    ensures st.ready && |markers| > 0 ==> r.fits == st.fits + [FitCall(Coords(markers), FitPadding)]
    ensures |markers| == 0 ==> r.fits == st.fits
    ensures st.nextHandle <= r.nextHandle
  {
    if !st.ready then st
    else
      var b := AddAll(map[], st.onMap - st.markersRef.Values, markers, st.nextHandle);
      var fits := if |markers| > 0 then st.fits + [FitCall(Coords(markers), FitPadding)] else st.fits;
      MapState(true, b.onMap, b.ref, fits, st.nextHandle + |markers|)
  }

  /** Every id of a list has a last entry carrying it. */
  lemma LastIndexOf(ls: seq<Location>, id: Id) returns (i: nat)
    requires id in Ids(ls)
    ensures IsLastWithId(ls, i) && ls[i].id == id
  {
    var l :| l in ls && l.id == id;
    i :| i < |ls| && ls[i] == l;
    while !IsLastWithId(ls, i)
      invariant i < |ls| && ls[i].id == id
      decreases |ls| - i
    {
      var j :| i < j < |ls| && ls[j].id == id;
      i := j;
    }
  }

  /** Each marker is placed at, and its popup shows, the last location carrying its id. */
  lemma SyncBindsLastLocation(st: MapState, markers: seq<Location>, id: Id)
    requires st.ready && id in Ids(markers)
    ensures exists i :: IsLastWithId(markers, i) && markers[i].id == id
              && Sync(st, markers).markersRef[id].position == markers[i].coordinates
              && Sync(st, markers).markersRef[id].popup == PopupFor(markers[i])
  {
    var i := LastIndexOf(markers, id);
  }

  /** The markers a sync constructs are new: none was known to the state before. */
  lemma PlacedAreFresh(st: MapState, markers: seq<Location>)
    requires WellFormed(st)
    ensures forall m :: m in Placed(markers, st.nextHandle) ==> m.handle >= st.nextHandle
    ensures Placed(markers, st.nextHandle) !! st.onMap
    ensures Placed(markers, st.nextHandle) !! st.markersRef.Values
  {
  }

  /** After a sync no marker recorded before it is still on the map. */
  lemma SyncRemovesRecordedMarkers(st: MapState, markers: seq<Location>)
    requires st.ready && WellFormed(st)
    ensures forall m :: m in st.markersRef.Values ==> m !in Sync(st, markers).onMap
  {
    PlacedAreFresh(st, markers);
  }

  /** A sync keeps every handle below the next fresh one. */
  lemma SyncKeepsWellFormed(st: MapState, markers: seq<Location>)
    requires WellFormed(st)
    ensures WellFormed(Sync(st, markers))
  {
    var r := Sync(st, markers);
    if st.ready {
      forall k | k in r.markersRef ensures r.markersRef[k].handle < r.nextHandle {
        var i :| IsLastWithId(markers, i) && markers[i].id == k by {
          SyncBindsLastLocation(st, markers, k);
        }
      }
    }
  }

  /**
   The bindings, popups and viewport a sync produces depend on the list alone,
   not on the state it started from.
   */
  lemma SyncDependsOnlyOnList(st1: MapState, st2: MapState, markers: seq<Location>)
    requires st1.ready && st2.ready && |markers| > 0
    ensures var r1 := Sync(st1, markers); var r2 := Sync(st2, markers);
            && Positions(r1.markersRef) == Positions(r2.markersRef)
            && (forall k :: k in r1.markersRef ==> r1.markersRef[k].popup == r2.markersRef[k].popup)
            && Viewport(r1) == Viewport(r2)
  {
    SyncBindsLast(st1, markers);
    SyncBindsLast(st2, markers);
    SameLastBindings(Sync(st1, markers).markersRef, Sync(st2, markers).markersRef, markers, st1.nextHandle, st2.nextHandle);
  }

  /** A record whose keys are the list's ids, each bound to the marker of its last entry. */
  ghost predicate BindsLast(ref: map<Id, Marker>, ls: seq<Location>, next: nat)
  {
    && ref.Keys == Ids(ls)
    && forall n {:trigger IsLastWithId(ls, n)} :: IsLastWithId(ls, n) ==> ls[n].id in ref && ref[ls[n].id] == Place(ls[n], next + n)
  }

  /** The record a sync builds binds each id to its last entry's marker. */
  lemma SyncBindsLast(st: MapState, ls: seq<Location>)
    requires st.ready
    ensures BindsLast(Sync(st, ls).markersRef, ls, st.nextHandle)
  {
  }

  /** Two records that both bind each id to the marker of its last entry agree on positions and popups. */
  lemma SameLastBindings(ref1: map<Id, Marker>, ref2: map<Id, Marker>, ls: seq<Location>, next1: nat, next2: nat)
    requires BindsLast(ref1, ls, next1) && BindsLast(ref2, ls, next2)
    ensures Positions(ref1) == Positions(ref2)
    ensures forall k :: k in ref1 ==> ref1[k].popup == ref2[k].popup
  {
    forall k | k in ref1
      ensures ref1[k].position == ref2[k].position
      ensures ref1[k].popup == ref2[k].popup
    {
      var i := LastIndexOf(ls, k);
    }
  }

  /** Running the sync a second time on the same list leaves the bindings and viewport as they were. */
  lemma SyncIdempotent(st: MapState, markers: seq<Location>)
    ensures var once := Sync(st, markers); var twice := Sync(once, markers);
            && Positions(twice.markersRef) == Positions(once.markersRef)
            && Viewport(twice) == Viewport(once)
  {
    if st.ready && |markers| > 0 {
      SyncDependsOnlyOnList(st, Sync(st, markers), markers);
    }
  }

  /** A record built from a list with distinct ids holds exactly the markers built for it. */
  lemma UniqueRecordIsPlaced(ref: map<Id, Marker>, markers: seq<Location>, next: nat)
    requires UniqueIds(markers) && ref.Keys == Ids(markers)
    requires forall i {:trigger IsLastWithId(markers, i)} :: IsLastWithId(markers, i) ==> ref[markers[i].id] == Place(markers[i], next + i)
    ensures ref.Values == Placed(markers, next)
  {
    forall m | m in ref.Values ensures m in Placed(markers, next) {
      var k :| k in ref && ref[k] == m;
      var l :| l in markers && l.id == k;
      var i :| 0 <= i < |markers| && markers[i] == l;
      assert IsLastWithId(markers, i);
    }
    forall m | m in Placed(markers, next) ensures m in ref.Values {
      var i :| 0 <= i < |markers| && m == Place(markers[i], next + i);
      assert IsLastWithId(markers, i);
      assert markers[i] in markers;
      assert ref[markers[i].id] == m;
    }
  }

  /**
   With distinct ids every marker a sync builds is recorded, so the sync leaves
   no new stray and the record's markers are exactly the ones it built.
   */
  lemma SyncLeavesNoNewStrays(st: MapState, markers: seq<Location>)
    requires st.ready && WellFormed(st) && UniqueIds(markers)
    ensures Sync(st, markers).markersRef.Values == Placed(markers, st.nextHandle)
    ensures Strays(Sync(st, markers)) == Strays(st)
  {
    var r := Sync(st, markers);
    var p := Placed(markers, st.nextHandle);
    var kept := Strays(st);
    assert r.markersRef.Values == p by {
      UniqueRecordIsPlaced(r.markersRef, markers, st.nextHandle);
    }
    assert kept !! p by {
      PlacedAreFresh(st, markers);
    }
    DisjointAddRemove(kept, p);
  }

  lemma DisjointAddRemove<T>(a: set<T>, b: set<T>)
    requires a !! b
    ensures (a + b) - b == a
  {
  }

  /**
   From every state with a map, when two entries share an id the earlier
   one's marker is put on the map but not recorded, so no later sync removes
   it.
   */
  lemma DuplicateIdLeavesStray(st: MapState, ls: seq<Location>, i: nat, j: nat)
    requires st.ready
    requires i < j < |ls| && ls[i].id == ls[j].id
    ensures Place(ls[i], st.nextHandle + i) in Strays(Sync(st, ls))
  {
    SyncBindsLast(st, ls);
    SyncShowsPlaced(st, ls);
    DuplicateLeftOut(Sync(st, ls), ls, st.nextHandle, i, j);
  }

  /** Every marker a sync builds ends up on the map. */
  lemma SyncShowsPlaced(st: MapState, ls: seq<Location>)
    requires st.ready
    ensures Placed(ls, st.nextHandle) <= Sync(st, ls).onMap
  {
  }

  /** A marker placed for an entry whose id comes again later is on the map but not in the record. */
  lemma DuplicateLeftOut(r: MapState, ls: seq<Location>, next: nat, i: nat, j: nat)
    requires Placed(ls, next) <= r.onMap
    requires BindsLast(r.markersRef, ls, next)
    requires i < j < |ls| && ls[i].id == ls[j].id
    ensures Place(ls[i], next + i) in Strays(r)
  {
    assert Place(ls[i], next + i) in Placed(ls, next);
    NotLastNotRecorded(r.markersRef, ls, next, i, j);
  }

  /** The record keeps only last entries' markers, so an entry followed by its id again has none there. */
  lemma NotLastNotRecorded(ref: map<Id, Marker>, ls: seq<Location>, next: nat, i: nat, j: nat)
    requires BindsLast(ref, ls, next)
    requires i < j < |ls| && ls[i].id == ls[j].id
    ensures Place(ls[i], next + i) !in ref.Values
  {
    forall k | k in ref ensures ref[k].handle != next + i {
      var last := LastIndexOf(ls, k);
      assert last != i by {
        assert !IsLastWithId(ls, i) by {
          assert ls[j].id == ls[i].id;
        }
      }
    }
  }

  /**
   With a repeated id the earlier marker is added to the map but its record
   entry is overwritten, so emptying the list afterwards leaves it on the map.
   */
  lemma DuplicateIdStrandsMarker(a: Location, b: Location)
    requires a.id == b.id
    ensures var start := MapState(true, {}, map[], [], 0);
            var emptied := Sync(Sync(start, [a, b]), []);
            && emptied.markersRef == map[]
            && Place(a, 0) in emptied.onMap
  {
    var start := MapState(true, {}, map[], [], 0);
    var once := Sync(start, [a, b]);
    assert IsLastWithId([a, b], 1);
    assert Place(a, 0) in Placed([a, b], 0);
    assert once.markersRef == map[a.id := Place(b, 1)];
  }
}
