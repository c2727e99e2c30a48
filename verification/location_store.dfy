/**
 The page state of src/pages/Index.tsx: the ordered list of resolved
 locations, the `isLoading` flag, and the add, remove and select handlers.
 Each add is treated as one atomic step; the id it receives (in the source
 `Date.now().toString()`) is a parameter, and nothing makes ids unique.
 */
module LocationStore {
  import opened Wrappers
  import opened Geocoding

  type Id = string

  /** A resolved place; `details` is None when the field is absent. */
  datatype Location = Location(id: Id, address: string, coordinates: Coord, details: Option<string>)

  /** A transient notification shown to the user. */
  datatype Toast = SuccessToast(message: string) | ErrorToast(message: string)

  const GeocodeFailedMessage: string := "Failed to geocode address"
  const RemovedMessage: string := "Address removed"

  datatype PageState = PageState(locations: seq<Location>, isLoading: bool)

  /** The state on first render: no locations, not loading. */
  const InitialPage := PageState([], false)

  /** The ids present in a list of locations. */
  function Ids(ls: seq<Location>): set<Id>
  {
    set l | l in ls :: l.id
  }

  /** No two entries share an id (the source does not enforce this). */
  ghost predicate UniqueIds(ls: seq<Location>)
  {
    forall i, j :: 0 <= i < j < |ls| ==> ls[i].id != ls[j].id
  }

  /**
   One run of `handleAddAddress`: the state while the geocode is pending,
   the state once it settles, the toasts shown, and whether the returned
   promise rejects.
   */
  datatype AddRun = AddRun(pending: PageState, settled: PageState, toasts: seq<Toast>, rejected: bool)

  /**
   `handleAddAddress`: set loading, geocode, append a new location on
   success, show an error toast on any failure, clear loading either way.
   */
  function HandleAdd(s: PageState, address: string, id: Id, fetched: Fetched): (r: AddRun)
    ensures r.pending.isLoading && r.pending.locations == s.locations
    ensures !r.settled.isLoading && !r.rejected
    ensures Geocode(fetched).Success? ==>
              && r.settled.locations == s.locations + [Location(id, address, Geocode(fetched).value, None)]
              && r.toasts == []
    ensures Geocode(fetched).Failure? ==>
              && r.settled.locations == s.locations
              && r.toasts == [ErrorToast(GeocodeFailedMessage)]
  {
    var pending := s.(isLoading := true);
    match Geocode(fetched)
    case Success(coordinates) =>
      var added := Location(id, address, coordinates, None);
      AddRun(pending, PageState(pending.locations + [added], false), [], false)
    case Failure(_) =>
      AddRun(pending, pending.(isLoading := false), [ErrorToast(GeocodeFailedMessage)], false)
  }

  /** A successful add keeps every earlier entry in place and puts exactly one new entry last. */
  lemma AddAppendsOne(s: PageState, address: string, id: Id, fetched: Fetched)
    requires Geocode(fetched).Success?
    ensures var after := HandleAdd(s, address, id, fetched).settled.locations;
            && |after| == |s.locations| + 1
            && after[..|s.locations|] == s.locations
            && after[|s.locations|].id == id
            && after[|s.locations|].address == address
            && after[|s.locations|].details.None?
            && Ids(after) == Ids(s.locations) + {id}
  {
    var after := HandleAdd(s, address, id, fetched).settled.locations;
    var added := after[|s.locations|];
    assert after == s.locations + [added];
    forall x | x in Ids(after) ensures x in Ids(s.locations) + {id} {
      var l :| l in after && l.id == x;
      if l != added { assert l in s.locations; }
    }
    forall x | x in Ids(s.locations) + {id} ensures x in Ids(after) {
      if x != id {
        var l :| l in s.locations && l.id == x;
        assert l in after;
      } else {
        assert added in after;
      }
    }
  }

  /** `prev.filter((loc) => loc.id !== id)`. */
  function RemoveId(ls: seq<Location>, id: Id): (r: seq<Location>)
    ensures forall l :: l in r <==> l in ls && l.id != id
    ensures |r| <= |ls|
    ensures id !in Ids(ls) ==> r == ls
  {
    if ls == [] then []
    else
      var rest := RemoveId(ls[1..], id);
      assert Ids(ls[1..]) <= Ids(ls) by {
        forall x | x in Ids(ls[1..]) ensures x in Ids(ls) {
          var l :| l in ls[1..] && l.id == x;
          assert l in ls;
        }
      }
      if ls[0].id != id then [ls[0]] + rest else rest
  }

  /** Filtering distributes over concatenation: the kept entries keep their relative order. */
  lemma {:induction false} RemoveIdDistributes(a: seq<Location>, b: seq<Location>, id: Id)
    ensures RemoveId(a + b, id) == RemoveId(a, id) + RemoveId(b, id)
  {
    if a == [] {
      assert a + b == b;
    } else {
      assert (a + b)[1..] == a[1..] + b;
      RemoveIdDistributes(a[1..], b, id);
    }
  }

  /** An entry with another id is kept as often as it occurs; entries with `id` are all dropped. */
  lemma {:induction false} RemoveIdCounts(ls: seq<Location>, id: Id, l: Location)
    ensures multiset(RemoveId(ls, id))[l] == if l.id == id then 0 else multiset(ls)[l]
  {
    if ls != [] {
      RemoveIdCounts(ls[1..], id, l);
      assert multiset(ls) == multiset([ls[0]]) + multiset(ls[1..]) by {
        assert ls == [ls[0]] + ls[1..];
      }
      if ls[0].id != id {
        assert multiset(RemoveId(ls, id)) == multiset([ls[0]]) + multiset(RemoveId(ls[1..], id));
      }
    }
  }

  /** After a removal the id is gone and every other id is still present. */
  lemma RemoveIdIds(ls: seq<Location>, id: Id)
    ensures Ids(RemoveId(ls, id)) == Ids(ls) - {id}
  {
    var r := RemoveId(ls, id);
    forall x | x in Ids(ls) - {id} ensures x in Ids(r) {
      var l :| l in ls && l.id == x;
      assert l in r;
    }
  }

  /** Removing the same id twice is the same as removing it once. */
  lemma RemoveIdIdempotent(ls: seq<Location>, id: Id)
    ensures RemoveId(RemoveId(ls, id), id) == RemoveId(ls, id)
  {
    RemoveIdIds(ls, id);
  }

  /** Filtering cannot create a duplicate id. */
  lemma {:induction false} RemoveIdKeepsUnique(ls: seq<Location>, id: Id)
    requires UniqueIds(ls)
    ensures UniqueIds(RemoveId(ls, id))
  {
    if ls != [] {
      var rest := RemoveId(ls[1..], id);
      assert UniqueIds(ls[1..]) by {
        forall i, j | 0 <= i < j < |ls[1..]| ensures ls[1..][i].id != ls[1..][j].id {
          assert ls[1..][i] == ls[i + 1] && ls[1..][j] == ls[j + 1];
        }
      }
      RemoveIdKeepsUnique(ls[1..], id);
      if ls[0].id != id {
        forall k | 0 <= k < |rest| ensures rest[k].id != ls[0].id {
          assert rest[k] in ls[1..];
          var m :| 0 <= m < |ls[1..]| && ls[1..][m] == rest[k];
          assert ls[m + 1] == rest[k];
        }
      }
    }
  }

  /** `handleRemoveAddress`: filter the list by id and always show the success toast. */
  function HandleRemove(s: PageState, id: Id): (r: (PageState, Toast))
    ensures r.0.locations == RemoveId(s.locations, id)
    ensures r.0.isLoading == s.isLoading
    ensures Ids(r.0.locations) == Ids(s.locations) - {id}
    ensures id !in Ids(s.locations) ==> r.0 == s
    ensures r.1 == SuccessToast(RemovedMessage)
  {
    RemoveIdIds(s.locations, id);
    (s.(locations := RemoveId(s.locations, id)), SuccessToast(RemovedMessage))
  }

  /** `handleSelectAddress` is an empty stub: nothing in the state changes. */
  function HandleSelect(s: PageState, id: Id): (r: PageState)
    ensures r == s
  {
    s
  }
}
