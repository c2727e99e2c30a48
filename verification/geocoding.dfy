/**
 The check `geocodeAddress` applies to the geocoding service's parsed reply
 (src/pages/Index.tsx). The HTTP request, `response.json()` and the URL are
 outside the model: what reaches the check is either a failed request or a
 parsed body.
 */
module Geocoding {
  import opened Wrappers

  /** A parsed JSON value, enough to say what JavaScript treats as truthy. */
  datatype Json =
    | JNull
    | JBool(b: bool)
    | JNum(n: real)
    | JStr(s: string)
    | JArray(items: seq<Json>)
    | JObject(fields: map<string, Json>)

  /** JavaScript truthiness: null, false, 0 and "" are falsy; arrays and objects are truthy. */
  predicate Truthy(v: Json)
  {
    match v
    case JNull => false
    case JBool(b) => b
    case JNum(n) => n != 0.0
    case JStr(s) => s != ""
    case JArray(_) => true
    case JObject(_) => true
  }

  /**
   A coordinate pair as the application holds it: whatever the service put in
   `center`, passed on without inspection (normally `[longitude, latitude]`).
   */
  type Coord = Json

  /** One candidate place; `center` is None when the field is absent. */
  datatype Feature = Feature(center: Option<Json>)

  /** The parsed reply; `features` is None when the field is absent. */
  datatype Response = Response(features: Option<seq<Feature>>)

  /**
   What the request produced: a rejection of `fetch`/`json()`, a body that
   parsed to `null`, or a parsed body. A body of any other non-object JSON
   value has no `features` field and is a `Response` with `features` None.
   */
  datatype Fetched = RequestFailed | ParsedNull | Parsed(data: Response)

  datatype GeocodeError =
    | NetworkError      // `fetch` or `response.json()` rejected
    | NullReply         // `data.features` on a `null` body throws a TypeError
    | AddressNotFound   // the reply has no usable first centre

  /** `data.features?.[0]?.center`: None wherever the optional chain stops. */
  function FirstCenter(data: Response): (c: Option<Json>)
    ensures c.Some? <==> data.features.Some? && |data.features.value| > 0
                         && data.features.value[0].center.Some?
    ensures c.Some? ==> c.value == data.features.value[0].center.value
  {
    match data.features
    case None => None
    case Some(fs) => if |fs| == 0 then None else fs[0].center
  }

  /**
   `geocodeAddress`: the first feature's centre when it is truthy, otherwise
   "Address not found"; a failed request or a `null` body rejects with its
   own error.
   */
  function Geocode(fetched: Fetched): (r: Result<Coord, GeocodeError>)
    ensures fetched.RequestFailed? ==> r == Failure(NetworkError)
    ensures fetched.ParsedNull? ==> r == Failure(NullReply)
    ensures fetched.Parsed? && r.Failure? ==> r.error == AddressNotFound
    ensures r.Success? ==> fetched.Parsed? && fetched.data.features.Some?
                           && |fetched.data.features.value| > 0
                           && fetched.data.features.value[0].center == Some(r.value)
                           && Truthy(r.value)
  {
    match fetched
    case RequestFailed => Failure(NetworkError)
    case ParsedNull => Failure(NullReply)
    case Parsed(data) =>
      var c := FirstCenter(data);
      if c.None? || !Truthy(c.value) then Failure(AddressNotFound) else Success(c.value)
  }

  /** Whenever the first feature carries a truthy centre, that exact value is returned. */
  lemma GeocodeReturnsFirstCenter(fs: seq<Feature>, center: Json)
    requires |fs| > 0 && fs[0].center == Some(center) && Truthy(center)
    ensures Geocode(Parsed(Response(Some(fs)))) == Success(center)
  {
  }

  /**
   A parsed reply is rejected in exactly three cases: `features` is missing,
   `features` is empty, or the first feature has no truthy `center`.
   */
  lemma GeocodeRejectsExactly(data: Response)
    ensures Geocode(Parsed(data)).Failure? <==>
              || data.features.None?
              || |data.features.value| == 0
              || data.features.value[0].center.None?
              || !Truthy(data.features.value[0].center.value)
  {
  }
}
