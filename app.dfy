/**
 * api/v1/app.py: the error handler registered for `Exception`, which turns
 * every failure of a view function into the same 404 answer, and clients
 * that run request sequences through the views.
 */
module App {
  import opened Values
  import opened Store
  import opened Resource
  import AmenityViews
  import StateViews
  import CityViews

  /** What the client receives: a status code and a JSON body. */
  datatype Response = Response(status: int, body: Json)

  const NotFoundBody: Json := JObject(map["error" := JStr("Not found")])

  /**
   * `handle_404_error`: a view's own answer goes out unchanged; an `abort`
   * (400 included), a view that returned nothing, or any other exception
   * becomes 404 `{"error": "Not found"}`.
   */
  function Respond(o: Outcome): (r: Response)
    ensures o.Ok? ==> r == Response(o.status, o.body)
    ensures !o.Ok? ==> r == Response(404, NotFoundBody)
  {
    if o.Ok? then Response(o.status, o.body) else Response(404, NotFoundBody)
  }

  /**
   * Create a state, create a city under it and list the state's cities. The
   * state is stored although its POST gets no response value, which the error
   * handler turns into a 404.
   */
  method CreateStateAndCity(st: Storage, stateId: string, cityId: string)
      returns (created: Response, city: Response, listed: Response)
    requires st.Valid() && Key(State, stateId) !in st.objects && Key(City, cityId) !in st.objects
    modifies st
    ensures st.Valid()
    ensures Key(State, stateId) in st.objects && st.objects[Key(State, stateId)] == map["name" := JStr("California")]
    ensures Key(City, cityId) in st.objects
    ensures st.objects[Key(City, cityId)] == map["name" := JStr("SF"), "state_id" := JStr(stateId)]
    ensures created == Response(404, NotFoundBody)
    ensures city == Response(201, JObject(map["name" := JStr("SF"), "state_id" := JStr(stateId)]))
    ensures listed.status == 200 && listed.body.JArray?
    ensures city.body in listed.body.items
  {
    var california := map["name" := JStr("California")];
    assert "name" in california && HasData(Some(california));
    assert FirstMissing(california, ["name"]) == None;
    var o := StateViews.States(st, POST, Some(california), stateId);
    created := Respond(o);
    assert Key(State, stateId) in st.objects && st.objects[Key(State, stateId)] == california;
    assert Key(City, cityId) !in st.objects;

    var sf := map["name" := JStr("SF")];
    assert "name" in sf && "state_id" !in sf && HasData(Some(sf));
    assert FirstMissing(sf, ["name"]) == None;
    o := CityViews.Cities(st, POST, stateId, Some(sf), cityId);
    city := Respond(o);
    assert sf["state_id" := JStr(stateId)] == map["name" := JStr("SF"), "state_id" := JStr(stateId)];
    assert st.objects[Key(City, cityId)] == sf["state_id" := JStr(stateId)];

    o := CityViews.Cities(st, GET, stateId, None, cityId);
    listed := Respond(o);
    assert Selected(st.objects, Key(City, cityId), City, Owned("state_id", stateId));
    ListingMembers(st.order, st.objects, City, Owned("state_id", stateId));
  }

  /** Delete a city, then fetch it again: `{}` with 200, then 404; nothing else changes. */
  method DeleteAndFetchCity(st: Storage, cityId: string) returns (deleted: Response, gone: Response)
    requires st.Valid() && Key(City, cityId) in st.objects
    modifies st
    ensures st.Valid()
    ensures st.objects == old(st.objects) - {Key(City, cityId)}
    ensures deleted == Response(200, JObject(map[]))
    ensures gone == Response(404, NotFoundBody)
  {
    var o := CityViews.CityList(st, DELETE, cityId, None);
    deleted := Respond(o);
    o := CityViews.CityList(st, GET, cityId, None);
    gone := Respond(o);
  }

  /**
   * Create an amenity, then fetch it by the id it was stored under: the GET
   * answers the same dictionary the POST answered.
   */
  method CreateThenFetchAmenity(st: Storage, body: Body, freshId: string) returns (created: Response, fetched: Response)
    requires st.Valid() && Key(Amenity, freshId) !in st.objects
    requires HasData(body) && "name" in body.value
    modifies st
    ensures st.Valid()
    ensures st.objects == old(st.objects)[Key(Amenity, freshId) := body.value]
    ensures created == Response(201, JObject(body.value))
    ensures fetched == created.(status := 200)
  {
    assert FirstMissing(body.value, ["name"]) == None;
    var o := AmenityViews.Amenities(st, POST, body, freshId);
    created := Respond(o);
    o := AmenityViews.AmenityList(st, GET, freshId, None);
    fetched := Respond(o);
  }
}
