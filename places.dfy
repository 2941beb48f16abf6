/** The view functions of api/v1/views/places.py. */
module PlaceViews {
  import opened Values
  import opened Store
  import opened Resource

  /** Keys a PUT on a place never assigns. */
  const Protected: set<string> := {"id", "user_id", "city_id", "created_at", "updated_at"}

  /** Fields a new place must carry, in the order they are checked. */
  const Required: seq<string> := ["user_id", "name"]

  /** A body lacking `user_id` is refused for it, whether or not `name` is there. */
  lemma UserIdCheckedFirst(body: Body)
    requires HasData(body) && "user_id" !in body.value
    ensures Validate(body, Required) == Some(BadRequest("Missing user_id"))
  {
    FirstRequiredCheckedFirst(body, Required);
    assert "Missing " + "user_id" == "Missing user_id";
  }

  /**
   * `get_city_places(city_id)`: the places of a known city. `city.places` is
   * modelled as the places whose `city_id` is the route id, in store order.
   */
  method GetCityPlaces(st: Storage, cityId: string) returns (o: Outcome)
    ensures Key(City, cityId) !in st.objects ==> o == NotFound
    ensures Key(City, cityId) in st.objects ==>
      o == Ok(200, JArray(Listing(st.order, st.objects, Place, Owned("city_id", cityId))))
  {
    if Key(City, cityId) !in st.objects {
      return NotFound;
    }
    var items := ListOf(st, Place, Owned("city_id", cityId));
    o := Ok(200, JArray(items));
  }

  /** `get_place(place_id)`. */
  method GetPlace(st: Storage, placeId: string) returns (o: Outcome)
    ensures Key(Place, placeId) !in st.objects ==> o == NotFound
    ensures Key(Place, placeId) in st.objects ==> o == Ok(200, JObject(st.objects[Key(Place, placeId)]))
  {
    o := ItemOutcome(st.objects, Key(Place, placeId));
  }

  /** `delete_place(place_id)`. */
  method DeletePlace(st: Storage, placeId: string) returns (o: Outcome)
    requires st.Valid()
    modifies st
    ensures st.Valid() && DeleteEffect(st, Key(Place, placeId), o)
  {
    o := DeleteItem(st, Key(Place, placeId));
  }

  /**
   * `create_place(city_id)`: 404 for an unknown city, then the body checks,
   * then 404 for an unknown `user_id`; the body's `city_id` is overwritten by
   * the route id before the place is built.
   */
  method CreatePlace(st: Storage, cityId: string, body: Body, freshId: string) returns (o: Outcome)
    requires st.Valid() && Key(Place, freshId) !in st.objects
    modifies st
    ensures st.Valid()
    ensures Key(City, cityId) !in old(st.objects) ==> o == NotFound && unchanged(st)
    ensures Key(City, cityId) in old(st.objects) && Validate(body, Required).Some? ==>
      o == Validate(body, Required).value && unchanged(st)
    ensures Key(City, cityId) in old(st.objects) && Validate(body, Required).None? ==>
      if !Refers(old(st.objects), User, body.value["user_id"]) then
        o == NotFound && unchanged(st)
      else
        var rec := body.value["city_id" := JStr(cityId)];
        Inserted(st, Key(Place, freshId), rec) && o == Ok(201, JObject(rec))
  {
    if Key(City, cityId) !in st.objects {
      return NotFound;
    }
    var invalid := Validate(body, Required);
    if invalid.Some? {
      return invalid.value;
    }
    if !Refers(st.objects, User, body.value["user_id"]) {
      return NotFound;
    }
    var rec := body.value["city_id" := JStr(cityId)];
    st.New(Key(Place, freshId), rec);
    o := Ok(201, JObject(rec));
  }

  /** `update_place(place_id)`. */
  method UpdatePlace(st: Storage, placeId: string, body: Body) returns (o: Outcome)
    requires st.Valid()
    modifies st
    ensures st.Valid() && UpdateEffect(st, Key(Place, placeId), body, Protected, o)
  {
    o := UpdateItem(st, Key(Place, placeId), body, Protected);
  }
}
