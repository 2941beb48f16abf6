/** The view functions of api/v1/views/cities.py. */
module CityViews {
  import opened Values
  import opened Store
  import opened Resource

  /** Keys a PUT on a city never assigns. */
  const Protected: set<string> := {"id", "state_id", "created_at", "updated_at"}

  /** What `City(state_id=state_id, **data)` raises when `data` has its own `state_id`. */
  const DuplicateStateId: string := "got multiple values for keyword argument 'state_id'"

  /**
   * `cities(state_id)`: 404 for an unknown state whatever the verb; GET lists
   * the cities whose `state_id` is the route id; POST creates a city under it;
   * HEAD matches neither branch and falls off the end.
   */
  method Cities(st: Storage, verb: Verb, stateId: string, body: Body, freshId: string) returns (o: Outcome)
    requires st.Valid() && (verb == GET || verb == HEAD || verb == POST)
    requires verb == POST ==> Key(City, freshId) !in st.objects
    modifies st
    ensures st.Valid()
    ensures Key(State, stateId) !in old(st.objects) ==> o == NotFound && unchanged(st)
    ensures Key(State, stateId) in old(st.objects) && verb == GET ==>
      unchanged(st) && o == Ok(200, JArray(Listing(st.order, st.objects, City, Owned("state_id", stateId))))
    ensures Key(State, stateId) in old(st.objects) && verb == HEAD ==> unchanged(st) && o == NoResponse
    ensures Key(State, stateId) in old(st.objects) && verb == POST && Validate(body, ["name"]).Some? ==>
      unchanged(st) && o == Validate(body, ["name"]).value
    ensures Key(State, stateId) in old(st.objects) && verb == POST && Validate(body, ["name"]).None? ==>
      if "state_id" in body.value then
        unchanged(st) && o == Raised(DuplicateStateId)
      else
        var rec := body.value["state_id" := JStr(stateId)];
        Inserted(st, Key(City, freshId), rec) && o == Ok(201, JObject(rec))
  {
    if Key(State, stateId) !in st.objects {
      return NotFound;
    }
    if verb == GET {
      var items := ListOf(st, City, Owned("state_id", stateId));
      return Ok(200, JArray(items));
    }
    if verb == HEAD {
      return NoResponse;
    }
    var invalid := Validate(body, ["name"]);
    if invalid.Some? {
      return invalid.value;
    }
    if "state_id" in body.value {
      return Raised(DuplicateStateId);
    }
    var rec := body.value["state_id" := JStr(stateId)];
    st.New(Key(City, freshId), rec);
    o := Ok(201, JObject(rec));
  }

  /** `city_list(city_id)`: look the city up, then GET, PUT or DELETE it. */
  method CityList(st: Storage, verb: Verb, cityId: string, body: Body) returns (o: Outcome)
    requires st.Valid() && (verb == GET || verb == HEAD || verb == PUT || verb == DELETE)
    modifies st
    ensures st.Valid()
    ensures Key(City, cityId) !in old(st.objects) ==> o == NotFound && unchanged(st)
    ensures verb == GET ==> unchanged(st) && o == ItemOutcome(st.objects, Key(City, cityId))
    ensures verb == HEAD && Key(City, cityId) in old(st.objects) ==> unchanged(st) && o == NoResponse
    ensures verb == PUT ==> UpdateEffect(st, Key(City, cityId), body, Protected, o)
    ensures verb == DELETE ==> DeleteEffect(st, Key(City, cityId), o)
  {
    var k := Key(City, cityId);
    if k !in st.objects {
      return NotFound;
    }
    if verb == GET {
      o := ItemOutcome(st.objects, k);
    } else if verb == HEAD {
      o := NoResponse;
    } else if verb == PUT {
      o := UpdateItem(st, k, body, Protected);
    } else {
      o := DeleteItem(st, k);
    }
  }

  /** `get_cities()`: every city, whatever its state. */
  method GetCities(st: Storage) returns (o: Outcome)
    requires st.Valid()
    ensures o == Ok(200, JArray(Listing(st.order, st.objects, City, Every)))
    ensures |o.body.items| == st.Count(City)
  {
    var items := ListOf(st, City, Every);
    ListingCountsKind(st, City);
    o := Ok(200, JArray(items));
  }
}
