/** The view functions of api/v1/views/amenities.py. */
module AmenityViews {
  import opened Values
  import opened Store
  import opened Resource

  /** Keys a PUT on an amenity never assigns. */
  const Protected: set<string> := {"id", "created_at", "updated_at"}

  /** `amenities()`: GET lists every amenity; POST creates one from the body. */
  method Amenities(st: Storage, verb: Verb, body: Body, freshId: string) returns (o: Outcome)
    requires st.Valid() && (verb == GET || verb == HEAD || verb == POST)
    requires verb == POST ==> Key(Amenity, freshId) !in st.objects
    modifies st
    ensures st.Valid()
    ensures verb == GET ==>
      && unchanged(st)
      && o == Ok(200, JArray(Listing(st.order, st.objects, Amenity, Every)))
      && |o.body.items| == st.Count(Amenity)
    ensures verb == HEAD ==> unchanged(st) && o == NoResponse
    ensures verb == POST && Validate(body, ["name"]).Some? ==>
      unchanged(st) && o == Validate(body, ["name"]).value
    ensures verb == POST && Validate(body, ["name"]).None? ==>
      Inserted(st, Key(Amenity, freshId), body.value) && o == Ok(201, JObject(body.value))
  {
    if verb == GET {
      var items := ListOf(st, Amenity, Every);
      ListingCountsKind(st, Amenity);
      return Ok(200, JArray(items));
    }
    if verb == HEAD {
      return NoResponse;
    }
    var invalid := Validate(body, ["name"]);
    if invalid.Some? {
      return invalid.value;
    }
    st.New(Key(Amenity, freshId), body.value);
    o := Ok(201, JObject(body.value));
  }

  /** `amenity_list(amenity_id)`: look the amenity up, then GET, PUT or DELETE it. */
  method AmenityList(st: Storage, verb: Verb, amenityId: string, body: Body) returns (o: Outcome)
    requires st.Valid() && (verb == GET || verb == HEAD || verb == PUT || verb == DELETE)
    modifies st
    ensures st.Valid()
    ensures Key(Amenity, amenityId) !in old(st.objects) ==> o == NotFound && unchanged(st)
    ensures verb == GET ==> unchanged(st) && o == ItemOutcome(st.objects, Key(Amenity, amenityId))
    ensures verb == HEAD && Key(Amenity, amenityId) in old(st.objects) ==> unchanged(st) && o == NoResponse
    ensures verb == PUT ==> UpdateEffect(st, Key(Amenity, amenityId), body, Protected, o)
    ensures verb == DELETE ==> DeleteEffect(st, Key(Amenity, amenityId), o)
  {
    var k := Key(Amenity, amenityId);
    if k !in st.objects {
      return NotFound;
    }
    if verb == GET {
      o := ItemOutcome(st.objects, k);
    } else if verb == HEAD {
      o := NoResponse;
    } else if verb == PUT {
      o := UpdateItem(st, k, body, Protected);
    } else {
      o := DeleteItem(st, k);
    }
  }
}
