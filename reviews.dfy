/** The view functions of api/v1/views/reviews.py. */
module ReviewViews {
  import opened Values
  import opened Store
  import opened Resource

  /** Keys a PUT on a review never assigns. */
  const Protected: set<string> := {"id", "user_id", "place_id", "created_at", "updated_at"}

  /** Fields a new review must carry, in the order they are checked. */
  const Required: seq<string> := ["user_id", "text"]

  /** A body lacking `user_id` is refused for it, whether or not `text` is there. */
  lemma UserIdCheckedFirst(body: Body)
    requires HasData(body) && "user_id" !in body.value
    ensures Validate(body, Required) == Some(BadRequest("Missing user_id"))
  {
    FirstRequiredCheckedFirst(body, Required);
    assert "Missing " + "user_id" == "Missing user_id";
  }

  /**
   * `get_place_reviews(place_id)`: the reviews of a known place. `place.reviews`
   * is modelled as the reviews whose `place_id` is the route id, in store order.
   */
  method GetPlaceReviews(st: Storage, placeId: string) returns (o: Outcome)
    ensures Key(Place, placeId) !in st.objects ==> o == NotFound
    ensures Key(Place, placeId) in st.objects ==>
      o == Ok(200, JArray(Listing(st.order, st.objects, Review, Owned("place_id", placeId))))
  {
    if Key(Place, placeId) !in st.objects {
      return NotFound;
    }
    var items := ListOf(st, Review, Owned("place_id", placeId));
    o := Ok(200, JArray(items));
  }

  /** `get_review(review_id)`. */
  method GetReview(st: Storage, reviewId: string) returns (o: Outcome)
    ensures Key(Review, reviewId) !in st.objects ==> o == NotFound
    ensures Key(Review, reviewId) in st.objects ==> o == Ok(200, JObject(st.objects[Key(Review, reviewId)]))
  {
    o := ItemOutcome(st.objects, Key(Review, reviewId));
  }

  /** `delete_review(review_id)`. */
  method DeleteReview(st: Storage, reviewId: string) returns (o: Outcome)
    requires st.Valid()
    modifies st
    ensures st.Valid() && DeleteEffect(st, Key(Review, reviewId), o)
  {
    o := DeleteItem(st, Key(Review, reviewId));
  }

  /**
   * `create_review(place_id)`: 404 for an unknown place, then the body checks,
   * then 404 for an unknown `user_id`; the body's `place_id` is overwritten by
   * the route id before the review is built.
   */
  method CreateReview(st: Storage, placeId: string, body: Body, freshId: string) returns (o: Outcome)
    requires st.Valid() && Key(Review, freshId) !in st.objects
    modifies st
    ensures st.Valid()
    ensures Key(Place, placeId) !in old(st.objects) ==> o == NotFound && unchanged(st)
    ensures Key(Place, placeId) in old(st.objects) && Validate(body, Required).Some? ==>
      o == Validate(body, Required).value && unchanged(st)
    ensures Key(Place, placeId) in old(st.objects) && Validate(body, Required).None? ==>
      if !Refers(old(st.objects), User, body.value["user_id"]) then
        o == NotFound && unchanged(st)
      else
        var rec := body.value["place_id" := JStr(placeId)];
        Inserted(st, Key(Review, freshId), rec) && o == Ok(201, JObject(rec))
  {
    if Key(Place, placeId) !in st.objects {
      return NotFound;
    }
    var invalid := Validate(body, Required);
    if invalid.Some? {
      return invalid.value;
    }
    if !Refers(st.objects, User, body.value["user_id"]) {
      return NotFound;
    }
    var rec := body.value["place_id" := JStr(placeId)];
    st.New(Key(Review, freshId), rec);
    o := Ok(201, JObject(rec));
  }

  /** `update_review(review_id)`. */
  method UpdateReview(st: Storage, reviewId: string, body: Body) returns (o: Outcome)
    requires st.Valid()
    modifies st
    ensures st.Valid() && UpdateEffect(st, Key(Review, reviewId), body, Protected, o)
  {
    o := UpdateItem(st, Key(Review, reviewId), body, Protected);
  }
}
