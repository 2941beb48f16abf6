/** The view functions of api/v1/views/users.py. */
module UserViews {
  import opened Values
  import opened Store
  import opened Resource

  /** Keys a PUT on a user never assigns; `password` is not among them. */
  const Protected: set<string> := {"id", "email", "created_at", "updated_at"}

  /** Fields a new user must carry, in the order they are checked. */
  const Required: seq<string> := ["email", "password"]

  /** A body lacking `email` is refused for it, whether or not `password` is there. */
  lemma EmailCheckedFirst(body: Body)
    requires HasData(body) && "email" !in body.value
    ensures Validate(body, Required) == Some(BadRequest("Missing email"))
  {
    FirstRequiredCheckedFirst(body, Required);
    assert "Missing " + "email" == "Missing email";
  }

  /** `get_users()`: every stored user. */
  method GetUsers(st: Storage) returns (o: Outcome)
    requires st.Valid()
    ensures o == Ok(200, JArray(Listing(st.order, st.objects, User, Every)))
    ensures |o.body.items| == st.Count(User)
  {
    var items := ListOf(st, User, Every);
    ListingCountsKind(st, User);
    o := Ok(200, JArray(items));
  }

  /** `get_user(user_id)`. */
  method GetUser(st: Storage, userId: string) returns (o: Outcome)
    ensures Key(User, userId) !in st.objects ==> o == NotFound
    ensures Key(User, userId) in st.objects ==> o == Ok(200, JObject(st.objects[Key(User, userId)]))
  {
    o := ItemOutcome(st.objects, Key(User, userId));
  }

  /** `delete_user(user_id)`. */
  method DeleteUser(st: Storage, userId: string) returns (o: Outcome)
    requires st.Valid()
    modifies st
    ensures st.Valid() && DeleteEffect(st, Key(User, userId), o)
  {
    o := DeleteItem(st, Key(User, userId));
  }

  /** `create_user()`: the body checks, then a new user holding every body field. */
  method CreateUser(st: Storage, body: Body, freshId: string) returns (o: Outcome)
    requires st.Valid() && Key(User, freshId) !in st.objects
    modifies st
    ensures st.Valid()
    ensures Validate(body, Required).Some? ==> o == Validate(body, Required).value && unchanged(st)
    ensures Validate(body, Required).None? ==>
      Inserted(st, Key(User, freshId), body.value) && o == Ok(201, JObject(body.value))
  {
    var invalid := Validate(body, Required);
    if invalid.Some? {
      return invalid.value;
    }
    st.New(Key(User, freshId), body.value);
    o := Ok(201, JObject(body.value));
  }

  /** `update_user(user_id)`. */
  method UpdateUser(st: Storage, userId: string, body: Body) returns (o: Outcome)
    requires st.Valid()
    modifies st
    ensures st.Valid() && UpdateEffect(st, Key(User, userId), body, Protected, o)
  {
    o := UpdateItem(st, Key(User, userId), body, Protected);
  }
}
