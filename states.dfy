/** The view functions of api/v1/views/states.py. */
module StateViews {
  import opened Values
  import opened Store
  import opened Resource

  /** Keys a PUT on a state never assigns. */
  const Protected: set<string> := {"id", "created_at", "updated_at"}

  /**
   * `states()`: GET lists every state; POST creates one from the body but
   * falls off the end of the function, so it answers with no response value.
   */
  method States(st: Storage, verb: Verb, body: Body, freshId: string) returns (o: Outcome)
    requires st.Valid() && (verb == GET || verb == HEAD || verb == POST)
    requires verb == POST ==> Key(State, freshId) !in st.objects
    modifies st
    ensures st.Valid()
    ensures verb == GET ==>
      && unchanged(st)
      && o == Ok(200, JArray(Listing(st.order, st.objects, State, Every)))
      && |o.body.items| == st.Count(State)
    ensures verb == HEAD ==> unchanged(st) && o == NoResponse
    ensures verb == POST && Validate(body, ["name"]).Some? ==>
      unchanged(st) && o == Validate(body, ["name"]).value
    ensures verb == POST && Validate(body, ["name"]).None? ==>
      Inserted(st, Key(State, freshId), body.value) && o == NoResponse
  {
    if verb == GET {
      var items := ListOf(st, State, Every);
      ListingCountsKind(st, State);
      return Ok(200, JArray(items));
    }
    if verb == HEAD {
      return NoResponse;
    }
    var invalid := Validate(body, ["name"]);
    if invalid.Some? {
      return invalid.value;
    }
    st.New(Key(State, freshId), body.value);
    o := NoResponse;
  }

  /** `state(state_id)`: look the state up, then GET, PUT or DELETE it. */
  method StateById(st: Storage, verb: Verb, stateId: string, body: Body) returns (o: Outcome)
    requires st.Valid() && (verb == GET || verb == HEAD || verb == PUT || verb == DELETE)
    modifies st
    ensures st.Valid()
    ensures Key(State, stateId) !in old(st.objects) ==> o == NotFound && unchanged(st)
    ensures verb == GET ==> unchanged(st) && o == ItemOutcome(st.objects, Key(State, stateId))
    ensures verb == HEAD && Key(State, stateId) in old(st.objects) ==> unchanged(st) && o == NoResponse
    ensures verb == PUT ==> UpdateEffect(st, Key(State, stateId), body, Protected, o)
    ensures verb == DELETE ==> DeleteEffect(st, Key(State, stateId), o)
  {
    var k := Key(State, stateId);
    if k !in st.objects {
      return NotFound;
    }
    if verb == GET {
      o := ItemOutcome(st.objects, k);
    } else if verb == HEAD {
      o := NoResponse;
    } else if verb == PUT {
      o := UpdateItem(st, k, body, Protected);
    } else {
      o := DeleteItem(st, k);
    }
  }
}
