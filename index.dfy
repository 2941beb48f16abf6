/** The view functions of api/v1/views/index.py. */
module IndexViews {
  import opened Values
  import opened Store
  import opened Resource

  /** `PLURALS`: each class, in the order the dictionary lists it, with its label in `/stats`. */
  const Plurals: seq<(Kind, string)> := [
    (Amenity, "amenities"),
    (City, "cities"),
    (Place, "places"),
    (Review, "reviews"),
    (State, "states"),
    (User, "users")
  ]

  /** `status()`: the fixed health answer. */
  function Status(): (o: Outcome)
    ensures o.Ok? && o.status == 200
    ensures o.body == JObject(map["status" := JStr("OK")])
  {
    Ok(200, JObject(map["status" := JStr("OK")]))
  }

  /** No two classes share a label. */
  lemma LabelsDistinct()
    ensures forall i, j :: 0 <= i < j < |Plurals| ==> Plurals[i].1 != Plurals[j].1
  {
  }

  lemma LabelSet()
    ensures (set j | 0 <= j < |Plurals| :: Plurals[j].1)
         == {"amenities", "cities", "places", "reviews", "states", "users"}
  {
    var labels := set j | 0 <= j < |Plurals| :: Plurals[j].1;
    assert Plurals[0].1 in labels && Plurals[1].1 in labels && Plurals[2].1 in labels;
    assert Plurals[3].1 in labels && Plurals[4].1 in labels && Plurals[5].1 in labels;
  }

  /**
   * `stats()`: for GET, one entry per class, keyed by its plural label, holding
   * `storage.count`; HEAD fails the `request.method == 'GET'` test and gets no response.
   */
  method Stats(st: Storage, verb: Verb) returns (o: Outcome)
    requires verb == GET || verb == HEAD
    ensures verb == HEAD ==> o == NoResponse
    ensures verb == GET ==> o.Ok? && o.status == 200 && o.body.JObject?
    ensures verb == GET ==>
      o.body.fields.Keys == {"amenities", "cities", "places", "reviews", "states", "users"}
    ensures verb == GET ==>
      forall i :: 0 <= i < |Plurals| ==> o.body.fields[Plurals[i].1] == JNum(st.Count(Plurals[i].0))
  {
    if verb == HEAD {
      return NoResponse;
    }
    LabelsDistinct();
    var response: map<string, Json> := map[];
    var i := 0;
    while i < |Plurals|
      invariant 0 <= i <= |Plurals|
      invariant response.Keys == set j | 0 <= j < i :: Plurals[j].1
      invariant forall j :: 0 <= j < i ==> response[Plurals[j].1] == JNum(st.Count(Plurals[j].0))
    {
      var pair := Plurals[i];
      response := response[pair.1 := JNum(st.Count(pair.0))];
      i := i + 1;
    }
    LabelSet();
    o := Ok(200, JObject(response));
  }
}
