/**
 * What every view function in api/v1/views shares: request bodies, handler
 * outcomes, the ordered presence checks on a POST body, the whitelisted
 * `setattr` update, the filtered listing over `storage.all`, and the
 * lookup/update/delete steps of the by-id routes.
 */
module Resource {
  import opened Values
  import opened Store

  /** A request body as `request.get_json()` hands it over: absent, or a JSON object. */
  type Body = Option<map<string, Json>>

  /**
   * The HTTP method a view function dispatches on. A route that lists GET
   * also answers HEAD, with the same view function.
   */
  datatype Verb = GET | HEAD | POST | PUT | DELETE

  /** What a view function produces, before the app-wide error handler sees it. */
  datatype Outcome =
    | Ok(status: int, body: Json)              // `return jsonify(...), status`
    | Abort(code: int, message: Option<string>) // `abort(code)` / `abort(code, message)`
    | NoResponse                               // the view function returned None
    | Raised(error: string)                    // an exception other than `abort`

  const NotFound: Outcome := Abort(404, None)
  const Deleted: Outcome := Ok(200, JObject(map[]))

  function BadRequest(message: string): (o: Outcome) {
    Abort(400, Some(message))
  }

  /** Python's `if not data` fails for an absent body and for `{}` alike. */
  predicate HasData(body: Body) {
    body.Some? && body.value != map[]
  }

  // ---------------------------------------------------------------- POST checks

  /** The first of the `required` names, in order, that `data` lacks. */
  function FirstMissing(data: map<string, Json>, required: seq<string>): (r: Option<string>)
    ensures r.None? <==> forall i :: 0 <= i < |required| ==> required[i] in data
    ensures r.Some? ==>
      exists i :: 0 <= i < |required| && required[i] == r.value && r.value !in data &&
        forall j :: 0 <= j < i ==> required[j] in data
  {
    if required == [] then None
    else if required[0] !in data then Some(required[0])
    else
      FirstMissing(data, required[1..])
  }

  /**
   * The 400 a create handler answers before building anything: 'Not a JSON'
   * for an absent or empty body, then 'Missing <field>' for the first
   * required field that is absent; None when the body passes.
   */
  function Validate(body: Body, required: seq<string>): (r: Option<Outcome>) {
    if !HasData(body) then Some(BadRequest("Not a JSON"))
    else match FirstMissing(body.value, required)
      case Some(field) => Some(BadRequest("Missing " + field))
      case None => None
  }

  /** A non-empty body that lacks the first required field is refused for it, whatever else it lacks. */
  lemma FirstRequiredCheckedFirst(body: Body, required: seq<string>)
    requires HasData(body) && |required| > 0 && required[0] !in body.value
    ensures Validate(body, required) == Some(BadRequest("Missing " + required[0]))
  {
  }

  /** `data` names an object of class `kind` that is in the store. */
  predicate Refers(objects: map<Key, Record>, kind: Kind, ref: Json) {
    ref.JStr? && Key(kind, ref.s) in objects
  }

  // ---------------------------------------------------------------- PUT

  /**
   * The object after `for key, value in data.items(): if key not in protected:
   * setattr(obj, key, value)`.
   */
  function Updated(rec: Record, data: map<string, Json>, protected: set<string>): (r: Record) {
    map f | f in rec.Keys + (data.Keys - protected) ::
      if f in data && f !in protected then data[f] else rec[f]
  }

  /** A protected field keeps its presence and value whatever the body says. */
  lemma UpdatedKeepsProtected(rec: Record, data: map<string, Json>, protected: set<string>, f: string)
    requires f in protected
    ensures f in Updated(rec, data, protected) <==> f in rec
    ensures f in rec ==> Updated(rec, data, protected)[f] == rec[f]
  {
  }

  /** Every other key of the body is assigned its value. */
  lemma UpdatedAssigns(rec: Record, data: map<string, Json>, protected: set<string>, f: string)
    requires f in data && f !in protected
    ensures f in Updated(rec, data, protected) && Updated(rec, data, protected)[f] == data[f]
  {
  }

  /** A field the body does not mention is left as it was. */
  lemma UpdatedKeepsAbsent(rec: Record, data: map<string, Json>, protected: set<string>, f: string)
    requires f !in data
    ensures f in Updated(rec, data, protected) <==> f in rec
    ensures f in rec ==> Updated(rec, data, protected)[f] == rec[f]
  {
  }

  /** Applying the same body twice leaves the fields as applying it once. */
  lemma UpdatedIdempotent(rec: Record, data: map<string, Json>, protected: set<string>)
    ensures Updated(Updated(rec, data, protected), data, protected) == Updated(rec, data, protected)
  {
  }

  /** One more body key processed by the update loop. */
  lemma UpdatedStep(rec: Record, data: map<string, Json>, todo: set<string>, protected: set<string>, f: string)
    requires f in todo && todo <= data.Keys
    ensures Updated(rec, data - (todo - {f}), protected)
         == if f in protected then Updated(rec, data - todo, protected)
            else Updated(rec, data - todo, protected)[f := data[f]]
  {
  }

  // ---------------------------------------------------------------- listings

  /** Which objects of a class a listing keeps: all of them, or those owned by one parent. */
  datatype Filter = Every | Owned(field: string, owner: string)

  predicate Selected(objects: map<Key, Record>, k: Key, kind: Kind, filter: Filter) {
    && k in objects
    && k.kind == kind
    && match filter
       case Every => true
       case Owned(field, owner) => field in objects[k] && objects[k][field] == JStr(owner)
  }

  /** `[obj.to_dict() for obj in storage.all(kind).values() if <filter>]`, in store order. */
  function Listing(order: seq<Key>, objects: map<Key, Record>, kind: Kind, filter: Filter): (r: seq<Json>) {
    if order == [] then []
    else
      var k := order[|order| - 1];
      Listing(order[..|order| - 1], objects, kind, filter)
        + (if Selected(objects, k, kind, filter) then [JObject(objects[k])] else [])
  }

  /** A listing holds the selected objects and nothing else. */
  lemma {:induction false} ListingMembers(order: seq<Key>, objects: map<Key, Record>, kind: Kind, filter: Filter)
    ensures forall x :: x in Listing(order, objects, kind, filter) ==>
      exists k :: k in order && Selected(objects, k, kind, filter) && x == JObject(objects[k])
    ensures forall k :: k in order && Selected(objects, k, kind, filter) ==>
      JObject(objects[k]) in Listing(order, objects, kind, filter)
  {
    if order != [] {
      var init := order[..|order| - 1];
      ListingMembers(init, objects, kind, filter);
      assert forall k :: k in order ==> k in init || k == order[|order| - 1];
      assert forall k :: k in init ==> k in order;
    }
  }

  /** The stored objects a listing keeps, whatever their order. */
  function Chosen(objects: map<Key, Record>, kind: Kind, filter: Filter): (r: set<Key>) {
    set k | k in objects && Selected(objects, k, kind, filter)
  }

  lemma SplitCount(order: seq<Key>, chosen: set<Key>)
    requires order != [] && Distinct(order)
    ensures |set k | k in order && k in chosen|
        == |set k | k in order[..|order| - 1] && k in chosen| + (if order[|order| - 1] in chosen then 1 else 0)
  {
    var init, last := order[..|order| - 1], order[|order| - 1];
    assert last !in init;
    var before := set k | k in init && k in chosen;
    var after := set k | k in order && k in chosen;
    assert order == init + [last];
    if last in chosen {
      assert after == before + {last};
    } else {
      assert after == before;
    }
  }

  /** Over an order without repeats, a listing has one entry per chosen object it passes. */
  lemma {:induction false} ListingLength(order: seq<Key>, objects: map<Key, Record>, kind: Kind, filter: Filter)
    requires Distinct(order)
    ensures |Listing(order, objects, kind, filter)| == |set k | k in order && k in Chosen(objects, kind, filter)|
  {
    if order != [] {
      var init := order[..|order| - 1];
      assert Distinct(init) by {
        forall i, j | 0 <= i < j < |init| ensures init[i] != init[j] {
          assert init[i] == order[i] && init[j] == order[j];
        }
      }
      ListingLength(init, objects, kind, filter);
      SplitCount(order, Chosen(objects, kind, filter));
    }
  }

  /** The unfiltered listing of a consistent store has one entry per stored object of the class. */
  lemma ListingCountsKind(st: Storage, kind: Kind)
    requires st.Valid()
    ensures |Listing(st.order, st.objects, kind, Every)| == st.Count(kind)
  {
    ListingLength(st.order, st.objects, kind, Every);
    assert (set k | k in st.order && k in Chosen(st.objects, kind, Every))
        == (set k | k in st.objects && k.kind == kind);
  }

  /** Builds a listing the way the view functions do: one pass over the store. */
  method ListOf(st: Storage, kind: Kind, filter: Filter) returns (items: seq<Json>)
    ensures items == Listing(st.order, st.objects, kind, filter)
  {
    items := [];
    var i := 0;
    while i < |st.order|
      invariant 0 <= i <= |st.order|
      invariant items == Listing(st.order[..i], st.objects, kind, filter)
    {
      var k := st.order[i];
      assert st.order[..i + 1][..i] == st.order[..i];
      if Selected(st.objects, k, kind, filter) {
        items := items + [JObject(st.objects[k])];
      }
      i := i + 1;
    }
    assert st.order[..i] == st.order;
  }

  // ---------------------------------------------------------------- by-id routes

  /** The GET branch of a by-id route: the object's dictionary, or 404. */
  function ItemOutcome(objects: map<Key, Record>, k: Key): (o: Outcome)
    ensures k !in objects ==> o == NotFound
    ensures k in objects ==> o.Ok? && o.status == 200 && o.body == JObject(objects[k])
  {
    if k in objects then Ok(200, JObject(objects[k])) else NotFound
  }

  /** `storage.new(obj)`: `k` was added at the end with `rec` as its attributes. */
  twostate predicate Inserted(st: Storage, k: Key, rec: Record)
    reads st
  {
    st.objects == old(st.objects)[k := rec] && st.order == old(st.order) + [k]
  }

  /** The DELETE branch: 404 with nothing changed, or exactly `k` removed and `{}` returned. */
  twostate predicate DeleteEffect(st: Storage, k: Key, o: Outcome)
    reads st
  {
    if k in old(st.objects) then
      o == Deleted && st.objects == old(st.objects) - {k} && st.order == Without(old(st.order), k)
    else
      o == NotFound && st.objects == old(st.objects) && st.order == old(st.order)
  }

  /** The PUT branch: 404, then 400 'Not a JSON', else the whitelisted update of `k` alone. */
  twostate predicate UpdateEffect(st: Storage, k: Key, body: Body, protected: set<string>, o: Outcome)
    reads st
  {
    && st.order == old(st.order)
    && if k !in old(st.objects) then
         o == NotFound && st.objects == old(st.objects)
       else if !HasData(body) then
         o == BadRequest("Not a JSON") && st.objects == old(st.objects)
       else
         && st.objects == old(st.objects)[k := Updated(old(st.objects)[k], body.value, protected)]
         && o == Ok(200, JObject(st.objects[k]))
  }

  method DeleteItem(st: Storage, k: Key) returns (o: Outcome)
    requires st.Valid()
    modifies st
    ensures st.Valid() && DeleteEffect(st, k, o)
  {
    if k !in st.objects {
      return NotFound;
    }
    st.Delete(k);
    o := Deleted;
  }

  /** One `setattr` per body key outside `protected`, on the stored object. */
  method UpdateItem(st: Storage, k: Key, body: Body, protected: set<string>) returns (o: Outcome)
    requires st.Valid()
    modifies st
    ensures st.Valid() && UpdateEffect(st, k, body, protected, o)
  {
    if k !in st.objects {
      return NotFound;
    }
    if !HasData(body) {
      return BadRequest("Not a JSON");
    }
    var data := body.value;
    ghost var rec := st.objects[k];
    var todo := data.Keys;
    assert data - todo == map[];
    assert Updated(rec, map[], protected) == rec;
    while todo != {}
      invariant st.Valid() && st.order == old(st.order) && todo <= data.Keys
      invariant st.objects == old(st.objects)[k := Updated(rec, data - todo, protected)]
      decreases todo
    {
      var f :| f in todo;
      if f !in protected {
        st.SetField(k, f, data[f]);
      }
      UpdatedStep(rec, data, todo, protected, f);
      todo := todo - {f};
    }
    assert data - {} == data;
    o := Ok(200, JObject(st.objects[k]));
  }
}
