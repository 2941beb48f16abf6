/**
 * The storage gateway the handlers consume (`storage.get`, `all`, `new`/`save`,
 * `delete`, `count`), modelled as an in-memory map from (class, id) to the
 * object's attribute map, plus the order in which objects were added, which is
 * the order `storage.all` iterates in.
 */
module Store {
  import opened Values

  /** The six entity classes of the API. */
  datatype Kind = Amenity | City | Place | Review | State | User

  /** Where an object lives in the store: its class and its id. */
  datatype Key = Key(kind: Kind, id: string)

  /** An object as its attribute map (what `to_dict` serialises). */
  type Record = map<string, Json>

  ghost predicate Distinct(s: seq<Key>) {
    forall i, j :: 0 <= i < j < |s| ==> s[i] != s[j]
  }

  /** `s` with every occurrence of `x` taken out, the rest in their order. */
  function Without(s: seq<Key>, x: Key): (r: seq<Key>)
    ensures forall y :: y in r <==> y in s && y != x
  {
    if s == [] then []
    else (if s[0] == x then [] else [s[0]]) + Without(s[1..], x)
  }

  lemma {:induction false} WithoutDistinct(s: seq<Key>, x: Key)
    requires Distinct(s)
    ensures Distinct(Without(s, x))
  {
    if s != [] {
      WithoutDistinct(s[1..], x);
      var rest := Without(s[1..], x);
      if s[0] != x {
        assert s[0] !in rest;
        forall i, j | 0 <= i < j < |[s[0]] + rest|
          ensures ([s[0]] + rest)[i] != ([s[0]] + rest)[j]
        {
          if i == 0 {
            assert ([s[0]] + rest)[j] == rest[j - 1];
          }
        }
      }
    }
  }

  class Storage {
    var objects: map<Key, Record>
    var order: seq<Key>

    /** Every stored object appears exactly once in the iteration order. */
    ghost predicate Valid()
      reads this
    {
      && (forall k :: k in objects <==> k in order)
      && Distinct(order)
    }

    constructor ()
      ensures Valid() && objects == map[] && order == []
    {
      objects := map[];
      order := [];
    }

    /** `storage.count(cls)`: how many objects of that class are stored. */
    function Count(kind: Kind): nat
      reads this
    {
      |set k | k in objects && k.kind == kind|
    }

    /** `obj.save()` on a new object: `storage.new(obj)` then persist. */
    method New(k: Key, rec: Record)
      requires Valid() && k !in objects
      modifies this
      ensures Valid()
      ensures objects == old(objects)[k := rec]
      ensures order == old(order) + [k]
    {
      objects := objects[k := rec];
      order := order + [k];
    }

    /** `storage.delete(obj)` then `storage.save()`. */
    method Delete(k: Key)
      requires Valid() && k in objects
      modifies this
      ensures Valid()
      ensures objects == old(objects) - {k}
      ensures order == Without(old(order), k)
    {
      WithoutDistinct(order, k);
      objects := objects - {k};
      order := Without(order, k);
    }

    /** `setattr(obj, name, value)` on a stored object. */
    method SetField(k: Key, name: string, value: Json)
      requires Valid() && k in objects
      modifies this
      ensures Valid()
      ensures objects == old(objects)[k := old(objects)[k][name := value]]
      ensures order == old(order)
    {
      objects := objects[k := objects[k][name := value]];
    }
  }
}
