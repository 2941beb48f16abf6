# AirBnB clone REST API: request handlers in Dafny

This project models the view functions of the `/api/v1` REST API of the AirBnB
clone (`api/v1/views/*.py`). The API does create, read, update and delete over six
entity classes: State, City, Amenity, Place, Review and User. The model checks
each handler step by step in the order the source does:

- the id lookup, which gives 404;
- the body checks, which give 400 'Not a JSON' and then 'Missing <field>' in a fixed order;
- the parent and user lookups on nested creates;
- the foreign key that a nested create takes from the route;
- the per-entity list of keys that a PUT never assigns;
- the listing filters.

## Structure

- `values.dfy` (`Values`): `Option` and a JSON value type.
- `store.dfy` (`Store`): the storage gateway the views call (`storage.get`, `all`,
  `new`/`save`, `delete`, `count`). It is a class `Storage` whose fields the handlers
  update in place. `objects` maps (class, id) to the object's attribute map, and
  `order` is the order `storage.all` iterates in. `Valid()` says
  that every stored object appears in `order` exactly once.
- `resource.dfy` (`Resource`): what all view files share. It holds the request body
  (`Option<map>`; Python's `if not data` is `HasData`), the handler outcome
  (`Ok(status, body)`, `Abort(code, message)`, `NoResponse`, `Raised(error)`), and
  the ordered POST checks (`FirstMissing`, `Validate`). It also holds the
  whitelisted `setattr` loop (`UpdateItem`, specified by the function `Updated`),
  the listing comprehension (`ListOf`, specified by `Listing`), and the lookup and
  delete steps of the by-id routes.
- `amenities.dfy`, `states.dfy`, `cities.dfy`, `places.dfy`, `reviews.dfy`,
  `users.dfy`, `index.dfy`: one module per view file and one method per view
  function. A view that serves several HTTP methods takes the method as a `Verb`
  parameter.
- `app.dfy` (`App`): the application-wide error handler. It also has clients that run
  request sequences through the views: `CreateStateAndCity`, `DeleteAndFetchCity`
  and `CreateThenFetchAmenity`.

Assumptions about collaborators whose code is not part of this model:

- The model layer (`BaseModel`, `to_dict`, `save`) does nothing to the attribute
  map. A created object's record is exactly the body, plus the route's foreign key
  on nested creates. `to_dict()` is that record.
- uuid id generation is the parameter `freshId`. Its requirement, that no object of
  that class has that id yet, stands for the generator's uniqueness.
- `city.places` and `place.reviews` are the places (reviews) whose `city_id`
  (`place_id`) is the route id, in store order.
- `storage.all` returns objects in the order they were stored: `Storage.New`
  appends the new key to `order`. The storage engine's code is not part of this
  model, and a database engine may return rows in another order.
- `storage.get(User, user_id)` finds nothing when the body's `user_id` is not a
  string.

Three behaviours are modelled as the code does them, although the functions' own docstrings say otherwise:

- `states()` POST stores the new state but returns no response value (states.py:29-30), so it has no 201, although states.py:14-17 promises a JSON answer.
- The error handler registered for `Exception` in api/v1/app.py:19-22 also receives `abort(400, ...)`, although its docstring at app.py:21 speaks only of 404 errors. Every 400 therefore reaches the client as 404 `{"error": "Not found"}`. The handler-level outcomes keep the 400s distinct, and `App.Respond` is the final mapping.
- `City(state_id=state_id, **data)` raises a duplicate-keyword `TypeError` when the body itself holds `state_id`, and then nothing is created (cities.py:21-22 promises the created city).

Flask also answers HEAD on every route that lists GET, which the views' code does not mention:

- A route that lists GET also answers HEAD with the same view function. A view that branches on `request.method` matches no branch for HEAD and returns nothing; the views of amenities.py, states.py and cities.py that serve several methods, and `stats()` in index.py:16, do this. Each of these takes the method as a `Verb` and answers HEAD with `NoResponse`, after its id or parent lookup where it has one. The single-method views of places.py, reviews.py and users.py answer HEAD as they answer GET and need no verb.

## Model

| member | source | states |
|---|---|---|
| `Resource.FirstRequiredCheckedFirst` | api/v1/views/users.py:81-86 | a non-empty body lacking the first required field is refused with 'Missing <that field>', whatever else it lacks |
| `Resource.FirstMissing` | api/v1/views/places.py:96-99 | the required fields are checked in their listed order: no result exactly when all are present, otherwise the first absent one, every field before it being present |
| `Resource.UpdateItem` | api/v1/views/states.py:55-63 | unknown id: 404 and nothing changes; absent or empty body: 400 'Not a JSON' and nothing changes; otherwise the stored object becomes `Updated(old, body, protected)`, no other object changes, and the 200 answer is the new object |
| `Resource.UpdatedKeepsProtected` | api/v1/views/reviews.py:133-135 | a key in the entity's protected list keeps its presence and value, whatever the body holds for it |
| `Resource.UpdatedAssigns` | api/v1/views/places.py:128-130 | every body key outside the protected list is assigned the body's value |
| `Resource.UpdatedKeepsAbsent` | api/v1/views/reviews.py:133-136 | a field the body does not mention keeps its presence and value |
| `Resource.UpdatedIdempotent` | api/v1/views/reviews.py:133-136 | applying the same body twice leaves the same fields as applying it once |
| `Resource.ListOf` | api/v1/views/cities.py:34-35 | the one-pass loop over the store returns exactly `Listing` of the store: the selected objects' dictionaries in store order |
| `Resource.ListingMembers` | api/v1/views/cities.py:34-36 | every listed entry is the dictionary of a stored object of the class that passes the filter (for a nested list, its foreign key equals the route id), and every such object is listed |
| `Resource.ListingLength` | api/v1/views/users.py:17-18 | over an order without repeats, a listing has one entry per object it selects |
| `Resource.ListingCountsKind` | api/v1/views/amenities.py:10-12 | on a consistent store the unfiltered listing of a class has exactly as many entries as the store holds objects of that class |
| `Resource.ItemOutcome` | api/v1/views/amenities.py:26-31 | a by-id GET answers 404 for an unknown id and 200 with the stored object's dictionary otherwise |
| `Resource.DeleteItem` | api/v1/views/amenities.py:43-46 | unknown id: 404 and nothing changes; otherwise exactly that key leaves the store and the iteration order, every other object is unchanged, and the answer is `{}` with 200 |
| `AmenityViews.Amenities` | api/v1/views/amenities.py:8-22 | HEAD gets no response and changes nothing; GET lists every amenity, one entry per stored amenity, without changing the store; POST answers 'Not a JSON', then 'Missing name', with nothing stored, otherwise stores the body as a new amenity and answers 201 with it |
| `AmenityViews.AmenityList` | api/v1/views/amenities.py:24-46 | an unknown id gives 404 for every verb with nothing changed; HEAD on a stored id gets no response; PUT never assigns `id`, `created_at`, `updated_at`; DELETE removes only that amenity |
| `StateViews.States` | api/v1/views/states.py:8-30 | HEAD gets no response; GET lists every state, one entry per stored state; POST answers 'Not a JSON', then 'Missing name'; a valid POST stores the state but answers with no response value |
| `StateViews.StateById` | api/v1/views/states.py:33-68 | an unknown id gives 404 for every verb with nothing changed; HEAD on a stored id gets no response; PUT protects only `id`, `created_at`, `updated_at`; DELETE removes only that state and answers `{}` with 200 |
| `CityViews.Cities` | api/v1/views/cities.py:10-46 | an unknown state gives 404 before the body is looked at; HEAD on a stored state gets no response; GET lists the cities whose `state_id` is the route id; POST answers 'Not a JSON', then 'Missing name'; a body holding `state_id` raises and stores nothing; otherwise the city is stored with `state_id` set to the route id and answered with 201 |
| `CityViews.CityList` | api/v1/views/cities.py:49-89 | an unknown id gives 404 with nothing changed; HEAD on a stored id gets no response; PUT never assigns `id`, `state_id`, `created_at`, `updated_at` and answers 200; DELETE removes only that city and answers `{}` |
| `CityViews.GetCities` | api/v1/views/cities.py:92-101 | every stored city, unfiltered, one entry per city |
| `PlaceViews.GetCityPlaces` | api/v1/views/places.py:13-31 | unknown city: 404; otherwise the places whose `city_id` is the route id, in store order; the store is not modified (no `modifies` clause) |
| `PlaceViews.GetPlace` | api/v1/views/places.py:34-51 | unknown id: 404; otherwise 200 with the stored place; the store is not modified |
| `PlaceViews.DeletePlace` | api/v1/views/places.py:54-73 | unknown id: 404 with nothing changed; otherwise exactly that place is removed and the answer is `{}` with 200 |
| `PlaceViews.CreatePlace` | api/v1/views/places.py:76-108 | checks in order: city 404, 'Not a JSON', 'Missing user_id', 'Missing name', user 404, with nothing stored on any of them; then stores the body with `city_id` forced to the route id and answers 201 with it |
| `PlaceViews.UserIdCheckedFirst` | api/v1/views/places.py:96-99 | a body lacking `user_id` is refused with 'Missing user_id' even when `name` is missing too |
| `PlaceViews.UpdatePlace` | api/v1/views/places.py:111-132 | unknown id: 404; empty body: 400 'Not a JSON' with the place unchanged; otherwise every key but `id`, `user_id`, `city_id`, `created_at`, `updated_at` is assigned and the answer is 200 |
| `ReviewViews.GetPlaceReviews` | api/v1/views/reviews.py:13-31 | unknown place: 404; otherwise the reviews whose `place_id` is the route id, in store order; the store is not modified (no `modifies` clause) |
| `ReviewViews.GetReview` | api/v1/views/reviews.py:34-51 | unknown id: 404; otherwise 200 with the stored review; the store is not modified |
| `ReviewViews.DeleteReview` | api/v1/views/reviews.py:54-73 | unknown id: 404 with nothing changed; otherwise exactly that review is removed, every other record is unchanged, and the answer is `{}` with 200 |
| `ReviewViews.CreateReview` | api/v1/views/reviews.py:76-109 | checks in order: place 404, 'Not a JSON', 'Missing user_id', 'Missing text', user 404, with nothing stored on any of them; then stores every body field with `place_id` overwritten by the route id and answers 201 |
| `ReviewViews.UserIdCheckedFirst` | api/v1/views/reviews.py:97-100 | a body lacking `user_id` is refused with 'Missing user_id' even when `text` is missing too |
| `ReviewViews.UpdateReview` | api/v1/views/reviews.py:112-137 | unknown id: 404 with nothing changed; empty body: 400 'Not a JSON'; otherwise `id`, `user_id`, `place_id`, `created_at`, `updated_at` keep their values and every other body key is assigned |
| `UserViews.GetUsers` | api/v1/views/users.py:9-18 | exactly one entry per stored user, in store order |
| `UserViews.GetUser` | api/v1/views/users.py:21-38 | unknown id: 404; otherwise 200 with the stored user; the store is not modified |
| `UserViews.DeleteUser` | api/v1/views/users.py:41-60 | unknown id: 404 with nothing changed; otherwise exactly that user is removed and the answer is `{}` with 200 |
| `UserViews.CreateUser` | api/v1/views/users.py:63-90 | 'Not a JSON', then 'Missing email', then 'Missing password', with nothing stored; otherwise every body field is stored as a new user, with no check that the email is unused, and the answer is 201 |
| `UserViews.EmailCheckedFirst` | api/v1/views/users.py:83-86 | a body lacking `email` is refused with 'Missing email' even when `password` is missing too |
| `UserViews.UpdateUser` | api/v1/views/users.py:93-114 | unknown id: 404; empty body: 400 'Not a JSON'; otherwise `id`, `email`, `created_at`, `updated_at` keep their values and `password` and every other key is assigned |
| `IndexViews.Status` | api/v1/views/index.py:7-11 | always 200 with `{"status": "OK"}` |
| `IndexViews.Stats` | api/v1/views/index.py:13-28 | HEAD gets no response; for GET the keys are exactly amenities, cities, places, reviews, states and users; each value is the store's count of the class that `PLURALS` pairs with it; the store is not modified (the method has no `modifies` clause) |
| `App.Respond` | api/v1/app.py:19-22 | a view's own answer goes out unchanged; every abort (400 included), a missing response value and any other exception become 404 `{"error": "Not found"}` |
| `App.CreateStateAndCity` | api/v1/views/states.py:23-30 | creating a state stores it although the client receives 404; a city created under it is stored and answered with 201 with `state_id` set to the state's id, and it appears in the state's city list |
| `App.DeleteAndFetchCity` | api/v1/views/cities.py:86-89 | deleting a stored city answers `{}` with 200 and removes only that city; fetching it again answers 404 |
| `App.CreateThenFetchAmenity` | api/v1/views/amenities.py:14-31 | a valid amenity POST stores the body under the new id and answers it with 201; a GET of that id then answers the same dictionary with 200 |

## Left out

- Flask routing and app wiring are not modelled. This includes the blueprints in `places.py`, `reviews.py` and `users.py`, which the app never registers. Their handlers are modelled as if reachable.
- Routing by HTTP method is not modelled. A view receives only the methods its route lists, plus HEAD wherever GET is listed; the `requires` on `verb` says which. Flask raises 405 before a view runs, and api/v1/app.py:19-22 turns it into 404 `{"error": "Not found"}` like every other error.
- JSON parsing and `jsonify` are not modelled. A body is an already-parsed JSON object, or absent.
- Bodies that are JSON but not objects (a list, a string, a number) are left out. So is Flask's own refusal of a request whose content type is not JSON.
- JSON numbers are integers only. Floating-point values are not modelled.
- The model layer is left out, because its code is not part of this model. This covers uuid generation (the `freshId` parameter), the `created_at`/`updated_at` timestamps and their refresh by `save()`, and the exact shape of `to_dict`. It also covers a body `id` taking the place of the generated id, and any hashing of `password` on assignment.
- Resource.UpdateItem: a body key that names a method or special attribute of the Python object (`__class__`, `save`, `to_dict`, ...) is assigned like any other field in the model. In the source, `setattr(obj, '__class__', v)` raises part-way through the loop, after earlier keys were set. An assigned `save` or `to_dict` makes the next `obj.save()` or `obj.to_dict()` raise. The app then answers 404. The same holds for the PUT views built on it (`AmenityViews.AmenityList`, `StateViews.StateById`, `CityViews.CityList`, `PlaceViews.UpdatePlace`, `ReviewViews.UpdateReview`, `UserViews.UpdateUser`).
- AmenityViews.Amenities, StateViews.States, CityViews.Cities, PlaceViews.CreatePlace, ReviewViews.CreateReview, UserViews.CreateUser: a body key naming a method or special attribute is stored as a field in the model. In the source, `X(**data)` followed by `.save()` and `.to_dict()` raises on such keys, and the app answers 404.
- Objects are records held by value in the store, so object identity is not modelled. A `setattr` is an update of the stored record, and aliasing between Python objects is not captured.
- Persistence, ORM relationships and cascade on delete belong to the storage engine. Deleting a state, city, place or user leaves its children in place.
- The CORS setup, `storage.close()` at teardown and the threaded server are left out. They are lifecycle, I/O and concurrency.
