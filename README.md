# Orders service of the food-delivery backend, in Dafny

This project models the Python orders service of the Food-Delivery-App. That service
keeps orders in one SQLite table and serves them over a small Flask API. It has two
layers:

- `python-server/db.py` creates the `orders` table, which is keyed by `order_id`. It
  inserts an order, reads one order, lists a user's orders or all orders newest first,
  and sets an order's status with a timestamp. The order's items are stored as a JSON
  text column.
- `python-server/server.py` holds the route handlers:
  - `POST /orders` enriches each requested item with a menu image, or a fallback
    picture URL built from the item's name, stores the order as `pending` and answers
    201.
  - `GET /orders?user_id=…` and `GET /orders/<id>` read orders back.
  - The plain, admin and restaurant-manager routes change an order's status. The
    restaurant route maps the actions `accept`/`reject`/`update` to a status.
  - `GET /admin/orders` lists every order, and `GET /restaurant/<id>/orders` lists the
    orders of one restaurant.

Files:

- `wrappers.dfy` (`Wrappers`): `Option` and `Result`, plus `Field`, which tells a
  missing dictionary key (`Absent`) from a key holding JSON null (`Present(None)`).
  Python's `dict.get(key, default)` treats those two cases differently.
- `orders.dfy` (`Orders`):
  - the stored values, `Item` and `Order`;
  - the string order SQLite uses on `created_at`;
  - the newest-first ordering of query results, with its properties.
- `items_json.dfy` (`ItemsJson`): `json.dumps` of an items list, as written to the
  `items_json` column, and the `json.loads` that reads it back. The main result is that
  reading gives back exactly the items written.
- `orders_db.dfy` (`OrdersDb`): the table as a class `OrdersTable` whose `rows` field
  is a `map` from order id to row. Each helper of `db.py` is a method of that class,
  specified by functions of the rows before the call. The read queries are a loop
  (`Scan`) over the table.
- `order_service.dfy` (`OrderService`): the route handlers as methods on an
  `OrdersTable`. Each handler's response and resulting table are given by an
  `…Outcome` function of the table before the request. Lemmas state what the routes
  promise.

Things the handlers get from outside are parameters of the handlers:

- the restaurant document and the menu fetched from the restaurants service (a failed
  fetch is `None`);
- the request body (`None` when `request.json` is null);
- the fresh `uuid4` id;
- the current time as an ISO string.

## Model

| member | source | states |
|---|---|---|
| Orders.LexLe | python-server/db.py:54 | the code-point order SQLite's BINARY collation puts on `created_at` strings; a prefix sorts at or before the longer string |
| Orders.LexLeReflexive | python-server/db.py:54 | every `created_at` sorts at or before itself |
| Orders.LexLeTotal | python-server/db.py:54 | any two `created_at` strings are comparable in SQLite's BINARY collation |
| Orders.LexLeTransitive | python-server/db.py:54 | the collation order is transitive |
| Orders.LexLeAntisymmetric | python-server/db.py:54 | two strings that each sort at or before the other are equal |
| Orders.InsertNewestFirst | python-server/db.py:54 | inserting an order into a result list gives that list's orders plus the new one, one longer |
| Orders.InsertKeepsNewestFirst | python-server/db.py:54 | inserting into a list sorted by `created_at DESC` keeps it sorted |
| Orders.HeadIsNewest | python-server/db.py:54 | the first order of a `created_at DESC` result is at least as new as every order in it |
| Orders.SameHead | python-server/db.py:54 | two newest-first arrangements of the same orders with distinct timestamps start with the same order |
| Orders.NewestFirstUnique | python-server/db.py:54 | when timestamps are pairwise distinct, `ORDER BY created_at DESC` fixes the result list completely |
| ItemsJson.Hex4RoundTrip | python-server/db.py:43 | the four hex digits of a `\uXXXX` escape read back as the code unit written |
| ItemsJson.BmpEscapeRoundTrip | python-server/db.py:43 | a `\uXXXX` escape of a Basic Multilingual Plane character reads back as that character |
| ItemsJson.SurrogatePairRoundTrip | python-server/db.py:59 | a high/low surrogate escape pair reads back as the character it combines to |
| ItemsJson.SurrogateEscapeRoundTrip | python-server/db.py:43 | a character beyond the Basic Multilingual Plane, written as a surrogate pair, reads back as itself |
| ItemsJson.EscapeCodeRoundTrip | python-server/db.py:43 | each escape `json.dumps` writes (a short form, `\uXXXX` or a surrogate pair) reads back as the escaped character |
| ItemsJson.StringRoundTrip | python-server/db.py:43 | any string, including quotes, backslashes, control and non-ASCII characters, reads back unchanged after leading whitespace |
| ItemsJson.NullableStringRoundTrip | python-server/db.py:43 | an item id or name, null included, reads back unchanged |
| ItemsJson.NatRoundTrip | python-server/db.py:43 | the decimal digits of a natural number read back as that number |
| ItemsJson.IntRoundTrip | python-server/db.py:43 | any integer quantity, negative included, reads back unchanged |
| ItemsJson.NullableIntRoundTrip | python-server/db.py:43 | a quantity, null included, reads back unchanged |
| ItemsJson.ItemRoundTrip | python-server/db.py:43 | one item object, keys in insertion order, reads back as the same item with the text after it left over |
| ItemsJson.MoreItemsRoundTrip | python-server/db.py:43 | the items after the first, each after `", "`, read back up to the closing bracket |
| ItemsJson.ItemsRoundTrip | python-server/db.py:43 | a whole list, empty or not, reads back with the text after it left over |
| ItemsJson.Encode | python-server/db.py:43 | `json.dumps` of an items list is text of printable ASCII only (non-ASCII characters are escaped) that starts with `[` |
| ItemsJson.Decode | python-server/db.py:59 | `json.loads` gives an items list only for a document whose first token is `[` |
| ItemsJson.DecodeEncode | python-server/db.py:59 | `json.loads(json.dumps(items))` gives back exactly `items` for every items list |
| OrdersDb.LoadItems | python-server/db.py:59 | an empty `items_json` column reads as the empty list (`r[4] or '[]'`) |
| OrdersDb.RowToOrder | python-server/db.py:71-75 | each key of the order read is the matching column of the row, the items decoded from `items_json` |
| OrdersDb.NewRow | python-server/db.py:36-48 | raises exactly when the total is null; otherwise the row stores the id, items that read back unchanged, total 0 by default, status `pending` by default, `updated_at` null by default |
| OrdersDb.Insert | python-server/db.py:36-49 | fails exactly on a null total or a taken id; otherwise adds exactly the new id, keeps every other row and stores `NewRow`'s row under it |
| OrdersDb.SetStatus | python-server/db.py:80 | the keys stay; every other row stays; the row with that id gets the new status and `updated_at` |
| OrdersDb.View | python-server/db.py:71-75 | reading the table sees exactly its keys, and each order read carries the key it is stored under |
| OrdersDb.ViewUpdate | python-server/db.py:80 | writing one readable row under its own id changes what reads see at that id only |
| OrdersDb.InsertThenRead | python-server/db.py:35-50 | null total raises; a taken id raises; otherwise exactly one order is added and reads back with its own fields and the defaults: items `[]`, total 0, status `pending`, `updated_at` null |
| OrdersDb.SetStatusEffect | python-server/db.py:78-82 | only that row's status and `updated_at` change; every other row and field stays; an absent id changes nothing |
| OrdersDb.QueryResultMembers | python-server/db.py:53-63 | an order is in a query result exactly when it is the stored order under its id and the WHERE clause keeps it |
| OrdersDb.AllRowsIsPermutation | python-server/db.py:85-95 | `get_all_orders` returns every stored order exactly once |
| OrdersDb.Scan | python-server/db.py:54 | the scan returns each kept order exactly once, newest first |
| OrdersDb.OrdersTable.constructor | python-server/db.py:12-24 | a freshly created table is empty |
| OrdersDb.OrdersTable.CreateOrder | python-server/db.py:35-50 | on success the table becomes `Insert`'s result; on an exception it is unchanged and the error is returned |
| OrdersDb.OrdersTable.GetOrder | python-server/db.py:66-75 | None exactly when the id is absent; otherwise the stored order under that id |
| OrdersDb.OrdersTable.UpdateOrderStatus | python-server/db.py:78-82 | the table becomes `SetStatus` of the old one, and the order read back afterwards is returned |
| OrdersDb.OrdersTable.Select | python-server/db.py:54 | the result is a query result for the given WHERE clause |
| OrdersDb.OrdersTable.GetOrdersByUser | python-server/db.py:53-63 | the user's orders, each exactly once, newest first |
| OrdersDb.OrdersTable.GetAllOrders | python-server/db.py:85-95 | all orders, each exactly once, newest first |
| OrderService.MenuMapOf | python-server/server.py:84-85 | the menu map's keys are exactly the item ids of the menu entries |
| OrderService.MenuMapLookup | python-server/server.py:84-85 | an item id is in the menu map exactly when some menu entry has it, and then it maps to the image of the last such entry |
| OrderService.BuildMenuMap | python-server/server.py:84-85 | the loop builds the menu map that `MenuMapOf` describes |
| OrderService.EscapeSpaces | python-server/server.py:97 | `replace(' ', '%20')` leaves no space in the name |
| OrderService.UnescapeEscapeSpaces | python-server/server.py:97 | on names without `%`, the replacement loses nothing |
| OrderService.FallbackImageUrl | python-server/server.py:97 | the fallback URL starts with `https://source.unsplash.com/400x250/?` and ends with `%20food` |
| OrderService.FallbackImageUrlNoSpace | python-server/server.py:97 | the fallback image URL contains no space |
| OrderService.FallbackImageUrlNames | python-server/server.py:97 | the fallback URL holds the item name, recoverable between its fixed prefix and `%20food` suffix |
| OrderService.EnrichItem | python-server/server.py:92-104 | keeps the item id; name defaults to `Item`, quantity to 1; image is the menu's when truthy, else the fallback URL; a null name then raises |
| OrderService.EnrichAll | python-server/server.py:90-104 | a successful enrichment has one item per requested item |
| OrderService.EnrichAllPointwise | python-server/server.py:90-104 | enriched items match requests one to one, in order; the loop fails exactly when an item fails, with the first failing item's exception |
| OrderService.EnrichItems | python-server/server.py:90-104 | the loop's result is `EnrichAll` of the requested items |
| OrderService.EnrichFailureSticks | python-server/server.py:91-97 | an exception raised for one item aborts the whole loop with that exception |
| OrderService.RestaurantName | python-server/server.py:113 | `Unknown` when the restaurant fetch failed or the document is `{}`; the document's `name` when it has that key; null for a non-empty document without `name` |
| OrderService.NoData | python-server/server.py:53 | `not data` holds exactly for a null body or the empty object |
| OrderService.NewOrderFor | python-server/server.py:109-118 | the order dict carries the fresh id, `created_at` now, status `pending`, no `updated_at`, the enriched items, and `user_id`, `restaurant_id` and `total` from the request (null where missing); the name is the fetched document's `name` as `RestaurantName` gives it (`Unknown` when the fetch failed or gave `{}`, null when a non-empty document has no `name`) |
| OrderService.CreateOrderOutcome | python-server/server.py:49-127 | answers 201, 400 or 500; only 201 changes the table, adding exactly the fresh id, and answers with the order under that id |
| OrderService.CreateOrder | python-server/server.py:37-127 | the response and the new table are those of `CreateOrderOutcome` on the table before the request |
| OrderService.CreateWithoutData | python-server/server.py:53-54 | no body or an empty body answers 400 `No data provided` and writes nothing |
| OrderService.CreateOrderEffect | python-server/server.py:107-122 | answers 201, 400 or 500; only 201 changes the table. 201 exactly when the request is valid and the id is fresh; the created order carries the request's `user_id` and `restaurant_id` (null where missing), is `pending` with the fetched restaurant name, the total, the enriched items and no `updated_at`, and reads back from then on |
| OrderService.GetUserOrders | python-server/server.py:133-137 | 200 with an empty list when `user_id` is missing or empty; otherwise that user's orders, each once, newest first |
| OrderService.GetOrder | python-server/server.py:146-149 | 404 `Order not found` for an absent id; otherwise 200 with the stored order |
| OrderService.UpdateThenAnswer | python-server/db.py:78-82 | after the UPDATE and the re-read: 404 and an unchanged table for an absent id; otherwise 200 with the re-read order, and the orders read back are the old ones with only this order's `status` and `updated_at` (now) changed |
| OrderService.UpdateOrderOutcome | python-server/server.py:156-165 | answers 200, 404 or 500, 500 exactly for a null body; only 200 changes the table, whose keys stay; an existing id with a body answers 200 with the order read back, and only that order's `status` (the requested one) and `updated_at` (now) change |
| OrderService.UpdateOrder | python-server/server.py:157-163 | a null body gives 500 before any write; otherwise updates, then answers 404 or 200 with the order read back |
| OrderService.AdminUpdateOutcome | python-server/server.py:180-211 | answers 200, 404 or 500, 404 exactly for an absent id; an existing id with a null body answers 500, with a body 200 with the order as it now is; a truthy status is written with `updated_at` now and nothing else changes, an empty or missing one writes nothing |
| OrderService.AdminUpdateOrderStatus | python-server/server.py:181-208 | 404 for an absent id, then 500 for a null body; otherwise updates only for a non-empty status and answers 200 with the order |
| OrderService.StatusMap | python-server/server.py:239-243 | the action map has exactly the keys `accept`, `reject`, `update`, mapped to `PREPARING`, `REJECTED` and the requested status |
| OrderService.ActionStatus | python-server/server.py:239-245 | `accept` gives `PREPARING`, `reject` gives `REJECTED`; any other or missing action gives the requested status |
| OrderService.RestaurantUpdateOutcome | python-server/server.py:229-268 | answers 200, 404 or 500, 404 exactly for an absent id; only 200 changes the table, whose keys stay; an existing id with a body answers 200 with the order, and only its `status` (the one the action map gives) and `updated_at` (now) change |
| OrderService.RestaurantUpdateOrderStatus | python-server/server.py:230-265 | 404 for an absent id, 500 for a null body, else the status from the action map is written and the order answered |
| OrderService.MissingOrder | python-server/server.py:182-184 | on an absent id the three update routes answer 404 (the plain route once it has a body) and leave the table unchanged |
| OrderService.UpdateExisting | python-server/server.py:159-163 | updating an existing order answers 200 with the new status stamped with the time; nothing else changes |
| OrderService.AdminEmptyStatus | python-server/server.py:185-186 | the admin route with a missing or empty status answers 200 with the order unchanged and writes nothing |
| OrderService.RestaurantActions | python-server/server.py:235-246 | the restaurant route answers 200 and stores `PREPARING`, `REJECTED` or the requested status (null when none was sent) |
| OrderService.AdminGetAllOrders | python-server/server.py:173 | 200 with every order exactly once, newest first |
| OrderService.ForRestaurant | python-server/server.py:221 | the filter keeps only orders of that restaurant, each taken from the input, and is no longer than it |
| OrderService.ForRestaurantIsSubsequence | python-server/server.py:221 | the restaurant filter keeps orders in their original relative order |
| OrderService.ForRestaurantCounts | python-server/server.py:221 | the filter keeps every order of that restaurant as often as it occurs, and no other order |
| OrderService.RestaurantListOfAllRows | python-server/server.py:219-222 | filtering the newest-first list of all orders gives each order of the restaurant exactly once, still newest first |
| OrderService.RestaurantGetOrders | python-server/server.py:219-222 | 200 with exactly the restaurant's orders, each once, newest first |

## Left out

- HTTP calls to the restaurants service: the restaurant and the menu are parameters.
  - A failed fetch is `None`.
  - A menu whose loop raises halfway, leaving a partly filled map, is not modelled; nor are non-object restaurant or menu documents.
- Notifications that the admin and restaurant routes POST to the restaurants service are not modelled. Their failures are caught and do not change the response.
- Logging (`print`, `traceback`) is not modelled.
- `uuid4()` and `datetime.now().isoformat()` are parameters. An id that clashes with a stored one is modelled: the INSERT raises and the route answers 500.
- The SQLite engine is left out: the connection, `PRAGMA`, commits, I/O failures and thread-sharing (`check_same_thread=False`). Each handler is modelled as one atomic step over the table.
- The `items_with_images_json` column added by the migration is never used: no helper writes it, and the read queries fetch it with `SELECT *` but ignore it. It is not modelled.
- Rows with equal `created_at` may come back in any order, so the read queries are specified up to that order. `Orders.NewestFirstUnique` shows the result is fixed once timestamps differ.
- Flask plumbing is left out: CORS, the 404/500 error handlers, the health route, the port setting and the serialisation of responses by `jsonify`.
  - Responses carry model values, not JSON text.
  - The 201 answer of `POST /orders` is the stored order. The handler's own dictionary has no `updated_at` key, and its total is the value sent rather than the stored float.
- A JSON body that is not an object or null (a list, number, string or boolean) is not modelled. In the source an empty list, `0`, `""` or `false` answers 400 on `POST /orders` through `not data`, and otherwise `data.get` raises on such a body and the route answers 500.
- A request body that is not JSON at all is not modelled. Depending on the Flask version, `request.json` then raises or returns None. A JSON `null` body is the `None` body.
- Only the JSON value types the routes evidently expect are modelled:
  - strings, or null, for ids, names and statuses;
  - integers, or null, for quantities;
  - a number, or null, for the total.
  - Other types (a numeric `user_id`, a string total converted by `float()`, a float quantity, an item that is not an object) are not modelled.
- Strings are sequences of Unicode code points. The order stored for `total` is a real, so float rounding is not modelled.
- Strings holding lone surrogates are not modelled: a Dafny `char` cannot hold one. Python's `json.loads`, and so Flask's request parsing, accepts an unpaired `\uD800` escape. Two behaviours are lost:
  - an item name holding one round-trips through the items column;
  - a `user_id` or `restaurant_id` holding one makes the INSERT's UTF-8 binding raise, so `POST /orders` answers 500.
- `ItemsJson.Decode` is not a complete `json.loads`. It reads the document shape `json.dumps` writes for an items list: the four item keys in that order, integer quantities. It allows any whitespace between tokens and every string escape. The column is only ever written by `create_order`, so no other shape reaches it.
- The gateway and the frontend of the repository are not part of this model.
