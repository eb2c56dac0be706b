/**
 * The route handlers of the orders service. What the handlers learn over HTTP from the
 * restaurants service (the restaurant document, the menu), the fresh order id and the
 * clock are parameters; each handler's effect on the orders table is stated against a
 * function of the table before the request.
 */
module OrderService {
  import opened Wrappers
  import opened Orders
  import opened OrdersDb

  // ---------------------------------------------------------------- requests and responses

  /** One entry of the menu list the restaurants service returns. */
  datatype MenuItem = MenuItem(itemId: Option<string>, imageUrl: Option<string>)

  /** The restaurant document the restaurants service returns: its `name` key, and whether it has other keys. */
  datatype Restaurant = Restaurant(name: Field<Option<string>>, otherKeys: bool)

  /** One entry of the `items` list of a new order. */
  datatype ItemRequest = ItemRequest(itemId: Option<string>, itemName: Field<Option<string>>, quantity: Field<Option<int>>)

  /** The JSON body of `POST /orders`; `otherKeys` says whether it has keys the handler does not read. */
  datatype OrderRequest = OrderRequest(
    userId: Field<Option<string>>,
    restaurantId: Field<Option<string>>,
    items: Field<Option<seq<ItemRequest>>>,
    total: Field<Option<real>>,
    otherKeys: bool)

  /** The JSON body of the status-update routes, read with `data.get`. */
  datatype StatusRequest = StatusRequest(status: Option<string>, action: Option<string>)

  /** What a handler raised; it answers 500 with the exception's text. */
  datatype Fault = ItemsNotAList | ItemNameNotAString | NoJsonBody | Stored(error: DbError)

  datatype Body =
    | OrderDoc(order: Order)
    | OrderList(orders: seq<Order>)
    | ErrorMessage(message: string)
    | Raised(fault: Fault)

  datatype Response = Response(status: int, body: Body)

  /** A handler's response together with the table it leaves behind. */
  datatype Outcome = Outcome(response: Response, rows: map<string, Row>)

  const NotFound := Response(404, ErrorMessage("Order not found"))

  // ---------------------------------------------------------------- item enrichment

  type MenuMap = map<Option<string>, Option<string>>

  /** `menu_items_map` after its loop: each item id mapped to its image, later entries winning. */
  function MenuMapOf(menu: seq<MenuItem>): (m: MenuMap)
    ensures m.Keys == set i | 0 <= i < |menu| :: menu[i].itemId
    decreases |menu|
  {
    if menu == [] then map[]
    else MenuMapOf(menu[..|menu| - 1])[menu[|menu| - 1].itemId := menu[|menu| - 1].imageUrl]
  }

  /** An id is in the menu map exactly when some menu entry has it, and maps to the image of the last such entry. */
  lemma {:induction false} MenuMapLookup(menu: seq<MenuItem>, id: Option<string>)
    ensures id in MenuMapOf(menu) <==> exists i :: 0 <= i < |menu| && menu[i].itemId == id
    ensures id in MenuMapOf(menu) ==>
      exists i :: 0 <= i < |menu| && menu[i].itemId == id && MenuMapOf(menu)[id] == menu[i].imageUrl
        && forall j :: i < j < |menu| ==> menu[j].itemId != id
    decreases |menu|
  {
    if menu != [] {
      var n := |menu| - 1;
      var front := menu[..n];
      MenuMapLookup(front, id);
      if menu[n].itemId != id {
        if id in MenuMapOf(front) {
          var i :| 0 <= i < |front| && front[i].itemId == id && MenuMapOf(front)[id] == front[i].imageUrl
            && forall j :: i < j < |front| ==> front[j].itemId != id;
          assert menu[i] == front[i];
          forall j | i < j < |menu| ensures menu[j].itemId != id {
            if j < n { assert menu[j] == front[j]; }
          }
        }
        forall i | 0 <= i < |menu| && menu[i].itemId == id ensures id in MenuMapOf(front) {
          assert i < n && menu[i] == front[i];
        }
      }
    }
  }

  /** The loop that fills `menu_items_map` from the fetched menu. */
  method BuildMenuMap(menu: seq<MenuItem>) returns (m: MenuMap)
    ensures m == MenuMapOf(menu)
  {
    m := map[];
    for i := 0 to |menu|
      invariant m == MenuMapOf(menu[..i])
    {
      assert menu[..i + 1][..i] == menu[..i];
      m := m[menu[i].itemId := menu[i].imageUrl];
    }
    assert menu[..|menu|] == menu;
  }

  /** `name.replace(' ', '%20')`. */
  function EscapeSpaces(s: string): (r: string)
    ensures forall i :: 0 <= i < |r| ==> r[i] != ' '
    decreases |s|
  {
    if s == [] then []
    else (if s[0] == ' ' then "%20" else [s[0]]) + EscapeSpaces(s[1..])
  }

  /** Turns each `%20` back into a space. */
  function UnescapeSpaces(s: string): string
    decreases |s|
  {
    if s == [] then []
    else if |s| >= 3 && s[..3] == "%20" then [' '] + UnescapeSpaces(s[3..])
    else [s[0]] + UnescapeSpaces(s[1..])
  }

  /** On names without `%`, escaping the spaces loses nothing. */
  lemma {:induction false} UnescapeEscapeSpaces(s: string)
    requires forall i :: 0 <= i < |s| ==> s[i] != '%'
    ensures UnescapeSpaces(EscapeSpaces(s)) == s
    decreases |s|
  {
    if s != [] {
      var rest := EscapeSpaces(s[1..]);
      UnescapeEscapeSpaces(s[1..]);
      if s[0] == ' ' {
        assert EscapeSpaces(s) == "%20" + rest;
        assert ("%20" + rest)[..3] == "%20" && ("%20" + rest)[3..] == rest;
      } else {
        assert EscapeSpaces(s) == [s[0]] + rest;
        assert ([s[0]] + rest)[1..] == rest;
      }
      assert s == [s[0]] + s[1..];
    }
  }

  const FallbackPrefix := "https://source.unsplash.com/400x250/?"
  const FallbackSuffix := "%20food"

  /** The placeholder image of an item the menu has no image for. */
  function FallbackImageUrl(name: string): (u: string)
    ensures |u| >= |FallbackPrefix| + |FallbackSuffix|
    ensures u[..|FallbackPrefix|] == FallbackPrefix && u[|u| - |FallbackSuffix|..] == FallbackSuffix
  {
    FallbackPrefix + EscapeSpaces(name) + FallbackSuffix
  }

  /** A fallback URL holds no space. */
  lemma FallbackImageUrlNoSpace(name: string)
    ensures forall i :: 0 <= i < |FallbackImageUrl(name)| ==> FallbackImageUrl(name)[i] != ' '
  {
    var e := EscapeSpaces(name);
    var u := FallbackImageUrl(name);
    assert u == FallbackPrefix + e + FallbackSuffix;
    forall i | 0 <= i < |u| ensures u[i] != ' ' {
      if i < |FallbackPrefix| { assert u[i] == FallbackPrefix[i]; }
      else if i < |FallbackPrefix| + |e| { assert u[i] == e[i - |FallbackPrefix|]; }
      else { assert u[i] == FallbackSuffix[i - |FallbackPrefix| - |e|]; }
    }
  }

  /** A fallback URL gives back the item name between its fixed prefix and suffix. */
  lemma FallbackImageUrlNames(name: string)
    requires forall i :: 0 <= i < |name| ==> name[i] != '%'
    ensures var u := FallbackImageUrl(name);
      |u| >= |FallbackPrefix| + |FallbackSuffix|
      && UnescapeSpaces(u[|FallbackPrefix|..|u| - |FallbackSuffix|]) == name
  {
    var u := FallbackImageUrl(name);
    assert u[|FallbackPrefix|..|u| - |FallbackSuffix|] == EscapeSpaces(name);
    UnescapeEscapeSpaces(name);
  }

  /** `menu_items_map.get(item_id)`. */
  function MenuImage(menu: MenuMap, id: Option<string>): Option<string> {
    if id in menu then menu[id] else None
  }

  /**
   * One pass of the enrichment loop: the item as stored, or the exception it raises
   * (`replace` on a null name, reached only when the menu has no image for the item).
   */
  function EnrichItem(item: ItemRequest, menu: MenuMap): (r: Result<Item, Fault>)
    ensures r.Success? ==> r.value.itemId == item.itemId
    ensures r.Success? ==> r.value.itemName == item.itemName.GetOr(Some("Item"))
    ensures r.Success? ==> r.value.quantity == item.quantity.GetOr(Some(1))
    ensures var found := MenuImage(menu, item.itemId);
      if found.Some? && found.value != "" then r.Success? && r.value.imageUrl == found.value
      else if item.itemName.GetOr(Some("Item")).None? then r == Failure(ItemNameNotAString)
      else r.Success? && r.value.imageUrl == FallbackImageUrl(item.itemName.GetOr(Some("Item")).value)
  {
    var name := item.itemName.GetOr(Some("Item"));
    var quantity := item.quantity.GetOr(Some(1));
    var found := MenuImage(menu, item.itemId);
    if found.Some? && found.value != "" then Success(Item(item.itemId, name, quantity, found.value))
    else match name
      case None => Failure(ItemNameNotAString)
      case Some(n) => Success(Item(item.itemId, name, quantity, FallbackImageUrl(n)))
  }

  /** The whole loop: every item enriched in order, or the first item's exception. */
  function EnrichAll(items: seq<ItemRequest>, menu: MenuMap): (r: Result<seq<Item>, Fault>)
    ensures r.Success? ==> |r.value| == |items|
    decreases |items|
  {
    if items == [] then Success([])
    else match EnrichAll(items[..|items| - 1], menu)
      case Failure(f) => Failure(f)
      case Success(front) =>
        match EnrichItem(items[|items| - 1], menu)
        case Failure(f) => Failure(f)
        case Success(last) => Success(front + [last])
  }

  /** The loop succeeds exactly when every item can be enriched, and then item by item. */
  lemma {:induction false} EnrichAllSuccess(items: seq<ItemRequest>, menu: MenuMap)
    ensures EnrichAll(items, menu).Success? <==> forall i :: 0 <= i < |items| ==> EnrichItem(items[i], menu).Success?
    ensures EnrichAll(items, menu).Success? ==>
      forall i :: 0 <= i < |items| ==> EnrichAll(items, menu).value[i] == EnrichItem(items[i], menu).value
    decreases |items|
  {
    if items != [] {
      var n := |items| - 1;
      var front := items[..n];
      EnrichAllSuccess(front, menu);
      assert forall i :: 0 <= i < n ==> items[i] == front[i];
    }
  }

  /** A failing loop fails with the exception of its first failing item. */
  lemma {:induction false} EnrichAllFailure(items: seq<ItemRequest>, menu: MenuMap)
    ensures EnrichAll(items, menu).Failure? ==>
      exists i :: 0 <= i < |items| && EnrichItem(items[i], menu) == Failure(EnrichAll(items, menu).error)
        && forall j :: 0 <= j < i ==> EnrichItem(items[j], menu).Success?
    decreases |items|
  {
    if items != [] {
      var n := |items| - 1;
      var front := items[..n];
      EnrichAllFailure(front, menu);
      EnrichAllSuccess(front, menu);
      if EnrichAll(front, menu).Failure? {
        var i :| 0 <= i < |front| && EnrichItem(front[i], menu) == Failure(EnrichAll(front, menu).error)
          && forall j :: 0 <= j < i ==> EnrichItem(front[j], menu).Success?;
        assert items[i] == front[i];
        forall j | 0 <= j < i ensures EnrichItem(items[j], menu).Success? { assert items[j] == front[j]; }
      } else if EnrichItem(items[n], menu).Failure? {
        forall j | 0 <= j < n ensures EnrichItem(items[j], menu).Success? { assert items[j] == front[j]; }
      }
    }
  }

  /**
   * The enriched items correspond one to one, in order, to the requested ones; the loop
   * fails exactly when some item fails, and then with the first failing item's exception.
   */
  lemma EnrichAllPointwise(items: seq<ItemRequest>, menu: MenuMap)
    ensures EnrichAll(items, menu).Success? <==> forall i :: 0 <= i < |items| ==> EnrichItem(items[i], menu).Success?
    ensures EnrichAll(items, menu).Success? ==>
      |EnrichAll(items, menu).value| == |items|
      && forall i :: 0 <= i < |items| ==> EnrichAll(items, menu).value[i] == EnrichItem(items[i], menu).value
    ensures EnrichAll(items, menu).Failure? ==>
      exists i :: 0 <= i < |items| && EnrichItem(items[i], menu) == Failure(EnrichAll(items, menu).error)
        && forall j :: 0 <= j < i ==> EnrichItem(items[j], menu).Success?
  {
    EnrichAllSuccess(items, menu);
    EnrichAllFailure(items, menu);
  }

  /** The loop that builds `items_with_images`. */
  method EnrichItems(items: seq<ItemRequest>, menu: MenuMap) returns (r: Result<seq<Item>, Fault>)
    ensures r == EnrichAll(items, menu)
    ensures r.Success? ==> |r.value| == |items|
  {
    var out: seq<Item> := [];
    for i := 0 to |items|
      invariant EnrichAll(items[..i], menu) == Success(out)
      invariant |out| == i
    {
      assert items[..i + 1][..i] == items[..i];
      var e := EnrichItem(items[i], menu);
      if e.Failure? {
        assert EnrichAll(items[..i + 1], menu) == Failure(e.error);
        EnrichFailureSticks(items, menu, i + 1, e.error);
        return Failure(e.error);
      }
      out := out + [e.value];
    }
    assert items[..|items|] == items;
    r := Success(out);
  }

  /** Once a prefix of the items fails, the whole list fails the same way. */
  lemma {:induction false} EnrichFailureSticks(items: seq<ItemRequest>, menu: MenuMap, k: nat, f: Fault)
    requires k <= |items| && EnrichAll(items[..k], menu) == Failure(f)
    ensures EnrichAll(items, menu) == Failure(f)
    decreases |items| - k
  {
    if k < |items| {
      assert items[..k + 1][..k] == items[..k];
      EnrichFailureSticks(items, menu, k + 1, f);
    } else {
      assert items[..k] == items;
    }
  }

  // ---------------------------------------------------------------- POST /orders

  /** `restaurant.get('name') if restaurant else 'Unknown'`; a failed fetch leaves `restaurant` None. */
  function RestaurantName(restaurant: Option<Restaurant>): (r: Option<string>)
    ensures restaurant.None? ==> r == Some("Unknown")
    ensures restaurant.Some? && restaurant.value.name.Present? ==> r == restaurant.value.name.value
    ensures restaurant.Some? && restaurant.value.name.Absent? ==>
      r == (if restaurant.value.otherKeys then None else Some("Unknown"))
  {
    match restaurant
    case None => Some("Unknown")
    case Some(doc) => if doc.name.Present? || doc.otherKeys then doc.name.GetOr(None) else Some("Unknown")
  }

  /** `not data`: no JSON body, or an empty object. */
  predicate NoData(body: Option<OrderRequest>)
    ensures NoData(body) <==> body.None? || body.value == OrderRequest(Absent, Absent, Absent, Absent, false)
  {
    match body
    case None => true
    case Some(d) => d.userId.Absent? && d.restaurantId.Absent? && d.items.Absent? && d.total.Absent? && !d.otherKeys
  }

  /** The order dictionary the handler builds and hands to `create_order`. */
  function NewOrderFor(data: OrderRequest, restaurant: Option<Restaurant>, items: seq<Item>, orderId: string, now: string): (r: NewOrder)
    ensures r.orderId == orderId && r.createdAt == now
    ensures r.status == Present(Some("pending")) && r.updatedAt.Absent?
    ensures r.items == Present(items)
    ensures r.userId == data.userId.GetOr(None) && r.restaurantId == data.restaurantId.GetOr(None)
    ensures r.total == Present(data.total.GetOr(None))
    ensures r.restaurantName == RestaurantName(restaurant)
  {
    NewOrder(orderId, data.userId.GetOr(None), data.restaurantId.GetOr(None), RestaurantName(restaurant),
             Present(items), Present(data.total.GetOr(None)), Present(Some("pending")), now, Absent)
  }

  /** What `POST /orders` answers and leaves in the table. */
  function CreateOrderOutcome(rows: map<string, Row>, body: Option<OrderRequest>, restaurant: Option<Restaurant>,
                              menu: Option<seq<MenuItem>>, orderId: string, now: string): (out: Outcome)
    ensures out.response.status in {201, 400, 500}
    ensures out.response.status != 201 ==> out.rows == rows
    ensures out.response.status == 201 ==> out.response.body.OrderDoc? && out.response.body.order.orderId == orderId
    ensures out.response.status == 201 ==> orderId !in rows && out.rows.Keys == rows.Keys + {orderId}
  {
    if NoData(body) then Outcome(Response(400, ErrorMessage("No data provided")), rows)
    else
      var data := body.value;
      var menuMap := if menu.Some? then MenuMapOf(menu.value) else map[];
      match data.items.GetOr(Some([]))
      case None => Outcome(Response(500, Raised(ItemsNotAList)), rows)
      case Some(items) =>
        match EnrichAll(items, menuMap)
        case Failure(f) => Outcome(Response(500, Raised(f)), rows)
        case Success(enriched) =>
          var o := NewOrderFor(data, restaurant, enriched, orderId, now);
          match Insert(rows, o)
          case Failure(e) => Outcome(Response(500, Raised(Stored(e))), rows)
          case Success(t) => Outcome(Response(201, OrderDoc(Created(o, data.total.GetOr(None).value))), t)
  }

  /** `POST /orders` with the restaurant and menu fetches' results, the new id and the time given. */
  method CreateOrder(db: OrdersTable, body: Option<OrderRequest>, restaurant: Option<Restaurant>,
                     menu: Option<seq<MenuItem>>, orderId: string, now: string) returns (resp: Response)
    requires db.Valid()
    modifies db
    ensures db.Valid()
    ensures resp == CreateOrderOutcome(old(db.rows), body, restaurant, menu, orderId, now).response
    ensures db.rows == CreateOrderOutcome(old(db.rows), body, restaurant, menu, orderId, now).rows
  {
    if NoData(body) {
      return Response(400, ErrorMessage("No data provided"));
    }
    var data := body.value;
    var menuMap: MenuMap := map[];
    if menu.Some? {
      menuMap := BuildMenuMap(menu.value);
    }
    var items := data.items.GetOr(Some([]));
    if items.None? {
      return Response(500, Raised(ItemsNotAList));
    }
    var enriched := EnrichItems(items.value, menuMap);
    if enriched.Failure? {
      return Response(500, Raised(enriched.error));
    }
    var order := NewOrderFor(data, restaurant, enriched.value, orderId, now);
    var err := db.CreateOrder(order);
    if err.Some? {
      resp := Response(500, Raised(Stored(err.value)));
    } else {
      resp := Response(201, OrderDoc(Created(order, data.total.GetOr(None).value)));
    }
  }

  /** Without a body, or with an empty one, order creation answers 400 and writes nothing. */
  lemma CreateWithoutData(rows: map<string, Row>, body: Option<OrderRequest>, restaurant: Option<Restaurant>,
                          menu: Option<seq<MenuItem>>, orderId: string, now: string)
    requires NoData(body)
    ensures CreateOrderOutcome(rows, body, restaurant, menu, orderId, now)
      == Outcome(Response(400, ErrorMessage("No data provided")), rows)
  {
  }

  /**
   * Order creation either answers 201 and adds exactly one row under the new id, or
   * answers 400 or 500 and leaves the table as it was. It answers 201 exactly when there
   * is data, the items list is not null, every item can be enriched, the total is not
   * null and the id is fresh. A created order is `pending`, carries the fetched
   * restaurant name (`'Unknown'` when the fetch failed), the request's total and the
   * enriched items, and is what `get_order` on its id returns from then on.
   */
  lemma CreateOrderEffect(rows: map<string, Row>, body: Option<OrderRequest>, restaurant: Option<Restaurant>,
                          menu: Option<seq<MenuItem>>, orderId: string, now: string)
    requires ValidRows(rows)
    ensures var out := CreateOrderOutcome(rows, body, restaurant, menu, orderId, now);
      out.response.status in {201, 400, 500}
      && (out.response.status != 201 ==> out.rows == rows)
    ensures var out := CreateOrderOutcome(rows, body, restaurant, menu, orderId, now);
      out.response.status == 201 <==>
        && !NoData(body)
        && body.value.items.GetOr(Some([])).Some?
        && EnrichAll(body.value.items.GetOr(Some([])).value, if menu.Some? then MenuMapOf(menu.value) else map[]).Success?
        && body.value.total.GetOr(None).Some?
        && orderId !in rows
    ensures var out := CreateOrderOutcome(rows, body, restaurant, menu, orderId, now);
      out.response.status == 201 ==>
        && out.response.body.OrderDoc?
        && var o := out.response.body.order;
        && o.orderId == orderId
        && o.userId == body.value.userId.GetOr(None)
        && o.restaurantId == body.value.restaurantId.GetOr(None)
        && o.status == Some("pending")
        && o.restaurantName == RestaurantName(restaurant)
        && Some(o.total) == body.value.total.GetOr(None)
        && Success(o.items) == EnrichAll(body.value.items.GetOr(Some([])).value, if menu.Some? then MenuMapOf(menu.value) else map[])
        && o.createdAt == now
        && o.updatedAt == None
        && ValidRows(out.rows)
        && View(out.rows) == View(rows)[orderId := o]
  {
    var out := CreateOrderOutcome(rows, body, restaurant, menu, orderId, now);
    if !NoData(body) {
      var data := body.value;
      var menuMap := if menu.Some? then MenuMapOf(menu.value) else map[];
      if data.items.GetOr(Some([])).Some? {
        var items := data.items.GetOr(Some([])).value;
        if EnrichAll(items, menuMap).Success? {
          var o := NewOrderFor(data, restaurant, EnrichAll(items, menuMap).value, orderId, now);
          InsertThenRead(rows, o);
        }
      }
    }
  }

  // ---------------------------------------------------------------- GET /orders, GET /orders/<id>

  /** `GET /orders?user_id=...`: the user's orders, newest first; no `user_id` gives an empty list without a query. */
  method GetUserOrders(db: OrdersTable, userId: Option<string>) returns (resp: Response)
    requires db.Valid()
    ensures resp.status == 200 && resp.body.OrderList?
    ensures userId.None? || userId == Some("") ==> resp.body.orders == []
    ensures userId.Some? && userId.value != "" ==> IsQueryResult(resp.body.orders, View(db.rows), UserIs(userId.value))
  {
    if userId.None? || userId.value == "" {
      return Response(200, OrderList([]));
    }
    var orders := db.GetOrdersByUser(userId.value);
    resp := Response(200, OrderList(orders));
  }

  /** `GET /orders/<order_id>`. */
  method GetOrder(db: OrdersTable, orderId: string) returns (resp: Response)
    requires db.Valid()
    ensures orderId !in db.rows ==> resp == NotFound
    ensures orderId in db.rows ==> resp == Response(200, OrderDoc(View(db.rows)[orderId]))
  {
    var order := db.GetOrder(orderId);
    if order.None? {
      return NotFound;
    }
    resp := Response(200, OrderDoc(order.value));
  }

  // ---------------------------------------------------------------- status updates

  /** `get_order` after the status UPDATE: the updated row, or None when the id is absent. */
  function ReadBack(rows: map<string, Row>, orderId: string): Option<Order>
    requires ValidRows(rows)
  {
    if orderId in rows then Some(View(rows)[orderId]) else None
  }

  /** The orders as read after the status UPDATE of db.py: one order restamped, all else as before. */
  function Restamped(rows: map<string, Row>, orderId: string, status: Option<string>, now: string): map<string, Order>
    requires ValidRows(rows) && orderId in rows
  {
    View(rows)[orderId := View(rows)[orderId].(status := status, updatedAt := Some(now))]
  }

  /** The table and answer after `update_order_status(order_id, status)` at time `now`. */
  function UpdateThenAnswer(rows: map<string, Row>, orderId: string, status: Option<string>, now: string): (out: Outcome)
    requires ValidRows(rows)
    ensures ValidRows(out.rows) && out.rows.Keys == rows.Keys
    ensures orderId !in rows ==> out == Outcome(NotFound, rows)
    ensures orderId in rows ==>
      out.response == Response(200, OrderDoc(View(out.rows)[orderId])) && View(out.rows)[orderId].status == status
    ensures orderId in rows ==> View(out.rows) == Restamped(rows, orderId, status, now)
  {
    SetStatusEffect(rows, orderId, status, now);
    var t := SetStatus(rows, orderId, status, now);
    match ReadBack(t, orderId)
    case None => Outcome(NotFound, t)
    case Some(o) => Outcome(Response(200, OrderDoc(o)), t)
  }

  /** What `PUT /orders/<order_id>` answers and leaves in the table: it updates without looking first. */
  function UpdateOrderOutcome(rows: map<string, Row>, orderId: string, body: Option<StatusRequest>, now: string): (out: Outcome)
    requires ValidRows(rows)
    ensures ValidRows(out.rows) && out.rows.Keys == rows.Keys
    ensures out.response.status in {200, 404, 500}
    ensures out.response.status != 200 ==> out.rows == rows
    ensures body.None? <==> out.response.status == 500
    ensures out.response.status == 200 ==>
      && body.Some? && orderId in rows
      && out.response.body == OrderDoc(View(out.rows)[orderId])
      && View(out.rows)[orderId].status == body.value.status
    ensures body.Some? && orderId in rows ==>
      && out.response.status == 200
      && View(out.rows) == Restamped(rows, orderId, body.value.status, now)
  {
    match body
    case None => Outcome(Response(500, Raised(NoJsonBody)), rows)
    case Some(data) => UpdateThenAnswer(rows, orderId, data.status, now)
  }

  /** `PUT /orders/<order_id>`. */
  method UpdateOrder(db: OrdersTable, orderId: string, body: Option<StatusRequest>, now: string) returns (resp: Response)
    requires db.Valid()
    modifies db
    ensures db.Valid()
    ensures resp == UpdateOrderOutcome(old(db.rows), orderId, body, now).response
    ensures db.rows == UpdateOrderOutcome(old(db.rows), orderId, body, now).rows
  {
    if body.None? {
      return Response(500, Raised(NoJsonBody));
    }
    var order := db.UpdateOrderStatus(orderId, body.value.status, now);
    if order.None? {
      return NotFound;
    }
    resp := Response(200, OrderDoc(order.value));
  }

  /** What `PUT /admin/orders/<order_id>/status` answers and leaves in the table. */
  function AdminUpdateOutcome(rows: map<string, Row>, orderId: string, body: Option<StatusRequest>, now: string): (out: Outcome)
    requires ValidRows(rows)
    ensures ValidRows(out.rows) && out.rows.Keys == rows.Keys
    ensures out.response.status in {200, 404, 500}
    ensures out.response.status == 404 <==> orderId !in rows
    ensures out.response.status != 200 ==> out.rows == rows
    ensures out.response.status == 200 ==> orderId in rows && out.response.body == OrderDoc(View(out.rows)[orderId])
    ensures orderId in rows && body.None? ==> out.response.status == 500
    ensures orderId in rows && body.Some? ==>
      && out.response.status == 200
      && View(out.rows) == (if body.value.status.Some? && body.value.status.value != ""
                            then Restamped(rows, orderId, body.value.status, now)
                            else View(rows))
  {
    if orderId !in rows then Outcome(NotFound, rows)
    else match body
      case None => Outcome(Response(500, Raised(NoJsonBody)), rows)
      case Some(data) =>
        if data.status.Some? && data.status.value != "" then UpdateThenAnswer(rows, orderId, data.status, now)
        else Outcome(Response(200, OrderDoc(View(rows)[orderId])), rows)
  }

  /** `PUT /admin/orders/<order_id>/status`; the notification to the restaurants service is left out. */
  method AdminUpdateOrderStatus(db: OrdersTable, orderId: string, body: Option<StatusRequest>, now: string) returns (resp: Response)
    requires db.Valid()
    modifies db
    ensures db.Valid()
    ensures resp == AdminUpdateOutcome(old(db.rows), orderId, body, now).response
    ensures db.rows == AdminUpdateOutcome(old(db.rows), orderId, body, now).rows
  {
    var order := db.GetOrder(orderId);
    if order.None? {
      return NotFound;
    }
    if body.None? {
      return Response(500, Raised(NoJsonBody));
    }
    var newStatus := body.value.status;
    if newStatus.Some? && newStatus.value != "" {
      order := db.UpdateOrderStatus(orderId, newStatus, now);
    }
    resp := Response(200, OrderDoc(order.value));
  }

  /** The `status_map` of the restaurant route, built around the requested status. */
  function StatusMap(newStatus: Option<string>): (m: map<string, Option<string>>)
    ensures m.Keys == {"accept", "reject", "update"}
    ensures m["accept"] == Some("PREPARING") && m["reject"] == Some("REJECTED") && m["update"] == newStatus
  {
    map["accept" := Some("PREPARING"), "reject" := Some("REJECTED"), "update" := newStatus]
  }

  /** `status_map.get(action, new_status)`. */
  function ActionStatus(action: Option<string>, newStatus: Option<string>): (r: Option<string>)
    ensures action == Some("accept") ==> r == Some("PREPARING")
    ensures action == Some("reject") ==> r == Some("REJECTED")
    ensures action != Some("accept") && action != Some("reject") ==> r == newStatus
  {
    if action.Some? && action.value in StatusMap(newStatus) then StatusMap(newStatus)[action.value] else newStatus
  }

  /** What `PUT /restaurant/orders/<order_id>/status` answers and leaves in the table. */
  function RestaurantUpdateOutcome(rows: map<string, Row>, orderId: string, body: Option<StatusRequest>, now: string): (out: Outcome)
    requires ValidRows(rows)
    ensures ValidRows(out.rows) && out.rows.Keys == rows.Keys
    ensures out.response.status in {200, 404, 500}
    ensures out.response.status == 404 <==> orderId !in rows
    ensures out.response.status != 200 ==> out.rows == rows
    ensures out.response.status == 200 ==>
      && body.Some? && orderId in rows
      && out.response.body == OrderDoc(View(out.rows)[orderId])
      && View(out.rows)[orderId].status == ActionStatus(body.value.action, body.value.status)
    ensures orderId in rows && body.Some? ==>
      && out.response.status == 200
      && View(out.rows) == Restamped(rows, orderId, ActionStatus(body.value.action, body.value.status), now)
  {
    if orderId !in rows then Outcome(NotFound, rows)
    else match body
      case None => Outcome(Response(500, Raised(NoJsonBody)), rows)
      case Some(data) => UpdateThenAnswer(rows, orderId, ActionStatus(data.action, data.status), now)
  }

  /** `PUT /restaurant/orders/<order_id>/status`; the notification to the restaurants service is left out. */
  method RestaurantUpdateOrderStatus(db: OrdersTable, orderId: string, body: Option<StatusRequest>, now: string) returns (resp: Response)
    requires db.Valid()
    modifies db
    ensures db.Valid()
    ensures resp == RestaurantUpdateOutcome(old(db.rows), orderId, body, now).response
    ensures db.rows == RestaurantUpdateOutcome(old(db.rows), orderId, body, now).rows
  {
    var order := db.GetOrder(orderId);
    if order.None? {
      return NotFound;
    }
    if body.None? {
      return Response(500, Raised(NoJsonBody));
    }
    var finalStatus := ActionStatus(body.value.action, body.value.status);
    order := db.UpdateOrderStatus(orderId, finalStatus, now);
    resp := Response(200, OrderDoc(order.value));
  }

  /**
   * On an order id that is not in the table, the lookup and the three update routes
   * answer 404 `'Order not found'` (the plain update only once it has a body) and the
   * table is left as it was.
   */
  lemma MissingOrder(rows: map<string, Row>, orderId: string, body: Option<StatusRequest>, now: string)
    requires ValidRows(rows) && orderId !in rows
    ensures body.Some? ==> UpdateOrderOutcome(rows, orderId, body, now) == Outcome(NotFound, rows)
    ensures AdminUpdateOutcome(rows, orderId, body, now) == Outcome(NotFound, rows)
    ensures RestaurantUpdateOutcome(rows, orderId, body, now) == Outcome(NotFound, rows)
  {
    SetStatusEffect(rows, orderId, if body.Some? then body.value.status else None, now);
  }

  /**
   * An update of an existing order answers 200 with the order as it now is: the new
   * status stamped with `now`, every other field and every other row unchanged.
   */
  lemma UpdateExisting(rows: map<string, Row>, orderId: string, status: Option<string>, now: string)
    requires ValidRows(rows) && orderId in rows
    ensures var out := UpdateThenAnswer(rows, orderId, status, now);
      && ValidRows(out.rows)
      && out.response == Response(200, OrderDoc(View(rows)[orderId].(status := status, updatedAt := Some(now))))
      && View(out.rows) == View(rows)[orderId := View(rows)[orderId].(status := status, updatedAt := Some(now))]
  {
    SetStatusEffect(rows, orderId, status, now);
    var t := SetStatus(rows, orderId, status, now);
    assert ReadBack(t, orderId) == Some(View(rows)[orderId].(status := status, updatedAt := Some(now)));
  }

  /** The admin route with an empty or missing status answers 200 with the order and changes nothing. */
  lemma AdminEmptyStatus(rows: map<string, Row>, orderId: string, data: StatusRequest, now: string)
    requires ValidRows(rows) && orderId in rows
    requires data.status.None? || data.status == Some("")
    ensures AdminUpdateOutcome(rows, orderId, Some(data), now) == Outcome(Response(200, OrderDoc(View(rows)[orderId])), rows)
  {
  }

  /**
   * The restaurant route sets `PREPARING` on accept, `REJECTED` on reject, and
   * otherwise the requested status, null included when the body has none.
   */
  lemma RestaurantActions(rows: map<string, Row>, orderId: string, data: StatusRequest, now: string)
    requires ValidRows(rows) && orderId in rows
    ensures var out := RestaurantUpdateOutcome(rows, orderId, Some(data), now);
      && out.response.status == 200
      && ValidRows(out.rows)
      && View(out.rows)[orderId].status
         == (if data.action == Some("accept") then Some("PREPARING")
             else if data.action == Some("reject") then Some("REJECTED")
             else data.status)
  {
    UpdateExisting(rows, orderId, ActionStatus(data.action, data.status), now);
  }

  // ---------------------------------------------------------------- admin and restaurant lists

  /** `GET /admin/orders`: every order, newest first. */
  method AdminGetAllOrders(db: OrdersTable) returns (resp: Response)
    requires db.Valid()
    ensures resp.status == 200 && resp.body.OrderList?
    ensures IsQueryResult(resp.body.orders, View(db.rows), AllRows)
  {
    var orders := db.GetAllOrders();
    resp := Response(200, OrderList(orders));
  }

  /** `[o for o in orders if o.get('restaurant_id') == restaurant_id]`. */
  function ForRestaurant(orders: seq<Order>, restaurantId: string): (r: seq<Order>)
    ensures |r| <= |orders|
    ensures forall k :: 0 <= k < |r| ==> r[k].restaurantId == Some(restaurantId) && r[k] in orders
    decreases |orders|
  {
    if orders == [] then []
    else (if orders[0].restaurantId == Some(restaurantId) then [orders[0]] else [])
         + ForRestaurant(orders[1..], restaurantId)
  }

  /** `r` is the subsequence of `s` at the increasing positions `idx`. */
  ghost predicate SubsequenceAt(r: seq<Order>, s: seq<Order>, idx: seq<nat>) {
    && |idx| == |r|
    && (forall k :: 0 <= k < |idx| ==> idx[k] < |s| && r[k] == s[idx[k]])
    && (forall k, l :: 0 <= k < l < |idx| ==> idx[k] < idx[l])
  }

  /** Every position moved one further along. */
  function Shift(idx: seq<nat>): (r: seq<nat>)
    ensures |r| == |idx|
    ensures forall k :: 0 <= k < |idx| ==> r[k] == idx[k] + 1
  {
    seq(|idx|, k requires 0 <= k < |idx| => idx[k] + 1)
  }

  /** A subsequence stays one when an element is put in front of the sequence it is drawn from. */
  lemma SubsequenceSkip(o: Order, r: seq<Order>, s: seq<Order>, idx: seq<nat>)
    requires SubsequenceAt(r, s, idx)
    ensures SubsequenceAt(r, [o] + s, Shift(idx))
  {
    var t := Shift(idx);
    forall k | 0 <= k < |t| ensures t[k] < |[o] + s| && r[k] == ([o] + s)[t[k]] {
      assert ([o] + s)[idx[k] + 1] == s[idx[k]];
    }
  }

  /** ... and when that element is put in front of both. */
  lemma SubsequenceKeep(o: Order, r: seq<Order>, s: seq<Order>, idx: seq<nat>)
    requires SubsequenceAt(r, s, idx)
    ensures SubsequenceAt([o] + r, [o] + s, [0] + Shift(idx))
  {
    var t := [0] + Shift(idx);
    SubsequenceSkip(o, r, s, idx);
    forall k | 0 <= k < |t| ensures t[k] < |[o] + s| && ([o] + r)[k] == ([o] + s)[t[k]] {
      if k > 0 { assert t[k] == Shift(idx)[k - 1] && ([o] + r)[k] == r[k - 1]; }
    }
    forall k, l | 0 <= k < l < |t| ensures t[k] < t[l] {
      if k > 0 { assert t[k] == Shift(idx)[k - 1]; }
      assert t[l] == Shift(idx)[l - 1];
    }
  }

  /**
   * The filter keeps the orders in their original relative order: its result is the
   * subsequence of the input at some increasing positions `idx`.
   */
  lemma {:induction false} ForRestaurantIsSubsequence(orders: seq<Order>, restaurantId: string) returns (idx: seq<nat>)
    ensures SubsequenceAt(ForRestaurant(orders, restaurantId), orders, idx)
    decreases |orders|
  {
    if orders == [] {
      idx := [];
    } else {
      var o, tail := orders[0], orders[1..];
      var rest := ForRestaurantIsSubsequence(tail, restaurantId);
      assert orders == [o] + tail;
      if o.restaurantId == Some(restaurantId) {
        SubsequenceKeep(o, ForRestaurant(tail, restaurantId), tail, rest);
        idx := [0] + Shift(rest);
      } else {
        SubsequenceSkip(o, ForRestaurant(tail, restaurantId), tail, rest);
        idx := Shift(rest);
      }
    }
  }

  /** The orders of one restaurant in the table. */
  ghost function RestaurantOrders(view: map<string, Order>, restaurantId: string): set<Order> {
    set k | k in view && view[k].restaurantId == Some(restaurantId) :: view[k]
  }

  /** The filter keeps every order of the restaurant as often as it occurs, and nothing else. */
  lemma {:induction false} ForRestaurantCounts(orders: seq<Order>, restaurantId: string, x: Order)
    ensures multiset(ForRestaurant(orders, restaurantId))[x]
      == if x.restaurantId == Some(restaurantId) then multiset(orders)[x] else 0
    decreases |orders|
  {
    if orders != [] {
      var o, rest := orders[0], orders[1..];
      ForRestaurantCounts(rest, restaurantId, x);
      assert orders == [o] + rest;
      assert multiset(orders) == multiset{o} + multiset(rest);
      assert ForRestaurant(orders, restaurantId)
        == (if o.restaurantId == Some(restaurantId) then [o] else []) + ForRestaurant(rest, restaurantId);
    }
  }

  /**
   * `GET /restaurant/<id>/orders` filters the newest-first list of all orders, so it
   * returns every order of that restaurant exactly once, still newest first.
   */
  lemma RestaurantListOfAllRows(all: seq<Order>, view: map<string, Order>, restaurantId: string)
    requires IsQueryResult(all, view, AllRows)
    ensures multiset(ForRestaurant(all, restaurantId)) == multiset(RestaurantOrders(view, restaurantId))
    ensures NewestFirst(ForRestaurant(all, restaurantId))
  {
    var r := ForRestaurant(all, restaurantId);
    assert SelectedAmong(view, AllRows, view.Keys) == view.Values;
    forall x ensures multiset(r)[x] == multiset(RestaurantOrders(view, restaurantId))[x] {
      ForRestaurantCounts(all, restaurantId, x);
      if x.restaurantId == Some(restaurantId) && x in view.Values {
        var k :| k in view && view[k] == x;
        assert x in RestaurantOrders(view, restaurantId);
      }
    }
    var idx := ForRestaurantIsSubsequence(all, restaurantId);
    forall i, j | 0 <= i < j < |r| ensures LexLe(r[j].createdAt, r[i].createdAt) {
      assert idx[i] < idx[j];
      assert r[i] == all[idx[i]] && r[j] == all[idx[j]];
    }
  }

  /** `GET /restaurant/<restaurant_id>/orders`. */
  method RestaurantGetOrders(db: OrdersTable, restaurantId: string) returns (resp: Response)
    requires db.Valid()
    ensures resp.status == 200 && resp.body.OrderList?
    ensures multiset(resp.body.orders) == multiset(RestaurantOrders(View(db.rows), restaurantId))
    ensures NewestFirst(resp.body.orders)
  {
    var orders := db.GetAllOrders();
    RestaurantListOfAllRows(orders, View(db.rows), restaurantId);
    resp := Response(200, OrderList(ForRestaurant(orders, restaurantId)));
  }
}
