/**
 * The SQLite `orders` table of the orders service and the helpers that read and write
 * it. The table is keyed by `order_id`, its primary key; `items` are kept in the
 * `items_json` text column.
 */
module OrdersDb {
  import opened Wrappers
  import opened Orders
  import ItemsJson

  /** One row of the table, column by column. */
  datatype Row = Row(
    orderId: string,
    userId: Option<string>,
    restaurantId: Option<string>,
    restaurantName: Option<string>,
    itemsJson: string,
    total: real,
    status: Option<string>,
    createdAt: string,
    updatedAt: Option<string>)

  /**
   * The dictionary handed to `create_order`. The keys it reads with `order[key]` are
   * required (a missing one raises `KeyError`), so they are plain fields here; the keys
   * it reads with `order.get(key, default)` are `Field`s.
   */
  datatype NewOrder = NewOrder(
    orderId: string,
    userId: Option<string>,
    restaurantId: Option<string>,
    restaurantName: Option<string>,
    items: Field<seq<Item>>,
    total: Field<Option<real>>,
    status: Field<Option<string>>,
    createdAt: string,
    updatedAt: Field<Option<string>>)

  /** Why `create_order` raises: `float(None)`, or the primary key already taken. */
  datatype DbError = TotalNotANumber | DuplicateOrderId

  /** `json.loads(r[4] or '[]')`. */
  function LoadItems(itemsJson: string): (r: Option<seq<Item>>)
    ensures itemsJson == "" ==> r == Some([])
  {
    ItemsJson.EmptyItemsRoundTrip("");
    ItemsJson.Decode(if itemsJson == "" then "[]" else itemsJson)
  }

  /** The dictionary a read query builds from a row. */
  function RowToOrder(r: Row): (o: Order)
    requires LoadItems(r.itemsJson).Some?
    ensures o.orderId == r.orderId && o.userId == r.userId && o.restaurantId == r.restaurantId
    ensures o.restaurantName == r.restaurantName && o.total == r.total && o.status == r.status
    ensures o.createdAt == r.createdAt && o.updatedAt == r.updatedAt
    ensures Some(o.items) == LoadItems(r.itemsJson)
  {
    Order(r.orderId, r.userId, r.restaurantId, r.restaurantName, LoadItems(r.itemsJson).value,
          r.total, r.status, r.createdAt, r.updatedAt)
  }

  /** Every row sits under its own `order_id` and its items column can be read back. */
  ghost predicate ValidRows(rows: map<string, Row>) {
    forall k :: k in rows ==> rows[k].orderId == k && LoadItems(rows[k].itemsJson).Some?
  }

  /** The table as the read queries see it: each row turned into its order. */
  function View(rows: map<string, Row>): (v: map<string, Order>)
    requires ValidRows(rows)
    ensures v.Keys == rows.Keys
    ensures forall k :: k in v ==> v[k].orderId == k
  {
    map k | k in rows :: RowToOrder(rows[k])
  }

  /** The row the INSERT of `create_order` writes, or what it raises before writing. */
  function NewRow(o: NewOrder): (r: Result<Row, DbError>)
    ensures r.Failure? <==> o.total == Present(None)
    ensures r.Failure? ==> r.error == TotalNotANumber
    ensures r.Success? ==>
      && r.value.orderId == o.orderId
      && LoadItems(r.value.itemsJson) == Some(o.items.GetOr([]))
      && Some(r.value.total) == o.total.GetOr(Some(0.0))
      && r.value.status == o.status.GetOr(Some("pending"))
      && r.value.updatedAt == o.updatedAt.GetOr(None)
  {
    var items := o.items.GetOr([]);
    ItemsJson.DecodeEncode(items);
    assert ItemsJson.Encode(items) != "";
    match o.total.GetOr(Some(0.0))
    case None => Failure(TotalNotANumber)
    case Some(total) =>
      Success(Row(o.orderId, o.userId, o.restaurantId, o.restaurantName,
                  ItemsJson.Encode(o.items.GetOr([])), total,
                  o.status.GetOr(Some("pending")), o.createdAt, o.updatedAt.GetOr(None)))
  }

  /** The table after `create_order(o)`, or the error it raises (the table then unchanged). */
  function Insert(rows: map<string, Row>, o: NewOrder): (r: Result<map<string, Row>, DbError>)
    ensures r.Failure? <==> o.total == Present(None) || o.orderId in rows
    ensures r.Success? ==> r.value.Keys == rows.Keys + {o.orderId}
    ensures r.Success? ==> forall k :: k in rows ==> r.value[k] == rows[k]
    ensures r.Success? ==> Success(r.value[o.orderId]) == NewRow(o)
  {
    match NewRow(o)
    case Failure(e) => Failure(e)
    case Success(row) =>
      if o.orderId in rows then Failure(DuplicateOrderId) else Success(rows[o.orderId := row])
  }

  /** The table after `UPDATE orders SET status = ?, updated_at = ? WHERE order_id = ?`. */
  function SetStatus(rows: map<string, Row>, orderId: string, status: Option<string>, ts: string): (r: map<string, Row>)
    ensures r.Keys == rows.Keys
    ensures forall k :: k in rows && k != orderId ==> r[k] == rows[k]
    ensures orderId in rows ==> r[orderId] == rows[orderId].(status := status, updatedAt := Some(ts))
  {
    if orderId in rows then rows[orderId := rows[orderId].(status := status, updatedAt := Some(ts))]
    else rows
  }

  /** The WHERE clause of a read query: every row, or the rows of one user. */
  datatype Where = AllRows | UserIs(userId: string)

  predicate Matches(o: Order, w: Where) {
    match w
    case AllRows => true
    case UserIs(u) => o.userId == Some(u)
  }

  /** The orders among `keys` that the WHERE clause keeps. */
  ghost function SelectedAmong(view: map<string, Order>, w: Where, keys: set<string>): set<Order> {
    set k | k in keys && k in view && Matches(view[k], w) :: view[k]
  }

  /**
   * A possible answer of `SELECT * ... WHERE ... ORDER BY created_at DESC`: every kept
   * row exactly once, newest first. Rows with equal `created_at` may come in any order.
   */
  ghost predicate IsQueryResult(r: seq<Order>, view: map<string, Order>, w: Where) {
    multiset(r) == multiset(SelectedAmong(view, w, view.Keys)) && NewestFirst(r)
  }

  /** Scanning one more key adds its order to the selection when the clause keeps it. */
  lemma SelectStep(view: map<string, Order>, w: Where, done: set<string>, k: string)
    requires forall j :: j in view ==> view[j].orderId == j
    requires k in view && k !in done
    ensures Matches(view[k], w) ==>
      multiset(SelectedAmong(view, w, done + {k})) == multiset(SelectedAmong(view, w, done)) + multiset{view[k]}
    ensures !Matches(view[k], w) ==> SelectedAmong(view, w, done + {k}) == SelectedAmong(view, w, done)
  {
    var before := SelectedAmong(view, w, done);
    if Matches(view[k], w) {
      assert view[k] !in before;
      assert SelectedAmong(view, w, done + {k}) == before + {view[k]};
    }
  }

  /** Writing one readable row under its own id keeps every row readable. */
  lemma ValidRowsUpdate(rows: map<string, Row>, k: string, row: Row)
    requires ValidRows(rows) && row.orderId == k && LoadItems(row.itemsJson).Some?
    ensures ValidRows(rows[k := row])
  {
  }

  /** Writing one readable row under its own id changes the view at that id only. */
  lemma ViewUpdate(rows: map<string, Row>, k: string, row: Row)
    requires ValidRows(rows) && row.orderId == k && LoadItems(row.itemsJson).Some?
    ensures ValidRows(rows[k := row])
    ensures View(rows[k := row]) == View(rows)[k := RowToOrder(row)]
  {
    var t := rows[k := row];
    ValidRowsUpdate(rows, k, row);
    var a, b := View(t), View(rows)[k := RowToOrder(row)];
    assert a.Keys == b.Keys;
    forall j | j in a ensures a[j] == b[j] {
      if j != k { assert t[j] == rows[j]; }
    }
  }

  /** The orders `create_order(o)` makes readable: o's fields with `create_order`'s defaults. */
  function Created(o: NewOrder, total: real): Order {
    Order(o.orderId, o.userId, o.restaurantId, o.restaurantName, o.items.GetOr([]), total,
          o.status.GetOr(Some("pending")), o.createdAt, o.updatedAt.GetOr(None))
  }

  /**
   * `create_order` on a fresh id, then `get_order` on that id, gives back the order's
   * own fields (the items through `json.dumps` and `json.loads` unchanged), with
   * items `[]`, total 0, status `'pending'` and `updated_at` null where the keys are
   * missing; no other row changes. With a null total it raises and nothing is written;
   * with an id already present it raises and nothing is written.
   */
  lemma InsertThenRead(rows: map<string, Row>, o: NewOrder)
    requires ValidRows(rows)
    ensures o.total == Present(None) ==> Insert(rows, o) == Failure(TotalNotANumber)
    ensures o.total != Present(None) && o.orderId in rows ==> Insert(rows, o) == Failure(DuplicateOrderId)
    ensures o.total != Present(None) && o.orderId !in rows ==>
      && Insert(rows, o).Success?
      && ValidRows(Insert(rows, o).value)
      && View(Insert(rows, o).value) == View(rows)[o.orderId := Created(o, o.total.GetOr(Some(0.0)).value)]
  {
    if o.total != Present(None) && o.orderId !in rows {
      var items := o.items.GetOr([]);
      ItemsJson.DecodeEncode(items);
      var e := ItemsJson.Encode(items);
      assert e != "" by { assert e[0] == '['; }
      assert LoadItems(e) == Some(items);
      var row := NewRow(o).value;
      ViewUpdate(rows, o.orderId, row);
    }
  }

  /**
   * `update_order_status` changes exactly the status and `updated_at` of the one row
   * with that id; every other row, and every other field of that row, stays as it was.
   * On an absent id nothing changes.
   */
  lemma SetStatusEffect(rows: map<string, Row>, orderId: string, status: Option<string>, ts: string)
    requires ValidRows(rows)
    ensures ValidRows(SetStatus(rows, orderId, status, ts))
    ensures orderId !in rows ==> SetStatus(rows, orderId, status, ts) == rows
    ensures View(SetStatus(rows, orderId, status, ts)).Keys == View(rows).Keys
    ensures forall k :: k in rows && k != orderId ==> View(SetStatus(rows, orderId, status, ts))[k] == View(rows)[k]
    ensures orderId in rows ==>
      View(SetStatus(rows, orderId, status, ts))[orderId] == View(rows)[orderId].(status := status, updatedAt := Some(ts))
    ensures orderId in rows ==>
      View(SetStatus(rows, orderId, status, ts))
        == View(rows)[orderId := View(rows)[orderId].(status := status, updatedAt := Some(ts))]
  {
    if orderId in rows {
      var row := rows[orderId].(status := status, updatedAt := Some(ts));
      ViewUpdate(rows, orderId, row);
      assert RowToOrder(row) == View(rows)[orderId].(status := status, updatedAt := Some(ts));
    }
  }

  /** `get_orders_by_user` and `get_all_orders` return exactly the rows their WHERE clause keeps. */
  lemma QueryResultMembers(r: seq<Order>, view: map<string, Order>, w: Where, o: Order)
    requires forall j :: j in view ==> view[j].orderId == j
    requires IsQueryResult(r, view, w)
    ensures o in r <==> o.orderId in view && view[o.orderId] == o && Matches(o, w)
  {
    assert o in r <==> o in multiset(r);
    if o.orderId in view && view[o.orderId] == o && Matches(o, w) {
      assert o in SelectedAmong(view, w, view.Keys);
    }
  }

  /** `get_all_orders` returns a permutation of the whole table. */
  lemma AllRowsIsPermutation(r: seq<Order>, view: map<string, Order>)
    requires IsQueryResult(r, view, AllRows)
    ensures multiset(r) == multiset(view.Values)
  {
    assert SelectedAmong(view, AllRows, view.Keys) == view.Values;
  }

  /** Walks the table once, inserting each kept order into a newest-first list. */
  method Scan(view: map<string, Order>, w: Where) returns (r: seq<Order>)
    requires forall j :: j in view ==> view[j].orderId == j
    ensures IsQueryResult(r, view, w)
  {
    r := [];
    var todo := view.Keys;
    ghost var done: set<string> := {};
    while todo != {}
      invariant todo !! done && todo + done == view.Keys
      invariant multiset(r) == multiset(SelectedAmong(view, w, done))
      invariant NewestFirst(r)
      decreases |todo|
    {
      var k :| k in todo;
      var o := view[k];
      SelectStep(view, w, done, k);
      if Matches(o, w) {
        InsertKeepsNewestFirst(r, o);
        r := InsertNewestFirst(r, o);
      }
      todo := todo - {k};
      done := done + {k};
    }
    assert done == view.Keys;
  }

  /** The orders table behind the module-level connection. */
  class OrdersTable {
    var rows: map<string, Row>

    ghost predicate Valid()
      reads this
    {
      ValidRows(rows)
    }

    /** `CREATE TABLE IF NOT EXISTS orders` on a new database file. */
    constructor ()
      ensures Valid() && rows == map[]
    {
      rows := map[];
    }

    /** `create_order(order)`: INSERT one row, or raise. */
    method CreateOrder(o: NewOrder) returns (err: Option<DbError>)
      requires Valid()
      modifies this
      ensures Valid()
      ensures Insert(old(rows), o).Success? ==> err == None && rows == Insert(old(rows), o).value
      ensures Insert(old(rows), o).Failure? ==> err == Some(Insert(old(rows), o).error) && rows == old(rows)
    {
      InsertThenRead(rows, o);
      match NewRow(o)
      case Failure(e) =>
        err := Some(e);
      case Success(row) =>
        if o.orderId in rows {
          err := Some(DuplicateOrderId);
        } else {
          rows := rows[o.orderId := row];
          err := None;
        }
    }

    /** `get_order(order_id)`: the row with that key, or None. */
    method GetOrder(orderId: string) returns (r: Option<Order>)
      requires Valid()
      ensures r.None? <==> orderId !in rows
      ensures r.Some? ==> r.value == View(rows)[orderId] && r.value.orderId == orderId
    {
      if orderId in rows {
        r := Some(RowToOrder(rows[orderId]));
      } else {
        r := None;
      }
    }

    /** `update_order_status(order_id, new_status)` stamped `ts`, then the row read back. */
    method UpdateOrderStatus(orderId: string, newStatus: Option<string>, ts: string) returns (r: Option<Order>)
      requires Valid()
      modifies this
      ensures Valid()
      ensures rows == SetStatus(old(rows), orderId, newStatus, ts)
      ensures r == if orderId in rows then Some(View(rows)[orderId]) else None
    {
      SetStatusEffect(rows, orderId, newStatus, ts);
      if orderId in rows {
        rows := rows[orderId := rows[orderId].(status := newStatus, updatedAt := Some(ts))];
      }
      r := GetOrder(orderId);
    }

    /** The scan behind both read queries, over the rows as they are read. */
    method Select(w: Where) returns (r: seq<Order>)
      requires Valid()
      ensures IsQueryResult(r, View(rows), w)
    {
      r := Scan(View(rows), w);
    }

    /** `get_orders_by_user(user_id)`. */
    method GetOrdersByUser(userId: string) returns (r: seq<Order>)
      requires Valid()
      ensures IsQueryResult(r, View(rows), UserIs(userId))
    {
      r := Select(UserIs(userId));
    }

    /** `get_all_orders()`. */
    method GetAllOrders() returns (r: seq<Order>)
      requires Valid()
      ensures IsQueryResult(r, View(rows), AllRows)
    {
      r := Select(AllRows);
    }
  }
}
