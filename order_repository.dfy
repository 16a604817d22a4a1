/** The orders and order_items tables, as OrderPg reads and writes them. */
module OrderRepository {
  import opened Domain
  import opened Consts
  import opened Store

  /** The row an INSERT of an order stores: no courier and no payment time yet. */
  function NewOrder(id: int, order: Order): (r: Order)
    ensures r.id == id && r.courierId == 0 && r.paid == None
    ensures r.(id := order.id, courierId := order.courierId, paid := order.paid) == order
  {
    order.(id := id, courierId := 0, paid := None)
  }

  /**
   * The row a partial UPDATE leaves: courier, status and payment time are
   * overwritten only by a non-zero courier, a non-zero status and a present
   * time; every other column keeps its value.
   */
  function PatchOrder(stored: Order, input: Order): (r: Order)
    ensures r.(courierId := stored.courierId, status := stored.status, paid := stored.paid) == stored
    ensures input.courierId != 0 ==> r.courierId == input.courierId
    ensures input.courierId == 0 ==> r.courierId == stored.courierId
    ensures input.status != 0 ==> r.status == input.status
    ensures input.status == 0 ==> r.status == stored.status
    ensures input.paid.Some? ==> r.paid == input.paid
    ensures input.paid.None? ==> r.paid == stored.paid
  {
    stored.(
      courierId := if input.courierId != 0 then input.courierId else stored.courierId,
      status := if input.status != 0 then input.status else stored.status,
      paid := if input.paid.Some? then input.paid else stored.paid)
  }

  /** Writing the same input twice leaves the row as writing it once. */
  lemma PatchOrderIdempotent(stored: Order, input: Order)
    ensures PatchOrder(PatchOrder(stored, input), input) == PatchOrder(stored, input)
  {
  }

  /** A courier that is waiting, seen from the couriers table. */
  predicate IsWaiting(couriers: map<int, Courier>, id: int) {
    id in couriers && couriers[id].workingStatus == CourierWaiting
  }

  /** The courier is waiting and no waiting courier is closer to home. */
  ghost predicate IsNearestWaiting(couriers: map<int, Courier>, home: Location,
                                   distance: (Location, Location) -> int, id: int)
  {
    && IsWaiting(couriers, id)
    && forall c :: IsWaiting(couriers, c) ==>
         distance(couriers[id].address, home) <= distance(couriers[c].address, home)
  }

  /** The WHERE clause of the active-courier-order query as written: AND binds tighter than OR. */
  predicate LiteralActiveCourierMatch(o: Order, courierId: int) {
    o.status == OrderPaid || o.status == OrderPreparing || o.status == OrderWaitingForCourier
    || (o.status == OrderEnRoute && o.courierId == courierId)
  }

  /** An order paid for, not yet delivered, and assigned to the courier. */
  predicate IsActiveOrderOf(o: Order, courierId: int) {
    IsActiveStatus(o.status) && o.courierId == courierId
  }

  /** Every intended match also matches the query as written ... */
  lemma LiteralMatchIncludesIntended(o: Order, courierId: int)
    ensures IsActiveOrderOf(o, courierId) ==> LiteralActiveCourierMatch(o, courierId)
  {
  }

  /** ... but the query as written also matches a paid order assigned to another courier. */
  lemma LiteralMatchIgnoresCourier()
    ensures var o := Order(1, 1, 1, 2, 100, 900, OrderPaid, Some(0));
            LiteralActiveCourierMatch(o, 1) && !IsActiveOrderOf(o, 1)
  {
  }

  /** Scans the couriers table for a waiting courier at the least distance from home. */
  method NearestWaiting(couriers: map<int, Courier>, home: Location, distance: (Location, Location) -> int)
    returns (best: Option<int>)
    ensures best.None? <==> forall c :: !IsWaiting(couriers, c)
    ensures best.Some? ==> IsNearestWaiting(couriers, home, distance, best.value)
  {
    best := None;
    var rest, done := couriers.Keys, {};
    while exists id :: id in rest
      invariant rest + done == couriers.Keys
      invariant best.None? ==> forall c :: c in done ==> !IsWaiting(couriers, c)
      invariant best.Some? ==> IsWaiting(couriers, best.value)
      invariant best.Some? ==> forall c :: c in done && IsWaiting(couriers, c) ==>
                  distance(couriers[best.value].address, home) <= distance(couriers[c].address, home)
      decreases rest
    {
      var id :| id in rest;
      rest, done := rest - {id}, done + {id};
      if IsWaiting(couriers, id) &&
         (best.None? || distance(couriers[id].address, home) < distance(couriers[best.value].address, home))
      {
        best := Some(id);
      }
    }
  }

  class OrderPg {
    const db: Database

    constructor (db: Database)
      ensures this.db == db
    {
      this.db := db;
    }

    /** Inserts an order for an existing restaurant and returns its fresh id. */
    method Create(order: Order) returns (r: Result<int>)
      requires db.Valid()
      modifies db`orders, db`nextOrderId
      ensures db.Valid()
      ensures r.Ok? <==> order.restaurantId in db.restaurants
      ensures r.Err? ==> r.error == ForeignKeyViolation && db.orders == old(db.orders)
      ensures r.Ok? ==> r.value > 0 && r.value !in old(db.orders)
                        && db.orders == old(db.orders)[r.value := NewOrder(r.value, order)]
    {
      if order.restaurantId !in db.restaurants {
        return Err(ForeignKeyViolation);
      }
      var id := db.nextOrderId;
      db.orders := db.orders[id := NewOrder(id, order)];
      db.nextOrderId := id + 1;
      r := Ok(id);
    }

    /** The items of an order, in no particular order. */
    function GetAllItems(orderId: int): (items: set<OrderItem>)
      reads db
      ensures forall it :: it in items ==> it in db.orderItems.Values && it.orderId == orderId
      ensures forall id :: id in db.orderItems && db.orderItems[id].orderId == orderId ==> db.orderItems[id] in items
    {
      set id | id in db.orderItems && db.orderItems[id].orderId == orderId :: db.orderItems[id]
    }

    /** The stored order with this id, or no row. */
    function GetById(orderId: int): (r: Result<Order>)
      requires db.Valid()
      reads db
      ensures r.Ok? <==> orderId in db.orders
      ensures r.Err? ==> r.error == NoRows
      ensures r.Ok? ==> r.value == db.orders[orderId] && r.value.id == orderId
    {
      if orderId in db.orders then Ok(db.orders[orderId]) else Err(NoRows)
    }

    /** Removes the order; deleting a missing order removes nothing. */
    method Delete(orderId: int)
      requires db.Valid()
      modifies db`orders
      ensures db.Valid()
      ensures db.orders == old(db.orders) - {orderId}
    {
      db.orders := db.orders - {orderId};
    }

    /**
     * Writes the non-zero courier, the non-zero status and the present
     * payment time of input into the order. With none of the three the
     * statement has an empty SET list and fails.
     */
    method Update(orderId: int, input: Order) returns (r: Outcome)
      requires db.Valid()
      modifies db`orders
      ensures db.Valid()
      ensures r.Pass? <==> input.courierId != 0 || input.status != 0 || input.paid.Some?
      ensures r.Fail? ==> r.error == MalformedQuery
      ensures db.orders == if r.Pass? && orderId in old(db.orders)
                           then old(db.orders)[orderId := PatchOrder(old(db.orders)[orderId], input)]
                           else old(db.orders)
    {
      var setValues: seq<string> := [];
      if input.courierId != 0 {
        setValues := setValues + ["courier_id"];
      }
      if input.status != 0 {
        setValues := setValues + ["status"];
      }
      if input.paid.Some? {
        setValues := setValues + ["paid"];
      }
      if setValues == [] {
        return Fail(MalformedQuery);
      }
      if orderId in db.orders {
        db.orders := db.orders[orderId := PatchOrder(db.orders[orderId], input)];
      }
      r := Pass;
    }

    /** The restaurant's orders that are paid and not yet being prepared. */
    function GetActiveRestaurantOrders(restaurantId: int): (orders: set<Order>)
      reads db
      ensures forall o :: o in orders ==> o in db.orders.Values && o.restaurantId == restaurantId && o.status == OrderPaid
      ensures forall id :: id in db.orders && db.orders[id].restaurantId == restaurantId && db.orders[id].status == OrderPaid
                ==> db.orders[id] in orders
    {
      set id | id in db.orders && db.orders[id].restaurantId == restaurantId && db.orders[id].status == OrderPaid
        :: db.orders[id]
    }

    /** Inserts an order item and returns its fresh id. */
    method CreateItem(item: OrderItem) returns (id: int)
      requires db.Valid()
      modifies db`orderItems, db`nextItemId
      ensures db.Valid()
      ensures id > 0 && id !in old(db.orderItems)
      ensures db.orderItems == old(db.orderItems)[id := item.(id := id)]
    {
      id := db.nextItemId;
      db.orderItems := db.orderItems[id := item.(id := id)];
      db.nextItemId := id + 1;
    }

    /** The item with this id, whichever order it belongs to, or no row. */
    function GetItemById(itemId: int): (r: Result<OrderItem>)
      requires db.Valid()
      reads db
      ensures r.Ok? <==> itemId in db.orderItems
      ensures r.Err? ==> r.error == NoRows
      ensures r.Ok? ==> r.value == db.orderItems[itemId] && r.value.id == itemId
    {
      if itemId in db.orderItems then Ok(db.orderItems[itemId]) else Err(NoRows)
    }

    /** Removes the item only when it belongs to the order; otherwise nothing happens. */
    method DeleteItem(orderId: int, itemId: int)
      requires db.Valid()
      modifies db`orderItems
      ensures db.Valid()
      ensures db.orderItems == if itemId in old(db.orderItems) && old(db.orderItems)[itemId].orderId == orderId
                               then old(db.orderItems) - {itemId}
                               else old(db.orderItems)
    {
      if itemId in db.orderItems && db.orderItems[itemId].orderId == orderId {
        db.orderItems := db.orderItems - {itemId};
      }
    }

    /** Sets the count of the item; every other column and item keeps its value. */
    method UpdateItem(itemId: int, count: int)
      requires db.Valid()
      modifies db`orderItems
      ensures db.Valid()
      ensures db.orderItems == if itemId in old(db.orderItems)
                               then old(db.orderItems)[itemId := old(db.orderItems)[itemId].(count := count)]
                               else old(db.orderItems)
    {
      if itemId in db.orderItems {
        db.orderItems := db.orderItems[itemId := db.orderItems[itemId].(count := count)];
      }
    }

    /**
     * Some order the active-courier-order query matches (any one of them, as
     * the query has no ORDER BY), or no row. The WHERE clause is the one
     * written, LiteralActiveCourierMatch, so a paid, preparing or waiting
     * order of any courier matches too.
     */
    method GetActiveCourierOrder(courierId: int) returns (r: Result<Order>)
      ensures r.Ok? ==> r.value in db.orders.Values && LiteralActiveCourierMatch(r.value, courierId)
      ensures r.Err? <==> forall id :: id in db.orders ==> !LiteralActiveCourierMatch(db.orders[id], courierId)
      ensures r.Err? ==> r.error == NoRows
    {
      if exists id :: id in db.orders && LiteralActiveCourierMatch(db.orders[id], courierId) {
        var id :| id in db.orders && LiteralActiveCourierMatch(db.orders[id], courierId);
        r := Ok(db.orders[id]);
      } else {
        r := Err(NoRows);
      }
    }

    /**
     * The id of a waiting courier nearest to the user's address. No row when
     * the user has no address row or no courier is waiting.
     */
    method GetNearestCourierId(userId: int) returns (r: Result<int>)
      requires db.Valid()
      ensures r.Ok? <==> userId in db.users && exists c :: IsWaiting(db.couriers, c)
      ensures r.Err? ==> r.error == NoRows
      ensures r.Ok? ==> r.value > 0 && IsNearestWaiting(db.couriers, db.users[userId].address, db.getDistance, r.value)
    {
      if userId !in db.users {
        return Err(NoRows);
      }
      var best := NearestWaiting(db.couriers, db.users[userId].address, db.getDistance);
      if best.None? {
        return Err(NoRows);
      }
      r := Ok(best.value);
    }
  }
}
