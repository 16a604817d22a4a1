/**
 * The order use cases: who may create, read, advance and delete an order and
 * its items. Orders move through the status lifecycle one step at a time, and
 * each step belongs to one party: the user pays, the restaurant prepares and
 * hands over, the courier carries and delivers.
 */
module OrderService {
  import opened Domain
  import opened Consts
  import opened Roles
  import opened Store
  import opened OrderRepository

  /** The id the order records for a party: its user, its restaurant or its courier. */
  function PartyId(order: Order, role: Role): Option<int> {
    match role
    case UserRole => Some(order.userId)
    case RestaurantRole => Some(order.restaurantId)
    case CourierRole => Some(order.courierId)
    case _ => None
  }

  /** The client is the user, the restaurant or the courier of the order. */
  predicate CanRead(order: Order, clientId: int, role: Role) {
    || (role == UserRole && order.userId == clientId)
    || (role == RestaurantRole && order.restaurantId == clientId)
    || (role == CourierRole && order.courierId == clientId)
  }

  /** Exactly the parties the order names may read it; admins and unknown roles never may. */
  lemma CanReadIffParty(order: Order, clientId: int, role: Role)
    ensures CanRead(order, clientId, role) <==> PartyId(order, role) == Some(clientId)
  {
  }

  /** The party the lifecycle entitles to move an order into status next. */
  function StepOwner(next: int): (r: Option<Role>)
    ensures r.Some? <==> OrderPaid <= next <= OrderDelivered
  {
    if next == OrderPaid then Some(UserRole)
    else if next == OrderPreparing || next == OrderWaitingForCourier then Some(RestaurantRole)
    else if next == OrderEnRoute || next == OrderDelivered then Some(CourierRole)
    else None
  }

  /** The client is the party of the order that the lifecycle entitles to take the step into next. */
  predicate Entitled(order: Order, clientId: int, role: Role, next: int) {
    StepOwner(next) == Some(role) && PartyId(order, role) == Some(clientId)
  }

  /**
   * The row an update request leaves, or the error it returns, for a stored
   * order. The new status must be the next one; the step's party must make
   * it; paying stamps the payment time now and assigns the nearest waiting
   * courier, whose lookup is passed in as nearest. Every column the input
   * sets (a non-zero courier, a non-zero status, a present time) is written.
   */
  function Transition(order: Order, clientId: int, role: Role, input: Order, now: int,
                      nearest: Result<int>): (r: Result<Order>)
    ensures r.Ok? <==> && input.status == order.status + 1
                       && Entitled(order, clientId, role, input.status)
                       && (input.status == OrderPaid ==> nearest.Ok?)
    ensures r.Ok? ==> r.value.status == order.status + 1
    ensures r.Ok? && input.status == OrderPaid ==>
              r.value.paid == Some(now) && (nearest.value != 0 ==> r.value.courierId == nearest.value)
    ensures r.Ok? ==> r.value.(courierId := order.courierId, status := order.status, paid := order.paid) == order
    ensures r.Ok? && input.status != OrderPaid ==>
              && r.value.courierId == (if input.courierId != 0 then input.courierId else order.courierId)
              && r.value.paid == (if input.paid.Some? then input.paid else order.paid)
    ensures input.status != order.status + 1 ==> r == Err(Message("Invalid new order status"))
    ensures input.status == order.status + 1 && StepOwner(input.status).None? ==>
              r == Err(Message("Order status input error"))
    ensures (input.status == order.status + 1 && StepOwner(input.status).Some?
             && !Entitled(order, clientId, role, input.status)) ==> r == Err(Forbidden(role))
    ensures (input.status == OrderPaid && order.status == OrderCreated && Entitled(order, clientId, role, OrderPaid)
             && nearest == Err(NoRows)) ==> r == Err(Message("Free courier not found"))
  {
    if input.status - order.status != 1 then
      Err(Message("Invalid new order status"))
    else if input.status == OrderPaid then
      if !(role == UserRole && order.userId == clientId) then
        Err(Forbidden(role))
      else if nearest.Err? then
        Err(if nearest.error == NoRows then Message("Free courier not found") else nearest.error)
      else
        Ok(PatchOrder(order, input.(paid := Some(now), courierId := nearest.value)))
    else if input.status == OrderPreparing || input.status == OrderWaitingForCourier then
      if !(role == RestaurantRole && order.restaurantId == clientId) then
        Err(Forbidden(role))
      else
        Ok(PatchOrder(order, input))
    else if input.status == OrderEnRoute || input.status == OrderDelivered then
      if !(role == CourierRole && order.courierId == clientId) then
        Err(Forbidden(role))
      else
        Ok(PatchOrder(order, input))
    else
      Err(Message("Order status input error"))
  }

  /** A delivered order never moves again, whoever asks. */
  lemma DeliveredIsFinal(order: Order, clientId: int, role: Role, input: Order, now: int, nearest: Result<int>)
    requires order.status == OrderDelivered
    ensures Transition(order, clientId, role, input, now, nearest).Err?
  {
  }

  /** Admins and unknown client types cannot move an order at all. */
  lemma OnlyPartiesAdvance(order: Order, clientId: int, role: Role, input: Order, now: int, nearest: Result<int>)
    requires role == AdminRole || role.Unknown?
    ensures Transition(order, clientId, role, input, now, nearest).Err?
  {
  }

  /** An order paid for carries its payment time and a courier. */
  predicate PaidOrderComplete(order: Order) {
    order.status >= OrderPaid ==> order.courierId != 0 && order.paid.Some?
  }

  /** One update request against an order, with the courier lookup it would see. */
  datatype Request = Request(clientId: int, role: Role, input: Order, now: int, nearest: Result<int>)

  /** The order after a series of update requests; a refused request leaves it as it was. */
  function Run(order: Order, requests: seq<Request>): Order
    decreases |requests|
  {
    if requests == [] then order
    else
      var q := requests[0];
      var r := Transition(order, q.clientId, q.role, q.input, q.now, q.nearest);
      Run(if r.Ok? then r.value else order, requests[1..])
  }

  /** A lookup that found a courier found a real (positive) courier id. */
  predicate LookupsFindCouriers(requests: seq<Request>) {
    forall i :: 0 <= i < |requests| && requests[i].nearest.Ok? ==> requests[i].nearest.value > 0
  }

  /**
   * However updates are sent, a paid order keeps a courier and a payment time,
   * its id, user, restaurant and prices never change, and its status only
   * grows, by at most one per request.
   */
  lemma {:induction false} RunKeepsOrderSound(order: Order, requests: seq<Request>)
    requires PaidOrderComplete(order)
    requires LookupsFindCouriers(requests)
    ensures PaidOrderComplete(Run(order, requests))
    ensures order.status <= Run(order, requests).status <= order.status + |requests|
    ensures Run(order, requests).(courierId := order.courierId, status := order.status, paid := order.paid) == order
    decreases |requests|
  {
    if requests != [] {
      var q := requests[0];
      var r := Transition(order, q.clientId, q.role, q.input, q.now, q.nearest);
      var next := if r.Ok? then r.value else order;
      if r.Ok? && q.input.status == OrderPaid {
        assert q.nearest.Ok? && 0 <= 0 < |requests| && requests[0].nearest.Ok?;
      }
      assert PaidOrderComplete(next);
      assert LookupsFindCouriers(requests[1..]) by {
        forall i | 0 <= i < |requests[1..]| && requests[1..][i].nearest.Ok?
          ensures requests[1..][i].nearest.value > 0
        {
          assert requests[1..][i] == requests[i + 1];
        }
      }
      RunKeepsOrderSound(next, requests[1..]);
    }
  }

  /** Starting from a new order, the only way to delivered is five accepted steps, one per status. */
  lemma {:induction false} DeliveryTakesFiveSteps(order: Order, requests: seq<Request>)
    requires order.status == OrderCreated
    requires LookupsFindCouriers(requests)
    requires Run(order, requests).status == OrderDelivered
    ensures |requests| >= 5
  {
    RunKeepsOrderSound(order, requests);
  }

  /** An update input that carries only a status: no courier and no payment time of its own. */
  function StatusInput(status: int): (o: Order)
    ensures o.status == status && o.courierId == 0 && o.paid == None
  {
    Order(0, 0, 0, 0, 0, 0, status, None)
  }

  /**
   * The lifecycle runs to the end: the user pays (the lookup finds courier
   * courierId), the restaurant prepares and hands over, and that courier
   * carries and delivers. The delivered order keeps the courier and the
   * payment time.
   */
  lemma {:induction false} HappyPathDelivers(order: Order, courierId: int, now: int)
    requires order.status == OrderCreated && courierId > 0
    ensures var requests := [
              Request(order.userId, UserRole, StatusInput(OrderPaid), now, Ok(courierId)),
              Request(order.restaurantId, RestaurantRole, StatusInput(OrderPreparing), now, Err(NoRows)),
              Request(order.restaurantId, RestaurantRole, StatusInput(OrderWaitingForCourier), now, Err(NoRows)),
              Request(courierId, CourierRole, StatusInput(OrderEnRoute), now, Err(NoRows)),
              Request(courierId, CourierRole, StatusInput(OrderDelivered), now, Err(NoRows))];
            Run(order, requests) == order.(status := OrderDelivered, courierId := courierId, paid := Some(now))
  {
    var requests := [
      Request(order.userId, UserRole, StatusInput(OrderPaid), now, Ok(courierId)),
      Request(order.restaurantId, RestaurantRole, StatusInput(OrderPreparing), now, Err(NoRows)),
      Request(order.restaurantId, RestaurantRole, StatusInput(OrderWaitingForCourier), now, Err(NoRows)),
      Request(courierId, CourierRole, StatusInput(OrderEnRoute), now, Err(NoRows)),
      Request(courierId, CourierRole, StatusInput(OrderDelivered), now, Err(NoRows))];
    var paid := order.(status := OrderPaid, courierId := courierId, paid := Some(now));
    assert Run(order, requests) == Run(paid, requests[1..]);
    assert Run(paid, requests[1..]) == Run(paid.(status := OrderPreparing), requests[2..]);
    assert Run(paid.(status := OrderPreparing), requests[2..])
        == Run(paid.(status := OrderWaitingForCourier), requests[3..]);
    assert Run(paid.(status := OrderWaitingForCourier), requests[3..])
        == Run(paid.(status := OrderEnRoute), requests[4..]);
    assert Run(paid.(status := OrderEnRoute), requests[4..]) == Run(paid.(status := OrderDelivered), []);
  }

  class OrderService {
    const repo: OrderPg

    constructor (repo: OrderPg)
      ensures this.repo == repo
    {
      this.repo := repo;
    }

    /** A user places an order in their own name; other client types are refused. */
    method Create(clientId: int, role: Role, order: Order) returns (r: Result<int>)
      requires repo.db.Valid()
      modifies repo.db`orders, repo.db`nextOrderId
      ensures repo.db.Valid()
      ensures role != UserRole ==> r == Err(Message("Forbidden")) && repo.db.orders == old(repo.db.orders)
      ensures r.Ok? ==> role == UserRole && r.value !in old(repo.db.orders)
                        && repo.db.orders == old(repo.db.orders)[r.value := NewOrder(r.value, order.(userId := clientId))]
      ensures role == UserRole ==> (r.Ok? <==> order.restaurantId in repo.db.restaurants)
      ensures r.Err? ==> repo.db.orders == old(repo.db.orders)
    {
      if role != UserRole {
        return Err(Message("Forbidden"));
      }
      r := repo.Create(order.(userId := clientId));
    }

    /** The items of an order, for its user, its restaurant or its courier. */
    function GetAllItems(clientId: int, role: Role, orderId: int): (r: Result<set<OrderItem>>)
      requires repo.db.Valid()
      reads repo.db
      ensures orderId !in repo.db.orders ==> r == Err(NoRows)
      ensures orderId in repo.db.orders && !CanRead(repo.db.orders[orderId], clientId, role) ==> r == Err(Forbidden(role))
      ensures r.Ok? <==> orderId in repo.db.orders && CanRead(repo.db.orders[orderId], clientId, role)
      ensures r.Ok? ==> forall it :: it in r.value <==> it in repo.db.orderItems.Values && it.orderId == orderId
    {
      var order := repo.GetById(orderId);
      if order.Err? then Err(order.error)
      else if !CanRead(order.value, clientId, role) then Err(Forbidden(role))
      else Ok(repo.GetAllItems(orderId))
    }

    /** The order, for its user, its restaurant or its courier. */
    function GetById(clientId: int, role: Role, orderId: int): (r: Result<Order>)
      requires repo.db.Valid()
      reads repo.db
      ensures orderId !in repo.db.orders ==> r == Err(NoRows)
      ensures orderId in repo.db.orders && !CanRead(repo.db.orders[orderId], clientId, role) ==> r == Err(Forbidden(role))
      ensures r.Ok? <==> orderId in repo.db.orders && CanRead(repo.db.orders[orderId], clientId, role)
      ensures r.Ok? ==> r.value == repo.db.orders[orderId]
    {
      var order := repo.GetById(orderId);
      if order.Err? then Err(order.error)
      else if !CanRead(order.value, clientId, role) then Err(Forbidden(role))
      else Ok(order.value)
    }

    /** The user of an order deletes it while it is not yet paid. */
    method Delete(clientId: int, role: Role, orderId: int) returns (r: Outcome)
      requires repo.db.Valid()
      modifies repo.db`orders
      ensures repo.db.Valid()
      ensures r.Pass? <==> orderId in old(repo.db.orders) && role == UserRole
                           && old(repo.db.orders)[orderId].userId == clientId
                           && old(repo.db.orders)[orderId].status == OrderCreated
      ensures orderId !in old(repo.db.orders) ==> r == Fail(Message("Order not found"))
      ensures orderId in old(repo.db.orders) && !(role == UserRole && old(repo.db.orders)[orderId].userId == clientId)
              ==> r == Fail(Message("Forbidden"))
      ensures orderId in old(repo.db.orders) && role == UserRole && old(repo.db.orders)[orderId].userId == clientId
              && old(repo.db.orders)[orderId].status != OrderCreated
              ==> r == Fail(Message("You can't delete a paid order"))
      ensures repo.db.orders == if r.Pass? then old(repo.db.orders) - {orderId} else old(repo.db.orders)
    {
      var order := repo.GetById(orderId);
      if order.Err? {
        return Fail(Message("Order not found"));  // the lookup fails only with no row
      }
      if !(role == UserRole && order.value.userId == clientId) {
        return Fail(Message("Forbidden"));
      }
      if order.value.status != OrderCreated {
        return Fail(Message("You can't delete a paid order"));
      }
      repo.Delete(orderId);
      r := Pass;
    }

    /**
     * Advances the order by one status, as Transition describes; paying looks
     * up the waiting courier nearest to the order's user (reported in the
     * ghost result lookup) and stamps the time now.
     */
    method Update(clientId: int, role: Role, orderId: int, input: Order, now: int)
      returns (r: Outcome, ghost lookup: Result<int>)
      requires repo.db.Valid()
      modifies repo.db`orders
      ensures repo.db.Valid()
      ensures orderId !in old(repo.db.orders) ==> r == Fail(Message("Order not found")) && repo.db.orders == old(repo.db.orders)
      ensures orderId in old(repo.db.orders) ==>
                var t := Transition(old(repo.db.orders)[orderId], clientId, role, input, now, lookup);
                && (r.Pass? <==> t.Ok?)
                && (t.Err? ==> r == Fail(t.error) && repo.db.orders == old(repo.db.orders))
                && (t.Ok? ==> repo.db.orders == old(repo.db.orders)[orderId := t.value])
      ensures lookup.Ok? ==>
                && orderId in old(repo.db.orders) && lookup.value > 0
                && old(repo.db.orders)[orderId].userId in repo.db.users
                && IsNearestWaiting(repo.db.couriers, repo.db.users[old(repo.db.orders)[orderId].userId].address,
                                    repo.db.getDistance, lookup.value)
      ensures orderId in old(repo.db.orders) && lookup.Err? && input.status == OrderPaid
              && old(repo.db.orders)[orderId].status == OrderCreated
              && Entitled(old(repo.db.orders)[orderId], clientId, role, OrderPaid) ==>
                lookup == Err(NoRows)
                && (old(repo.db.orders)[orderId].userId !in repo.db.users || forall c :: !IsWaiting(repo.db.couriers, c))
    {
      lookup := Err(NoRows);
      var found := repo.GetById(orderId);
      if found.Err? {
        return Fail(Message("Order not found")), lookup;  // the lookup fails only with no row
      }
      var order := found.value;
      var patch := input;
      if input.status - order.status != 1 {
        return Fail(Message("Invalid new order status")), lookup;
      }
      if input.status == OrderPaid {
        if !(role == UserRole && order.userId == clientId) {
          return Fail(Forbidden(role)), lookup;
        }
        var nearest := repo.GetNearestCourierId(order.userId);
        lookup := nearest;
        if nearest.Err? {
          return Fail(Message("Free courier not found")), lookup;  // the lookup fails only with no row
        }
        patch := input.(paid := Some(now), courierId := nearest.value);
      } else if input.status == OrderPreparing || input.status == OrderWaitingForCourier {
        if !(role == RestaurantRole && order.restaurantId == clientId) {
          return Fail(Forbidden(role)), lookup;
        }
      } else if input.status == OrderEnRoute || input.status == OrderDelivered {
        if !(role == CourierRole && order.courierId == clientId) {
          return Fail(Forbidden(role)), lookup;
        }
      } else {
        return Fail(Message("Order status input error")), lookup;
      }
      r := repo.Update(orderId, patch);
    }

    /** The paid orders waiting at a restaurant, for any user or for the restaurant itself. */
    function GetActiveRestaurantOrders(clientId: int, role: Role, restaurantId: int): (r: Result<set<Order>>)
      reads repo.db
      ensures r.Ok? <==> role == UserRole || (role == RestaurantRole && restaurantId == clientId)
      ensures r.Err? ==> r.error == Message("Forbidden")
      ensures r.Ok? ==> forall o :: o in r.value <==>
                o in repo.db.orders.Values && o.restaurantId == restaurantId && o.status == OrderPaid
    {
      if !(role == UserRole || (role == RestaurantRole && restaurantId == clientId)) then
        Err(Message("Forbidden"))
      else
        Ok(repo.GetActiveRestaurantOrders(restaurantId))
    }

    /** A user adds an item with a count from 1 to 99 to an order. */
    method CreateItem(clientId: int, role: Role, item: OrderItem) returns (r: Result<int>)
      requires repo.db.Valid()
      modifies repo.db`orderItems, repo.db`nextItemId
      ensures repo.db.Valid()
      ensures r.Ok? <==> role == UserRole && 1 <= item.count <= 99
      ensures role != UserRole ==> r == Err(Message("Forbidden"))
      ensures role == UserRole && !(1 <= item.count <= 99) ==> r == Err(Message("Menu items count must be greater than 0"))
      ensures r.Ok? ==> r.value !in old(repo.db.orderItems)
                        && repo.db.orderItems == old(repo.db.orderItems)[r.value := item.(id := r.value)]
      ensures r.Err? ==> repo.db.orderItems == old(repo.db.orderItems)
    {
      if role != UserRole {
        return Err(Message("Forbidden"));
      }
      if item.count < 1 || item.count > 99 {
        return Err(Message("Menu items count must be greater than 0"));
      }
      var id := repo.CreateItem(item);
      r := Ok(id);
    }

    /** An item of the order, for a party of the order, when the item belongs to that order. */
    function GetItemById(clientId: int, role: Role, orderId: int, itemId: int): (r: Result<OrderItem>)
      requires repo.db.Valid()
      reads repo.db
      ensures r.Ok? <==> && orderId in repo.db.orders && CanRead(repo.db.orders[orderId], clientId, role)
                         && itemId in repo.db.orderItems && repo.db.orderItems[itemId].orderId == orderId
      ensures r.Ok? ==> r.value == repo.db.orderItems[itemId]
      ensures orderId !in repo.db.orders ==> r == Err(NoRows)
      ensures orderId in repo.db.orders && !CanRead(repo.db.orders[orderId], clientId, role) ==> r == Err(Forbidden(role))
      ensures orderId in repo.db.orders && CanRead(repo.db.orders[orderId], clientId, role) && itemId !in repo.db.orderItems
              ==> r == Err(NoRows)
      ensures && orderId in repo.db.orders && CanRead(repo.db.orders[orderId], clientId, role)
              && itemId in repo.db.orderItems && repo.db.orderItems[itemId].orderId != orderId
              ==> r == Err(Message("no such orderItem for this order"))
    {
      var order := repo.GetById(orderId);
      if order.Err? then Err(order.error)
      else if !CanRead(order.value, clientId, role) then Err(Forbidden(role))
      else
        var item := repo.GetItemById(itemId);
        if item.Err? then Err(item.error)
        else if item.value.orderId != orderId then Err(Message("no such orderItem for this order"))
        else Ok(item.value)
    }

    /** The user of the order sets the count (1 to 99) of one of its items. */
    method UpdateItem(clientId: int, role: Role, orderId: int, itemId: int, count: int) returns (r: Outcome)
      requires repo.db.Valid()
      modifies repo.db`orderItems
      ensures repo.db.Valid()
      ensures r.Pass? <==> && orderId in repo.db.orders && role == UserRole && repo.db.orders[orderId].userId == clientId
                           && itemId in old(repo.db.orderItems) && old(repo.db.orderItems)[itemId].orderId == orderId
                           && 1 <= count <= 99
      ensures orderId !in repo.db.orders ==> r == Fail(NoRows)
      ensures orderId in repo.db.orders && !(role == UserRole && repo.db.orders[orderId].userId == clientId)
              ==> r == Fail(Message("Forbidden"))
      ensures && orderId in repo.db.orders && role == UserRole && repo.db.orders[orderId].userId == clientId
              && itemId in old(repo.db.orderItems) && old(repo.db.orderItems)[itemId].orderId != orderId
              ==> r == Fail(Message("No such orderItem for this order"))
      ensures && orderId in repo.db.orders && role == UserRole && repo.db.orders[orderId].userId == clientId
              && itemId in old(repo.db.orderItems) && old(repo.db.orderItems)[itemId].orderId == orderId
              && !(1 <= count <= 99)
              ==> r == Fail(Message("Menu items count must be greater than 0"))
      ensures repo.db.orderItems == if r.Pass?
                                    then old(repo.db.orderItems)[itemId := old(repo.db.orderItems)[itemId].(count := count)]
                                    else old(repo.db.orderItems)
    {
      var order := repo.GetById(orderId);
      if order.Err? {
        return Fail(order.error);
      }
      if !(role == UserRole && order.value.userId == clientId) {
        return Fail(Message("Forbidden"));
      }
      var item := repo.GetItemById(itemId);
      if item.Err? {
        return Fail(item.error);
      }
      if item.value.orderId != orderId {
        return Fail(Message("No such orderItem for this order"));
      }
      if count < 1 || count > 99 {
        return Fail(Message("Menu items count must be greater than 0"));
      }
      repo.UpdateItem(itemId, count);
      r := Pass;
    }

    /** The user of the order removes one of its items; an item of another order stays. */
    method DeleteItem(clientId: int, role: Role, orderId: int, itemId: int) returns (r: Outcome)
      requires repo.db.Valid()
      modifies repo.db`orderItems
      ensures repo.db.Valid()
      ensures r.Pass? <==> orderId in repo.db.orders && role == UserRole && repo.db.orders[orderId].userId == clientId
      ensures orderId !in repo.db.orders ==> r == Fail(NoRows)
      ensures orderId in repo.db.orders && !r.Pass? ==> r == Fail(Forbidden(role))
      ensures repo.db.orderItems == if r.Pass? && itemId in old(repo.db.orderItems)
                                       && old(repo.db.orderItems)[itemId].orderId == orderId
                                    then old(repo.db.orderItems) - {itemId}
                                    else old(repo.db.orderItems)
    {
      var order := repo.GetById(orderId);
      if order.Err? {
        return Fail(order.error);
      }
      if !(role == UserRole && order.value.userId == clientId) {
        return Fail(Forbidden(role));
      }
      repo.DeleteItem(orderId, itemId);
      r := Pass;
    }

    /** A courier asks for its own active order. */
    method GetActiveCourierOrder(clientId: int, role: Role, courierId: int) returns (r: Result<Order>)
      ensures !(role == CourierRole && courierId == clientId) ==> r == Err(Forbidden(role))
      ensures r.Ok? ==> role == CourierRole && courierId == clientId
                        && r.value in repo.db.orders.Values && LiteralActiveCourierMatch(r.value, courierId)
      ensures role == CourierRole && courierId == clientId ==>
                (r.Err? <==> forall id :: id in repo.db.orders ==> !LiteralActiveCourierMatch(repo.db.orders[id], courierId))
    {
      if !(role == CourierRole && courierId == clientId) {
        return Err(Forbidden(role));
      }
      r := repo.GetActiveCourierOrder(courierId);
    }
  }
}
