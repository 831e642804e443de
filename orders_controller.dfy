/**
 * The order endpoints: a role and ownership guard on each protected handler,
 * run before the service is consulted, then a plain delegation. Each handler
 * is a function of the caller's identity, its arguments and the repository
 * contents; the status update also has its form over the service object.
 */
module OrdersController {
  import opened Types
  import opened Orders

  const ListForbidden := "Unauthorized to access these orders"
  const UpdateForbidden := "Only delivery users can update order status"

  /** The guard of `GET /orders/user/:userId`. */
  predicate MayListOrders(caller: Identity, userId: int)
  {
    caller.role == Delivery || caller.id == userId
  }

  /** The guard of `PUT /orders/:id/status`. */
  predicate MayUpdateStatus(caller: Identity)
  {
    caller.role == Delivery
  }

  /**
   * `GET /orders/:id`: no caller identity is taken, so the outcome depends on
   * the id and the repository alone.
   */
  function GetOrderById(orders: map<int, Order>, orderId: int): (r: Outcome<Order>)
    ensures r.Ok? <==> orderId in orders
    ensures r.Ok? ==> r.value == orders[orderId]
    ensures r.Err? ==> r.error == NotFound(OrderNotFound)
  {
    FindOrder(orders, orderId)
  }

  /** `GET /orders/user/:userId`. */
  ghost function GetUserOrders(caller: Identity, userId: int, orders: map<int, Order>): (r: Outcome<seq<Order>>)
    requires KeyedById(orders)
    ensures r.Err? <==> caller.role != Delivery && caller.id != userId
    ensures r.Err? ==> r.error == Forbidden(ListForbidden)
    ensures r.Ok? ==> r.value == UserOrders(orders, userId)
  {
    if !MayListOrders(caller, userId) then Err(Forbidden(ListForbidden))
    else Ok(UserOrders(orders, userId))
  }

  /** `PUT /orders/:id/status`, with the repository it leaves behind. */
  function UpdateOrderStatus(caller: Identity, orderId: int, status: OrderStatus, orders: map<int, Order>): (s: Saved)
    requires KeyedById(orders)
    ensures caller.role != Delivery ==> s == Saved(Err(Forbidden(UpdateForbidden)), orders)
    ensures caller.role == Delivery ==> s == StatusUpdate(orders, orderId, status)
  {
    if !MayUpdateStatus(caller) then Saved(Err(Forbidden(UpdateForbidden)), orders)
    else StatusUpdate(orders, orderId, status)
  }

  /**
   * The status handler over the service object: a refused caller leaves the
   * service untouched; an allowed one gets exactly what the service does
   * with the requested status.
   */
  method HandleUpdateOrderStatus(service: OrdersService, caller: Identity, orderId: int, status: OrderStatus)
    returns (r: Outcome<Order>)
    requires service.Valid()
    modifies service
    ensures service.Valid()
    ensures Saved(r, service.orders) == UpdateOrderStatus(caller, orderId, status, old(service.orders))
    ensures !MayUpdateStatus(caller) ==> unchanged(service)
  {
    if !MayUpdateStatus(caller) {
      return Err(Forbidden(UpdateForbidden));
    }
    r := service.UpdateOrderStatus(orderId, status);
  }

  // ---------------------------------------------------------------------
  // Properties of the guards.

  /** A refused listing is the same whatever the repository holds: the service is never consulted. */
  lemma RefusedListingIgnoresStore(caller: Identity, userId: int, orders1: map<int, Order>, orders2: map<int, Order>)
    requires KeyedById(orders1) && KeyedById(orders2)
    requires !MayListOrders(caller, userId)
    ensures GetUserOrders(caller, userId, orders1) == GetUserOrders(caller, userId, orders2)
                                                   == Err(Forbidden(ListForbidden))
  {
  }

  /** A delivery caller may list any user's orders and gets exactly the service's listing. */
  lemma DeliveryListsAnyUser(caller: Identity, userId: int, orders: map<int, Order>)
    requires KeyedById(orders)
    requires caller.role == Delivery
    ensures GetUserOrders(caller, userId, orders) == Ok(UserOrders(orders, userId))
  {
  }

  /** A client may list their own orders, and only their own. */
  lemma ClientListsOnlyOwnOrders(caller: Identity, userId: int, orders: map<int, Order>)
    requires KeyedById(orders)
    requires caller.role == Client
    ensures userId == caller.id ==> GetUserOrders(caller, userId, orders) == Ok(UserOrders(orders, caller.id))
    ensures userId != caller.id ==> GetUserOrders(caller, userId, orders) == Err(Forbidden(ListForbidden))
  {
  }

  /**
   * Reading one order is public: a caller who may not list the owner's
   * orders still reads any one of them by its id.
   */
  lemma PublicReadBypassesOwnership(caller: Identity, orders: map<int, Order>, orderId: int)
    requires KeyedById(orders)
    requires orderId in orders && !MayListOrders(caller, orders[orderId].ownerId)
    ensures GetUserOrders(caller, orders[orderId].ownerId, orders).Err?
    ensures GetOrderById(orders, orderId) == Ok(orders[orderId])
  {
  }

  /**
   * A non-delivery caller is refused whether or not the order exists, and
   * nothing is saved.
   */
  lemma RefusedUpdateSavesNothing(caller: Identity, orderId: int, status: OrderStatus, orders: map<int, Order>)
    requires KeyedById(orders)
    requires caller.role != Delivery
    ensures UpdateOrderStatus(caller, orderId, status, orders).outcome == Err(Forbidden(UpdateForbidden))
    ensures UpdateOrderStatus(caller, orderId, status, orders).orders == orders
  {
  }

  /**
   * A delivery caller may set any status on any existing order, whatever its
   * current status; the status stored is the one requested.
   */
  lemma DeliverySetsAnyStatus(caller: Identity, orderId: int, status: OrderStatus, orders: map<int, Order>)
    requires KeyedById(orders)
    requires caller.role == Delivery && orderId in orders
    ensures var s := UpdateOrderStatus(caller, orderId, status, orders);
      && s.outcome.Ok?
      && s.outcome.value.status == status
      && FindOrder(s.orders, orderId) == s.outcome
  {
    UpdateReplacesOnlyStatus(orders, orderId, status);
  }
}
