/**
 * The order repository and the service over it. The repository is a map
 * from primary key to row. `ownerId` stands for the many-to-one `user`
 * relation; `createdAt` stands for the creation timestamp and is used only
 * as the sort key of a user's listing.
 */
module Orders {
  import opened Types

  datatype Order = Order(
    id: int,
    address: string,
    status: OrderStatus,
    ownerId: int,
    createdAt: int)

  const OrderNotFound := "Order not found"

  /** The repository invariant: every row is stored under its own primary key. */
  ghost predicate KeyedById(orders: map<int, Order>)
  {
    forall k :: k in orders ==> orders[k].id == k
  }

  // ---------------------------------------------------------------------
  // getOrderById: look the row up by primary key, NotFound when absent.

  function FindOrder(orders: map<int, Order>, orderId: int): (r: Outcome<Order>)
    ensures r.Ok? <==> orderId in orders
    ensures r.Ok? ==> r.value == orders[orderId]
    ensures r.Err? ==> r.error == NotFound(OrderNotFound)
  {
    if orderId in orders then Ok(orders[orderId]) else Err(NotFound(OrderNotFound))
  }

  /** Under the repository invariant a found order carries the id it was asked for. */
  lemma FoundOrderHasRequestedId(orders: map<int, Order>, orderId: int)
    requires KeyedById(orders)
    ensures FindOrder(orders, orderId).Ok? ==> FindOrder(orders, orderId).value.id == orderId
  {
  }

  // ---------------------------------------------------------------------
  // getUserOrders: the rows owned by one user, newest first.

  /** The keys selected by `where: { user: { id: userId } }`. */
  function OwnedKeys(orders: map<int, Order>, userId: int): set<int>
  {
    set k | k in orders && orders[k].ownerId == userId
  }

  /** `k` is a most recently created row among `ks`. */
  ghost predicate IsNewest(orders: map<int, Order>, ks: set<int>, k: int)
    requires ks <= orders.Keys
  {
    k in ks && forall j :: j in ks ==> orders[j].createdAt <= orders[k].createdAt
  }

  lemma {:induction false} NewestExists(orders: map<int, Order>, ks: set<int>)
    requires ks != {} && ks <= orders.Keys
    ensures exists k :: IsNewest(orders, ks, k)
  {
    if forall k :: k !in ks {
      assert false;
    }
    var k0 :| k0 in ks;
    if ks == {k0} {
      assert IsNewest(orders, ks, k0);
    } else {
      var rest := ks - {k0};
      NewestExists(orders, rest);
      var k1 :| IsNewest(orders, rest, k1);
      if orders[k0].createdAt <= orders[k1].createdAt {
        assert IsNewest(orders, ks, k1);
      } else {
        assert IsNewest(orders, ks, k0);
      }
    }
  }

  /**
   * The keys `ks`, each once, ordered by `createdAt` descending
   * (`order: { created_at: 'DESC' }`). Rows created at the same instant may
   * come in any order, as they may from the database.
   */
  ghost function NewestFirst(orders: map<int, Order>, ks: set<int>): (r: seq<int>)
    requires ks <= orders.Keys
    ensures |r| == |ks|
    ensures forall i :: 0 <= i < |r| ==> r[i] in ks
    ensures forall k :: k in ks ==> k in r
    ensures forall i, j :: 0 <= i < j < |r| ==> r[i] != r[j]
    ensures forall i, j :: 0 <= i < j < |r| ==> orders[r[i]].createdAt >= orders[r[j]].createdAt
    decreases ks
  {
    if ks == {} then []
    else
      NewestExists(orders, ks);
      var k :| IsNewest(orders, ks, k);
      [k] + NewestFirst(orders, ks - {k})
  }

  /**
   * `getUserOrders(userId)`: exactly the stored rows owned by `userId`, each
   * once, newest first; empty when the user owns nothing.
   */
  ghost function UserOrders(orders: map<int, Order>, userId: int): (r: seq<Order>)
    requires KeyedById(orders)
    ensures forall i :: 0 <= i < |r| ==>
      r[i].ownerId == userId && r[i].id in orders && orders[r[i].id] == r[i]
    ensures forall k :: k in orders && orders[k].ownerId == userId ==> orders[k] in r
    ensures forall i, j :: 0 <= i < j < |r| ==> r[i].id != r[j].id
    ensures forall i, j :: 0 <= i < j < |r| ==> r[i].createdAt >= r[j].createdAt
    ensures |r| == |OwnedKeys(orders, userId)|
    ensures r == [] <==> forall k :: k in orders ==> orders[k].ownerId != userId
  {
    var ks := NewestFirst(orders, OwnedKeys(orders, userId));
    var r := Rows(orders, ks);
    OwnedRowsListed(orders, userId, ks, r);
    r
  }

  /** The rows stored under `ks`, in that order. */
  function Rows(orders: map<int, Order>, ks: seq<int>): (r: seq<Order>)
    requires forall i :: 0 <= i < |ks| ==> ks[i] in orders
    ensures |r| == |ks|
    ensures forall i :: 0 <= i < |ks| ==> r[i] == orders[ks[i]]
  {
    seq(|ks|, i requires 0 <= i < |ks| => orders[ks[i]])
  }

  lemma OwnedRowsListed(orders: map<int, Order>, userId: int, ks: seq<int>, r: seq<Order>)
    requires forall i :: 0 <= i < |ks| ==> ks[i] in orders
    requires forall k :: k in OwnedKeys(orders, userId) ==> k in ks
    requires |r| == |ks| && forall i :: 0 <= i < |ks| ==> r[i] == orders[ks[i]]
    ensures forall k :: k in orders && orders[k].ownerId == userId ==> orders[k] in r
    ensures (forall k :: k in orders ==> orders[k].ownerId != userId) <==> OwnedKeys(orders, userId) == {}
  {
    forall k | k in orders && orders[k].ownerId == userId
      ensures orders[k] in r
    {
      assert k in OwnedKeys(orders, userId);
      var i :| 0 <= i < |ks| && ks[i] == k;
      assert r[i] == orders[k];
    }
    if OwnedKeys(orders, userId) == {} {
      forall k | k in orders ensures orders[k].ownerId != userId {
        assert k !in OwnedKeys(orders, userId);
      }
    } else {
      if forall k :: k !in OwnedKeys(orders, userId) {
        assert false;
      }
      var k :| k in OwnedKeys(orders, userId);
      assert k in orders && orders[k].ownerId == userId;
    }
  }

  // ---------------------------------------------------------------------
  // updateOrderStatus: fetch, overwrite the status, save.

  /** What `updateOrderStatus` answers, with the repository it leaves behind. */
  datatype Saved = Saved(outcome: Outcome<Order>, orders: map<int, Order>)

  /**
   * The specification of `updateOrderStatus`. The row is saved under its own
   * primary key, as `save` does. There is no transition graph: any status
   * replaces any other.
   */
  function StatusUpdate(orders: map<int, Order>, orderId: int, status: OrderStatus): (s: Saved)
    requires KeyedById(orders)
    ensures KeyedById(s.orders)
    ensures s.orders.Keys == orders.Keys
    ensures s.outcome == FindOrder(s.orders, orderId)
  {
    if orderId !in orders then Saved(Err(NotFound(OrderNotFound)), orders)
    else
      var order := orders[orderId].(status := status);
      Saved(Ok(order), orders[order.id := order])
  }

  /** An absent id is NotFound and nothing is saved. */
  lemma UpdateOfMissingOrderSavesNothing(orders: map<int, Order>, orderId: int, status: OrderStatus)
    requires KeyedById(orders)
    requires orderId !in orders
    ensures StatusUpdate(orders, orderId, status) == Saved(Err(NotFound(OrderNotFound)), orders)
  {
  }

  /**
   * On success the saved row is the stored row with only its status replaced,
   * whatever the status was before; every other row is untouched; and the
   * answer is the row as saved.
   */
  lemma UpdateReplacesOnlyStatus(orders: map<int, Order>, orderId: int, status: OrderStatus)
    requires KeyedById(orders)
    requires orderId in orders
    ensures var s := StatusUpdate(orders, orderId, status);
      && s.outcome == Ok(orders[orderId].(status := status))
      && s.orders[orderId] == s.outcome.value
      && s.orders[orderId].status == status
      && forall k :: k in orders && k != orderId ==> s.orders[k] == orders[k]
  {
  }

  /** A status update never moves an order between owners. */
  lemma UpdateKeepsOwnership(orders: map<int, Order>, orderId: int, status: OrderStatus, userId: int)
    requires KeyedById(orders)
    ensures OwnedKeys(StatusUpdate(orders, orderId, status).orders, userId) == OwnedKeys(orders, userId)
  {
  }

  /** Setting the same status twice is the same as setting it once. */
  lemma UpdateIsIdempotent(orders: map<int, Order>, orderId: int, status: OrderStatus)
    requires KeyedById(orders)
    ensures var once := StatusUpdate(orders, orderId, status);
      StatusUpdate(once.orders, orderId, status) == once
  {
  }

  /** The order service over its repository. */
  class OrdersService {
    var orders: map<int, Order>

    ghost predicate Valid()
      reads this
    {
      KeyedById(orders)
    }

    constructor (rows: map<int, Order>)
      requires KeyedById(rows)
      ensures Valid() && orders == rows
    {
      orders := rows;
    }

    /** Fetches the row, overwrites its status in place and saves it back. */
    method UpdateOrderStatus(orderId: int, status: OrderStatus) returns (r: Outcome<Order>)
      requires Valid()
      modifies this
      ensures Valid()
      ensures Saved(r, orders) == StatusUpdate(old(orders), orderId, status)
    {
      if orderId !in orders {
        return Err(NotFound(OrderNotFound));
      }
      var order := orders[orderId];
      order := order.(status := status);
      orders := orders[order.id := order];
      r := Ok(order);
    }
  }
}
