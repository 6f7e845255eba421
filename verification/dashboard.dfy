/** The admin dashboard's figures: the row counts (0 when missing), the revenue summed over
    every order, and the number of pending orders. */
module Dashboard {
  import opened Tables
  import Checkout
  import AdminOrders

  /** `count || 0`: a missing count shows as 0. */
  function CountOrZero(count: Option<int>): (n: int)
    ensures count.None? ==> n == 0
    ensures count.Some? ==> n == count.value
  {
    if count.Some? then count.value else 0
  }

  /** `totalRevenue`: the sum of `total_amount` over all orders, whatever their status. */
  function TotalRevenue(orders: seq<Order>): int
  {
    if |orders| == 0 then 0 else orders[0].totalAmount + TotalRevenue(orders[1..])
  }

  /** The figure adds up over a split of the table. */
  lemma {:induction false} RevenueConcat(a: seq<Order>, b: seq<Order>)
    ensures TotalRevenue(a + b) == TotalRevenue(a) + TotalRevenue(b)
  {
    if |a| == 0 {
      assert a + b == b;
    } else {
      assert (a + b)[1..] == a[1..] + b;
      RevenueConcat(a[1..], b);
    }
  }

  /** Tables whose rows carry the same amounts position by position have the same revenue. */
  lemma {:induction false} RevenuePointwise(a: seq<Order>, b: seq<Order>)
    requires |a| == |b| && forall i :: 0 <= i < |a| ==> a[i].totalAmount == b[i].totalAmount
    ensures TotalRevenue(a) == TotalRevenue(b)
  {
    if |a| > 0 {
      assert forall i :: 0 <= i < |a[1..]| ==> a[1..][i].totalAmount == b[1..][i].totalAmount by {
        forall i | 0 <= i < |a[1..]| ensures a[1..][i].totalAmount == b[1..][i].totalAmount {
          assert a[1..][i] == a[i + 1] && b[1..][i] == b[i + 1];
        }
      }
      RevenuePointwise(a[1..], b[1..]);
    }
  }

  /** With non-negative amounts the revenue is non-negative; with no orders it is 0. */
  lemma {:induction false} RevenueNonNegative(orders: seq<Order>)
    requires forall i :: 0 <= i < |orders| ==> orders[i].totalAmount >= 0
    ensures TotalRevenue(orders) >= 0
    ensures |orders| == 0 ==> TotalRevenue(orders) == 0
  {
    if |orders| > 0 {
      assert forall i :: 0 <= i < |orders[1..]| ==> orders[1..][i].totalAmount >= 0 by {
        forall i | 0 <= i < |orders[1..]| ensures orders[1..][i].totalAmount >= 0 {
          assert orders[1..][i] == orders[i + 1];
        }
      }
      RevenueNonNegative(orders[1..]);
    }
  }

  /** The number of orders with the given status. */
  function CountStatus(orders: seq<Order>, s: OrderStatus): (c: nat)
    ensures c <= |orders|
  {
    if |orders| == 0 then 0 else (if orders[0].status == s then 1 else 0) + CountStatus(orders[1..], s)
  }

  /** `pendingOrders`: the orders whose status is `pending`, never more than all orders. */
  function PendingOrders(orders: seq<Order>): (n: nat)
    ensures n <= |orders|
    ensures n == CountStatus(orders, Pending)
  {
    CountStatus(orders, Pending)
  }

  /** The five status tallies partition the orders. */
  lemma {:induction false} StatusTalliesSumToTotal(orders: seq<Order>)
    ensures CountStatus(orders, Pending) + CountStatus(orders, Processing) + CountStatus(orders, Shipped)
          + CountStatus(orders, Delivered) + CountStatus(orders, Cancelled) == |orders|
  {
    if |orders| > 0 {
      StatusTalliesSumToTotal(orders[1..]);
    }
  }

  /** The dashboard's figures. */
  datatype Stats = Stats(totalProducts: int, totalOrders: int, totalReviews: int, revenue: int, pending: nat)

  /** The page: counts from the three queries, revenue and pending over the order rows (none
      when the order query returns no data). */
  function DashboardStats(productCount: Option<int>, orderCount: Option<int>, reviewCount: Option<int>,
                          orders: seq<Order>, ordersOk: bool): (r: Stats)
    ensures r.totalProducts == CountOrZero(productCount)
    ensures r.totalOrders == CountOrZero(orderCount)
    ensures r.totalReviews == CountOrZero(reviewCount)
    ensures !ordersOk ==> r.revenue == 0 && r.pending == 0
    ensures ordersOk ==> r.revenue == TotalRevenue(orders) && r.pending == PendingOrders(orders)
  {
    var rows := if ordersOk then orders else [];
    Stats(CountOrZero(productCount), CountOrZero(orderCount), CountOrZero(reviewCount), TotalRevenue(rows), PendingOrders(rows))
  }

  /** A checkout that got past the order insert raises the revenue by the cart's total and
      the pending count by one, even when the items insert then fails: the order row is not
      rolled back. A checkout stopped by the pre-check or the order insert leaves the orders,
      and so both figures, as they were. */
  lemma CheckoutAddsToRevenue(store: Store, cart: seq<Checkout.CartLine>, cartTotal: int, form: Checkout.CustomerForm,
                              session: Option<User>, newOrderId: Id, backend: Checkout.Backend)
    ensures var r := Checkout.HandleSubmit(store, cart, cartTotal, form, session, newOrderId, backend);
            r.outcome.Placed? || r.outcome == Checkout.Failed(Checkout.ItemsInsertFailed) ==>
              && TotalRevenue(r.store.orders) == TotalRevenue(store.orders) + cartTotal
              && PendingOrders(r.store.orders) == PendingOrders(store.orders) + 1
    ensures var r := Checkout.HandleSubmit(store, cart, cartTotal, form, session, newOrderId, backend);
            r.outcome.Failed? && r.outcome != Checkout.Failed(Checkout.ItemsInsertFailed) ==>
              r.store.orders == store.orders
  {
    var r := Checkout.HandleSubmit(store, cart, cartTotal, form, session, newOrderId, backend);
    if r.outcome.Placed? || r.outcome == Checkout.Failed(Checkout.ItemsInsertFailed) {
      var n := |store.orders|;
      var o := r.store.orders[n];
      assert r.store.orders == store.orders + [o] by {
        assert r.store.orders == r.store.orders[..n] + [o];
      }
      assert o.totalAmount == cartTotal && o.status == Pending;
      RevenueConcat(store.orders, [o]);
      CountStatusConcat(store.orders, [o], Pending);
    }
  }

  lemma {:induction false} CountStatusConcat(a: seq<Order>, b: seq<Order>, s: OrderStatus)
    ensures CountStatus(a + b, s) == CountStatus(a, s) + CountStatus(b, s)
  {
    if |a| == 0 {
      assert a + b == b;
    } else {
      assert (a + b)[1..] == a[1..] + b;
      CountStatusConcat(a[1..], b, s);
    }
  }

  /** A status change, cancellation included, leaves the revenue as it was: cancelled orders
      still count. */
  lemma StatusChangeKeepsRevenue(orders: seq<Order>, orderId: Id, s: OrderStatus)
    ensures TotalRevenue(AdminOrders.SetStatus(orders, orderId, s)) == TotalRevenue(orders)
  {
    RevenuePointwise(AdminOrders.SetStatus(orders, orderId, s), orders);
  }
}
