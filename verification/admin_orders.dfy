/** The admin order status update: moving an order into `cancelled` first adds every item's
    quantity back to its product's stock, one read-then-write per item; then the status is
    written. Every one of the five statuses can be written from every status. */
module AdminOrders {
  import opened Tables

  /** What the backend will answer: whether the order's items can be fetched, whether the
      status write succeeds, and the positions in the fetched item list whose product re-read
      or stock write fails. Those failures are not checked by the handler: the item is simply
      not restored. */
  datatype Backend = Backend(itemsFetchOk: bool, statusWriteOk: bool, restoreSkipped: set<int>)

  /** The tables after the handler, the detail panel's selected order, and whether the
      status write succeeded (the alert shown). */
  datatype StatusResult = StatusResult(store: Store, selected: Option<Order>, written: bool)

  /** The total quantity the items hold of product `p`. */
  function QuantityOf(items: seq<OrderItem>, p: Id): int
  {
    if |items| == 0 then 0
    else (if items[0].productId == p then items[0].quantity else 0) + QuantityOf(items[1..], p)
  }

  /** The quantity of product `p` held by the items at positions `k` onwards, leaving out the
      positions in `skipped`. */
  function RestoredFrom(items: seq<OrderItem>, p: Id, skipped: set<int>, k: nat): int
    decreases |items| - k
  {
    if k >= |items| then 0
    else (if items[k].productId == p && k !in skipped then items[k].quantity else 0) + RestoredFrom(items, p, skipped, k + 1)
  }

  /** The restoration loop from position `k`: each item re-reads its product's current stock
      and writes it back increased by the item's quantity. An item whose product row is
      missing, or whose re-read or write fails, is skipped without stopping the others. */
  function RestoreFrom(items: seq<OrderItem>, stock: map<Id, int>, skipped: set<int>, k: nat): (r: map<Id, int>)
    ensures r.Keys == stock.Keys
    ensures forall p :: p in stock ==> r[p] == stock[p] + RestoredFrom(items, p, skipped, k)
    decreases |items| - k
  {
    if k >= |items| then stock
    else
      var it := items[k];
      var next := if it.productId in stock && k !in skipped then stock[it.productId := stock[it.productId] + it.quantity] else stock;
      RestoreFrom(items, next, skipped, k + 1)
  }

  /** With no item skipped, the restored quantity of a product is its total over the items. */
  lemma {:induction false} RestoredUnskipped(items: seq<OrderItem>, p: Id, k: nat)
    requires k <= |items|
    ensures RestoredFrom(items, p, {}, k) == QuantityOf(items[k..], p)
    decreases |items| - k
  {
    if k < |items| {
      assert items[k..][1..] == items[k + 1..];
      RestoredUnskipped(items, p, k + 1);
    }
  }

  /** A product all of whose lines from position `k` on are skipped gets nothing back. */
  lemma {:induction false} RestoredAllSkipped(items: seq<OrderItem>, p: Id, skipped: set<int>, k: nat)
    requires forall i :: k <= i < |items| && items[i].productId == p ==> i in skipped
    ensures RestoredFrom(items, p, skipped, k) == 0
    decreases |items| - k
  {
    if k < |items| {
      RestoredAllSkipped(items, p, skipped, k + 1);
    }
  }

  /** With non-negative quantities, skipping lines restores between nothing and the total. */
  lemma {:induction false} RestoredWithinTotal(items: seq<OrderItem>, p: Id, skipped: set<int>, k: nat)
    requires k <= |items|
    requires forall i :: 0 <= i < |items| ==> items[i].quantity >= 0
    ensures 0 <= RestoredFrom(items, p, skipped, k) <= QuantityOf(items[k..], p)
    decreases |items| - k
  {
    if k < |items| {
      assert items[k..][1..] == items[k + 1..];
      RestoredWithinTotal(items, p, skipped, k + 1);
    }
  }

  /** The restoration loop over the fetched items. Each existing product gains the quantity
      of its lines that are not skipped: lines of the same product restore cumulatively,
      unreferenced products are unchanged, and with no failure the gain is the product's
      whole quantity in the order. */
  function Restore(items: seq<OrderItem>, stock: map<Id, int>, skipped: set<int>): (r: map<Id, int>)
    ensures r.Keys == stock.Keys
    ensures forall p :: p in stock ==> r[p] == stock[p] + RestoredFrom(items, p, skipped, 0)
    ensures skipped == {} ==> forall p :: p in stock ==> r[p] == stock[p] + QuantityOf(items, p)
    ensures forall p :: p in stock && (forall i :: 0 <= i < |items| && items[i].productId == p ==> i in skipped) ==>
      r[p] == stock[p]
  {
    forall p | p in stock
      ensures skipped == {} ==> RestoredFrom(items, p, skipped, 0) == QuantityOf(items, p)
      ensures (forall i :: 0 <= i < |items| && items[i].productId == p ==> i in skipped) ==>
        RestoredFrom(items, p, skipped, 0) == 0
    {
      assert items[0..] == items;
      if skipped == {} {
        RestoredUnskipped(items, p, 0);
      }
      if forall i :: 0 <= i < |items| && items[i].productId == p ==> i in skipped {
        RestoredAllSkipped(items, p, skipped, 0);
      }
    }
    RestoreFrom(items, stock, skipped, 0)
  }

  /** A product the items never name holds none of their quantity. */
  lemma {:induction false} QuantityOfUnreferenced(items: seq<OrderItem>, p: Id)
    requires forall i :: 0 <= i < |items| ==> items[i].productId != p
    ensures QuantityOf(items, p) == 0
  {
    if |items| > 0 {
      QuantityOfUnreferenced(items[1..], p);
    }
  }

  /** Writing `s` to every order row with id `orderId`; the other rows are untouched. */
  function SetStatus(orders: seq<Order>, orderId: Id, s: OrderStatus): (r: seq<Order>)
    ensures |r| == |orders|
    ensures forall i :: 0 <= i < |orders| ==>
      r[i] == (if orders[i].id == orderId then orders[i].(status := s) else orders[i])
  {
    if |orders| == 0 then []
    else [if orders[0].id == orderId then orders[0].(status := s) else orders[0]] + SetStatus(orders[1..], orderId, s)
  }

  /** Whether this call restores stock: the new status is `cancelled` and the selected order
      is not already `cancelled` (no selected order counts as not cancelled). */
  predicate RestoresStock(selected: Option<Order>, newStatus: OrderStatus)
  {
    newStatus == Cancelled && !(selected.Some? && selected.value.status == Cancelled)
  }

  /** The status update handler. */
  function HandleStatusUpdate(
    store: Store, selected: Option<Order>, orderId: Id, newStatus: OrderStatus, backend: Backend): (r: StatusResult)
    // no transition is forbidden: a successful write sets every row with that id to the new status
    ensures r.written <==> backend.statusWriteOk
    ensures |r.store.orders| == |store.orders|
    ensures r.written ==> forall i :: 0 <= i < |store.orders| && store.orders[i].id == orderId ==>
      r.store.orders[i] == store.orders[i].(status := newStatus)
    ensures forall i :: 0 <= i < |store.orders| && store.orders[i].id != orderId ==>
      r.store.orders[i] == store.orders[i]
    ensures !r.written ==> r.store.orders == store.orders && r.selected == selected
    // restoration on cancel: each product gains the quantity of the order's lines not skipped
    ensures r.store.stock.Keys == store.stock.Keys
    ensures RestoresStock(selected, newStatus) && backend.itemsFetchOk ==>
      forall p :: p in store.stock ==>
        r.store.stock[p] == store.stock[p] + RestoredFrom(ItemsOf(store.orderItems, orderId), p, backend.restoreSkipped, 0)
    // with no per-item failure, each product gains exactly the quantity the order holds of it
    ensures RestoresStock(selected, newStatus) && backend.itemsFetchOk && backend.restoreSkipped == {} ==>
      forall p :: p in store.stock ==>
        r.store.stock[p] == store.stock[p] + QuantityOf(ItemsOf(store.orderItems, orderId), p)
    // any other transition, or a failed item fetch, changes no stock
    ensures !RestoresStock(selected, newStatus) || !backend.itemsFetchOk ==> r.store.stock == store.stock
    // the detail panel follows a successful write to the selected order
    ensures r.written && selected.Some? && selected.value.id == orderId ==>
      r.selected == Some(selected.value.(status := newStatus))
    ensures r.written && !(selected.Some? && selected.value.id == orderId) ==> r.selected == selected
    ensures r.store.orderItems == store.orderItems && r.store.reviews == store.reviews
  {
    var stock :=
      if RestoresStock(selected, newStatus) && backend.itemsFetchOk
      then Restore(ItemsOf(store.orderItems, orderId), store.stock, backend.restoreSkipped)
      else store.stock;
    if !backend.statusWriteOk then
      // the restoration already happened and is not undone
      StatusResult(store.(stock := stock), selected, false)
    else
      var sel := if selected.Some? && selected.value.id == orderId then Some(selected.value.(status := newStatus)) else selected;
      StatusResult(store.(stock := stock, orders := SetStatus(store.orders, orderId, newStatus)), sel, true)
  }

  /** Stock restoration runs before the status write and is not undone when the write fails:
      the resulting stock does not depend on the write's outcome. */
  lemma RestorationNotUndone(store: Store, selected: Option<Order>, orderId: Id, newStatus: OrderStatus,
                             fetchOk: bool, skipped: set<int>)
    ensures HandleStatusUpdate(store, selected, orderId, newStatus, Backend(fetchOk, false, skipped)).store.stock
         == HandleStatusUpdate(store, selected, orderId, newStatus, Backend(fetchOk, true, skipped)).store.stock
  {
  }

  /** Products the order does not reference keep their stock, even on cancellation. */
  lemma CancelFramesUnreferenced(store: Store, selected: Option<Order>, orderId: Id, backend: Backend, p: Id)
    requires p in store.stock
    requires forall it :: it in store.orderItems && it.orderId == orderId ==> it.productId != p
    ensures HandleStatusUpdate(store, selected, orderId, Cancelled, backend).store.stock[p] == store.stock[p]
  {
    var items := ItemsOf(store.orderItems, orderId);
    assert forall i :: 0 <= i < |items| ==> items[i] in items;
    RestoredAllSkipped(items, p, backend.restoreSkipped, 0);
  }

  /** With non-negative quantities, a cancellation whose per-item steps partly fail leaves
      every product between its old stock and its fully restored stock. */
  lemma PartialRestoreBounded(store: Store, selected: Option<Order>, orderId: Id, backend: Backend, p: Id)
    requires p in store.stock
    requires forall it :: it in store.orderItems ==> it.quantity >= 0
    ensures var items := ItemsOf(store.orderItems, orderId);
            var s := HandleStatusUpdate(store, selected, orderId, Cancelled, backend).store.stock[p];
            store.stock[p] <= s <= store.stock[p] + QuantityOf(items, p)
  {
    var items := ItemsOf(store.orderItems, orderId);
    assert forall i :: 0 <= i < |items| ==> items[i] in items;
    RestoredWithinTotal(items, p, backend.restoreSkipped, 0);
    assert items[0..] == items;
  }

  /** Cancelling an order that is already cancelled restores nothing. */
  lemma CancelledToCancelledKeepsStock(store: Store, order: Order, backend: Backend)
    requires order.status == Cancelled
    ensures HandleStatusUpdate(store, Some(order), order.id, Cancelled, backend).store.stock == store.stock
  {
  }

  /** Two lines of one product in the order restore both quantities; when the second line's
      write fails, only the first is restored. */
  lemma ExampleCumulativeRestore()
    ensures var items := [OrderItem("o", "p", 2, 100), OrderItem("o", "p", 3, 100)];
            var store := Store(map["p" := 1], [], items, []);
            && HandleStatusUpdate(store, None, "o", Cancelled, Backend(true, true, {})).store.stock["p"] == 6
            && HandleStatusUpdate(store, None, "o", Cancelled, Backend(true, true, {1})).store.stock["p"] == 3
  {
    var items := [OrderItem("o", "p", 2, 100), OrderItem("o", "p", 3, 100)];
    ItemsOfAll(items, "o");
    assert RestoredFrom(items, "p", {}, 0) == 5;
    assert RestoredFrom(items, "p", {1}, 0) == 2;
  }
}
