/** The checkout submit handler: an all-or-nothing stock pre-check, then the order row,
    then one `order_items` row per cart line, then a per-line stock decrement floored at
    zero, then clearing the cart. The cart and its total are inputs. */
module Checkout {
  import opened Tables

  /** One line of the cart store. */
  datatype CartLine = CartLine(id: Id, name: string, price: int, quantity: int)

  /** The contact and shipping fields of the checkout form. */
  datatype CustomerForm = CustomerForm(name: string, email: string, phone: string, address: string)

  /** Why a submission stopped; each is shown to the customer in an alert. */
  datatype CheckoutError =
    | ProductNotFound(name: string)
    | InsufficientStock(productId: Id, available: int)
    | OrderInsertFailed
    | ItemsInsertFailed

  /** What the backend will answer: whether the two inserts succeed, and the products whose
      stock re-read or stock write fails during the decrement (these are only logged). */
  datatype Backend = Backend(orderInsertOk: bool, itemsInsertOk: bool, stockWriteFails: set<Id>)

  datatype Outcome = Placed(orderId: Id) | Failed(error: CheckoutError)

  datatype CheckoutResult = CheckoutResult(store: Store, cart: seq<CartLine>, outcome: Outcome)

  function Max(a: int, b: int): int { if a >= b then a else b }

  /** A line passes the pre-check when its product row exists and has enough stock. */
  predicate LineOk(line: CartLine, stock: map<Id, int>)
  {
    line.id in stock && line.quantity <= stock[line.id]
  }

  /** The alert raised for a line that fails the pre-check. */
  function LineError(line: CartLine, stock: map<Id, int>): CheckoutError
  {
    if line.id !in stock then ProductNotFound(line.name)
    else InsufficientStock(line.id, stock[line.id])
  }

  /** The stock pre-check over the lines in cart order: no error iff every line passes;
      otherwise the error names the first line that fails. */
  function PreCheck(lines: seq<CartLine>, stock: map<Id, int>): (r: Option<CheckoutError>)
    ensures r.None? <==> forall i :: 0 <= i < |lines| ==> LineOk(lines[i], stock)
    ensures r.Some? ==>
      exists k :: 0 <= k < |lines| && !LineOk(lines[k], stock) && r.value == LineError(lines[k], stock)
        && forall j :: 0 <= j < k ==> LineOk(lines[j], stock)
  {
    if |lines| == 0 then None
    else if !LineOk(lines[0], stock) then Some(LineError(lines[0], stock))
    else
      var rest := PreCheck(lines[1..], stock);
      if rest.Some? then
        assert forall j :: 1 <= j < |lines| ==> lines[j] == lines[1..][j - 1];
        rest
      else
        assert forall i :: 1 <= i < |lines| ==> lines[i] == lines[1..][i - 1];
        rest
  }

  /** The product ids of the cart. */
  function CartIds(lines: seq<CartLine>): (ids: set<Id>)
    ensures forall p :: p in ids <==> exists i :: 0 <= i < |lines| && lines[i].id == p
  {
    if |lines| == 0 then {}
    else
      var rest := CartIds(lines[1..]);
      assert forall i :: 1 <= i < |lines| ==> lines[i] == lines[1..][i - 1];
      {lines[0].id} + rest
  }

  /** No two cart lines share a product id (the cart store keeps one line per product). */
  predicate DistinctIds(lines: seq<CartLine>)
  {
    forall i, j :: 0 <= i < j < |lines| ==> lines[i].id != lines[j].id
  }

  /** The order_items rows built from the cart for order `orderId`, one per line. */
  function LineItems(orderId: Id, lines: seq<CartLine>): (r: seq<OrderItem>)
    ensures |r| == |lines|
    ensures forall i :: 0 <= i < |lines| ==>
      r[i].orderId == orderId && r[i].productId == lines[i].id
      && r[i].quantity == lines[i].quantity && r[i].price == lines[i].price
  {
    if |lines| == 0 then []
    else [OrderItem(orderId, lines[0].id, lines[0].quantity, lines[0].price)] + LineItems(orderId, lines[1..])
  }

  /** The stock decrement loop: each line in turn re-reads its product's current stock and
      writes max(0, stock - quantity); a product whose re-read or write fails is skipped.
      The table keeps its products, and a stock either stays as it was or ends up non-negative
      on a cart product. */
  function Decrement(lines: seq<CartLine>, stock: map<Id, int>, fails: set<Id>): (r: map<Id, int>)
    ensures r.Keys == stock.Keys
    ensures forall p :: p in r ==> r[p] == stock[p] || (r[p] >= 0 && p in CartIds(lines) && p !in fails)
  {
    if |lines| == 0 then stock
    else
      var l := lines[0];
      var next := if l.id in stock && l.id !in fails then stock[l.id := Max(0, stock[l.id] - l.quantity)] else stock;
      Decrement(lines[1..], next, fails)
  }

  /** The order row the submission inserts. */
  function NewOrder(orderId: Id, form: CustomerForm, cartTotal: int, session: Option<User>): Order
  {
    Order(orderId, form.name, form.email, form.phone, form.address, cartTotal, Pending, SignedInId(session))
  }

  /** The submit handler. `newOrderId` is the id the backend assigns to the inserted order. */
  function HandleSubmit(
    store: Store, cart: seq<CartLine>, cartTotal: int, form: CustomerForm,
    session: Option<User>, newOrderId: Id, backend: Backend): (r: CheckoutResult)
    // a failing pre-check aborts before any write
    ensures PreCheck(cart, store.stock).Some? ==>
      r == CheckoutResult(store, cart, Failed(PreCheck(cart, store.stock).value))
    // success iff the pre-check and both inserts succeed
    ensures r.outcome.Placed? <==>
      PreCheck(cart, store.stock).None? && backend.orderInsertOk && backend.itemsInsertOk
    // the cart is cleared exactly on the success path
    ensures r.outcome.Failed? ==> r.cart == cart
    ensures r.outcome.Placed? ==> r.cart == [] && r.outcome.orderId == newOrderId
    // the order row: pending, the cart's total, the signed-in id or null
    ensures r.outcome.Placed? ==>
      && |r.store.orders| == |store.orders| + 1
      && r.store.orders[..|store.orders|] == store.orders
      && var o := r.store.orders[|store.orders|];
         o.id == newOrderId && o.status == Pending && o.totalAmount == cartTotal
         && o.userId == SignedInId(session)
         && o.customerName == form.name && o.customerEmail == form.email
         && o.customerPhone == form.phone && o.shippingAddress == form.address
    // one order item per cart line
    ensures r.outcome.Placed? ==>
      && |r.store.orderItems| == |store.orderItems| + |cart|
      && r.store.orderItems[..|store.orderItems|] == store.orderItems
      && forall i :: 0 <= i < |cart| ==>
           var it := r.store.orderItems[|store.orderItems| + i];
           it.orderId == newOrderId && it.productId == cart[i].id
           && it.quantity == cart[i].quantity && it.price == cart[i].price
    // no product disappears, products outside the cart keep their stock, nothing goes negative
    ensures r.store.stock.Keys == store.stock.Keys
    ensures forall p :: p in store.stock && p !in CartIds(cart) ==> r.store.stock[p] == store.stock[p]
    ensures NonNegativeStock(store.stock) ==> NonNegativeStock(r.store.stock)
    // on success the stock is the decrement loop's result over the cart
    ensures r.outcome.Placed? ==> r.store.stock == Decrement(cart, store.stock, backend.stockWriteFails)
    // stock changes only on the success path
    ensures r.outcome.Failed? ==> r.store.stock == store.stock && r.store.orderItems == store.orderItems
    // a failed order insert leaves every table as it was
    ensures r.outcome == Failed(OrderInsertFailed) ==> r.store == store
    // a failed items insert keeps the inserted order row: nothing is rolled back
    ensures r.outcome == Failed(ItemsInsertFailed) ==>
      r.store == store.(orders := store.orders + [NewOrder(newOrderId, form, cartTotal, session)])
    // reviews are not touched
    ensures r.store.reviews == store.reviews
  {
    match PreCheck(cart, store.stock)
    case Some(e) => CheckoutResult(store, cart, Failed(e))
    case None =>
      if !backend.orderInsertOk then CheckoutResult(store, cart, Failed(OrderInsertFailed))
      else
        var withOrder := store.(orders := store.orders + [NewOrder(newOrderId, form, cartTotal, session)]);
        assert withOrder.orders[..|store.orders|] == store.orders;
        if !backend.itemsInsertOk then
          // the order row stays: nothing is rolled back
          CheckoutResult(withOrder, cart, Failed(ItemsInsertFailed))
        else
          var items := LineItems(newOrderId, cart);
          assert (store.orders + [NewOrder(newOrderId, form, cartTotal, session)])[..|store.orders|] == store.orders;
          assert (store.orderItems + items)[..|store.orderItems|] == store.orderItems;
          var placed := withOrder.(
            orderItems := store.orderItems + items,
            stock := Decrement(cart, store.stock, backend.stockWriteFails));
          CheckoutResult(placed, [], Placed(newOrderId))
  }

  /** With distinct cart ids, each cart product whose write succeeds ends at max(0, stock - quantity). */
  lemma {:induction false} DecrementDistinct(lines: seq<CartLine>, stock: map<Id, int>, fails: set<Id>)
    requires DistinctIds(lines)
    ensures forall i :: 0 <= i < |lines| && lines[i].id in stock && lines[i].id !in fails ==>
      Decrement(lines, stock, fails)[lines[i].id] == Max(0, stock[lines[i].id] - lines[i].quantity)
    ensures forall i :: 0 <= i < |lines| && lines[i].id in stock && lines[i].id in fails ==>
      Decrement(lines, stock, fails)[lines[i].id] == stock[lines[i].id]
  {
    if |lines| > 0 {
      var l := lines[0];
      var next := if l.id in stock && l.id !in fails then stock[l.id := Max(0, stock[l.id] - l.quantity)] else stock;
      var tail := lines[1..];
      assert DistinctIds(tail);
      DecrementDistinct(tail, next, fails);
      assert Decrement(lines, stock, fails) == Decrement(tail, next, fails);
      if l.id in stock {
        DecrementSkips(tail, next, fails, l.id);
      }
      forall i | 1 <= i < |lines|
        ensures lines[i] == tail[i - 1] && lines[i].id != l.id
      {
      }
    }
  }

  /** A product that no remaining line names keeps the stock it has. */
  lemma {:induction false} DecrementSkips(lines: seq<CartLine>, stock: map<Id, int>, fails: set<Id>, p: Id)
    requires forall i :: 0 <= i < |lines| ==> lines[i].id != p
    requires p in stock
    ensures Decrement(lines, stock, fails)[p] == stock[p]
  {
    if |lines| > 0 {
      var l := lines[0];
      var next := if l.id in stock && l.id !in fails then stock[l.id := Max(0, stock[l.id] - l.quantity)] else stock;
      DecrementSkips(lines[1..], next, fails, p);
    }
  }

  /** Run sequentially with distinct ids, a passed pre-check makes the decrement exact:
      every cart product whose write succeeds ends at exactly stock - quantity. */
  lemma PassedPreCheckIsExact(lines: seq<CartLine>, stock: map<Id, int>, fails: set<Id>)
    requires DistinctIds(lines)
    requires PreCheck(lines, stock).None?
    ensures forall i :: 0 <= i < |lines| && lines[i].id !in fails ==>
      Decrement(lines, stock, fails)[lines[i].id] == stock[lines[i].id] - lines[i].quantity
  {
    DecrementDistinct(lines, stock, fails);
    forall i | 0 <= i < |lines| && lines[i].id !in fails
      ensures Decrement(lines, stock, fails)[lines[i].id] == stock[lines[i].id] - lines[i].quantity
    {
      assert LineOk(lines[i], stock);
    }
  }

  /** A placed order with one line per product leaves each cart product whose write succeeds
      at exactly its stock minus the line's quantity, and each product whose write fails at its
      old stock. */
  lemma PlacedStockIsExact(
    store: Store, cart: seq<CartLine>, cartTotal: int, form: CustomerForm,
    session: Option<User>, newOrderId: Id, backend: Backend)
    requires DistinctIds(cart)
    ensures var r := HandleSubmit(store, cart, cartTotal, form, session, newOrderId, backend);
            r.outcome.Placed? ==>
              && (forall i :: 0 <= i < |cart| && cart[i].id !in backend.stockWriteFails ==>
                    r.store.stock[cart[i].id] == store.stock[cart[i].id] - cart[i].quantity)
              && (forall i :: 0 <= i < |cart| && cart[i].id in backend.stockWriteFails ==>
                    r.store.stock[cart[i].id] == store.stock[cart[i].id])
  {
    var r := HandleSubmit(store, cart, cartTotal, form, session, newOrderId, backend);
    if r.outcome.Placed? {
      PassedPreCheckIsExact(cart, store.stock, backend.stockWriteFails);
      DecrementDistinct(cart, store.stock, backend.stockWriteFails);
      assert forall i :: 0 <= i < |cart| ==> LineOk(cart[i], store.stock);
    }
  }

  /** A failed stock write is only logged: the outcome and the cart do not depend on which
      stock writes fail. */
  lemma StockWriteFailureOnlyLogged(
    store: Store, cart: seq<CartLine>, cartTotal: int, form: CustomerForm,
    session: Option<User>, newOrderId: Id, orderOk: bool, itemsOk: bool, f1: set<Id>, f2: set<Id>)
    ensures var r1 := HandleSubmit(store, cart, cartTotal, form, session, newOrderId, Backend(orderOk, itemsOk, f1));
            var r2 := HandleSubmit(store, cart, cartTotal, form, session, newOrderId, Backend(orderOk, itemsOk, f2));
            r1.outcome == r2.outcome && r1.cart == r2.cart
            && r1.store.orders == r2.store.orders && r1.store.orderItems == r2.store.orderItems
  {
  }

  /** The worked example: one line of product p1 at 5000 cents, quantity 2, stock 5 —
      the order totals 10000 cents and the stock becomes 3. */
  lemma ExampleCheckout(form: CustomerForm)
    ensures var store := Store(map["p1" := 5], [], [], []);
            var cart := [CartLine("p1", "Shirt", 5000, 2)];
            var r := HandleSubmit(store, cart, 10000, form, None, "o1", Backend(true, true, {}));
            r.outcome == Placed("o1") && r.store.stock["p1"] == 3
            && r.store.orders[0].totalAmount == 10000 && r.cart == []
  {
    var cart := [CartLine("p1", "Shirt", 5000, 2)];
    assert Decrement(cart, map["p1" := 5], {}) == Decrement([], map["p1" := 3], {});
  }
}
