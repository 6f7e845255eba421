/** The customer's order list: the orders placed with the user's email, each delivered order
    annotated with two review flags found by scanning its items, the status colour and icon
    maps, and the review link chosen from the flags. */
module MyOrders {
  import opened Tables
  import opened ReviewRules

  /** The user may review the product (the eligibility query). */
  predicate Reviewable(u: User, store: Store, productId: Id)
  {
    CanUserReviewProduct(Some(u), u.id, productId, store)
  }

  /** The user already has a review row for the product. */
  predicate Reviewed(u: User, store: Store, productId: Id)
  {
    HasUserReviewedProduct(u.id, productId, store)
  }

  /** `hasReviewableProducts` and `hasUnreviewedProducts`. */
  datatype Flags = Flags(reviewable: bool, unreviewed: bool)

  /** The item loop: a reviewable item sets the first flag; a reviewable item not yet reviewed
      also sets the second and stops the scan. */
  function Scan(items: seq<OrderItem>, u: User, store: Store, reviewableSoFar: bool): (r: Flags)
    ensures r.reviewable <==>
      reviewableSoFar || exists i :: 0 <= i < |items| && Reviewable(u, store, items[i].productId)
    ensures r.unreviewed <==>
      exists i :: 0 <= i < |items| && Reviewable(u, store, items[i].productId) && !Reviewed(u, store, items[i].productId)
    ensures r.unreviewed ==> r.reviewable
  {
    if |items| == 0 then Flags(reviewableSoFar, false)
    else
      assert forall i :: 0 <= i < |items[1..]| ==> items[1..][i] == items[i + 1];
      var p := items[0].productId;
      if Reviewable(u, store, p) then
        if !Reviewed(u, store, p) then Flags(true, true)
        else Scan(items[1..], u, store, true)
      else Scan(items[1..], u, store, reviewableSoFar)
  }

  /** An order as listed: the row and, for delivered orders with items, the two flags. */
  datatype OrderRow = OrderRow(order: Order, flags: Option<Flags>)

  /** The per-order step: a delivered order whose item fetch answers with at least one item
      gets the scan's flags; every other order, and one whose item fetch fails, is returned as
      it is. `fetchFails` holds the orders whose item fetch fails. */
  function WithFlags(o: Order, u: User, store: Store, fetchFails: set<Id>): (r: OrderRow)
    ensures r.order == o
    ensures r.flags.Some? <==> o.status == Delivered && o.id !in fetchFails && |ItemsOf(store.orderItems, o.id)| > 0
    ensures r.flags.Some? ==> r.flags.value == Scan(ItemsOf(store.orderItems, o.id), u, store, false)
  {
    var items := ItemsOf(store.orderItems, o.id);
    if o.status == Delivered && o.id !in fetchFails && |items| > 0 then OrderRow(o, Some(Scan(items, u, store, false)))
    else OrderRow(o, None)
  }

  /** The orders whose `customer_email` is the user's, in the table's order. */
  function OrdersByEmail(orders: seq<Order>, email: string): (r: seq<Order>)
    ensures |r| <= |orders|
    ensures forall o :: o in r <==> o in orders && o.customerEmail == email
  {
    if |orders| == 0 then []
    else (if orders[0].customerEmail == email then [orders[0]] else []) + OrdersByEmail(orders[1..], email)
  }

  /** The annotation pass over the fetched orders: same length, same orders in the same
      positions, each annotated by the per-order step. */
  function Annotate(orders: seq<Order>, u: User, store: Store, fetchFails: set<Id>): (r: seq<OrderRow>)
    ensures |r| == |orders|
    ensures forall i :: 0 <= i < |orders| ==> r[i].order == orders[i]
    ensures forall i :: 0 <= i < |orders| ==>
      (r[i].flags.Some? <==> orders[i].status == Delivered && orders[i].id !in fetchFails
                             && |ItemsOf(store.orderItems, orders[i].id)| > 0)
    ensures forall i :: 0 <= i < |orders| ==> r[i] == WithFlags(orders[i], u, store, fetchFails)
  {
    seq(|orders|, i requires 0 <= i < |orders| => WithFlags(orders[i], u, store, fetchFails))
  }

  /** The page's list and loading flag. */
  datatype PageState = PageState(orders: seq<OrderRow>, loading: bool)

  /** `checkUserAndFetchOrders`: signed out, the list stays empty; signed in, the user's orders
      are fetched by email and annotated, unless the order fetch fails. Loading ends either way. */
  function CheckUserAndFetchOrders(session: Option<User>, store: Store, fetchOk: bool, fetchFails: set<Id>): (r: PageState)
    ensures !r.loading
    ensures session.None? || !fetchOk ==> r.orders == []
    ensures session.Some? && fetchOk ==>
      var mine := OrdersByEmail(store.orders, session.value.email);
      && |r.orders| == |mine|
      && forall i :: 0 <= i < |mine| ==>
           && r.orders[i].order == mine[i]
           && r.orders[i].order.customerEmail == session.value.email
           && r.orders[i] == WithFlags(mine[i], session.value, store, fetchFails)
  {
    if session.None? || !fetchOk then PageState([], false)
    else
      var mine := OrdersByEmail(store.orders, session.value.email);
      var rows := Annotate(mine, session.value, store, fetchFails);
      assert forall i :: 0 <= i < |rows| ==> rows[i].order == mine[i] && mine[i] in mine;
      PageState(rows, false)
  }

  /** The link under an order's details button. */
  datatype ReviewLink = WriteReview | ViewReviews | NoReviewLink

  /** Shown only for a delivered order with the reviewable flag; "Write Review" when some
      product is unreviewed, "View Reviews" otherwise. */
  function ReviewButton(row: OrderRow): (r: ReviewLink)
    ensures r == WriteReview <==>
      row.order.status == Delivered && row.flags.Some? && row.flags.value.reviewable && row.flags.value.unreviewed
    ensures r == ViewReviews <==>
      row.order.status == Delivered && row.flags.Some? && row.flags.value.reviewable && !row.flags.value.unreviewed
  {
    if row.order.status == Delivered && row.flags.Some? && row.flags.value.reviewable then
      if row.flags.value.unreviewed then WriteReview else ViewReviews
    else NoReviewLink
  }

  /** For an annotated order: "Write Review" iff it is delivered, its items were fetched and
      some item is reviewable and not yet reviewed; "View Reviews" iff it is delivered, its
      items were fetched, some item is reviewable and every reviewable item has been reviewed. */
  lemma ReviewButtonMeaning(o: Order, u: User, store: Store, fetchFails: set<Id>)
    ensures var items := ItemsOf(store.orderItems, o.id);
            && (ReviewButton(WithFlags(o, u, store, fetchFails)) == WriteReview <==>
                  o.status == Delivered && o.id !in fetchFails
                  && exists i :: 0 <= i < |items| && Reviewable(u, store, items[i].productId)
                                 && !Reviewed(u, store, items[i].productId))
            && (ReviewButton(WithFlags(o, u, store, fetchFails)) == ViewReviews <==>
                  o.status == Delivered && o.id !in fetchFails
                  && (exists i :: 0 <= i < |items| && Reviewable(u, store, items[i].productId))
                  && forall i :: 0 <= i < |items| && Reviewable(u, store, items[i].productId) ==>
                       Reviewed(u, store, items[i].productId))
  {
  }

  /** On the fetched page, the i-th order offers "Write Review" exactly when it is one of the
      user's delivered orders whose items were fetched and some item is reviewable and not yet
      reviewed. */
  lemma PageOffersWriteReview(u: User, store: Store, fetchFails: set<Id>, i: int)
    requires 0 <= i < |OrdersByEmail(store.orders, u.email)|
    ensures var o := OrdersByEmail(store.orders, u.email)[i];
            var items := ItemsOf(store.orderItems, o.id);
            var page := CheckUserAndFetchOrders(Some(u), store, true, fetchFails);
            && o in store.orders && o.customerEmail == u.email
            && (ReviewButton(page.orders[i]) == WriteReview <==>
                  o.status == Delivered && o.id !in fetchFails
                  && exists j :: 0 <= j < |items| && Reviewable(u, store, items[j].productId)
                                 && !Reviewed(u, store, items[j].productId))
  {
    var mine := OrdersByEmail(store.orders, u.email);
    assert mine[i] in mine;
    ReviewButtonMeaning(mine[i], u, store, fetchFails);
  }

  const Yellow := "bg-yellow-100 text-yellow-800"
  const Blue := "bg-blue-100 text-blue-800"
  const Purple := "bg-purple-100 text-purple-800"
  const Green := "bg-green-100 text-green-800"
  const Red := "bg-red-100 text-red-800"
  const Grey := "bg-gray-100 text-gray-800"

  /** `getStatusColor`: a colour per order status name, grey for any other string. */
  function StatusColor(status: string): (c: string)
    ensures c == Grey <==> status !in {"pending", "processing", "shipped", "delivered", "cancelled"}
  {
    if status == "pending" then Yellow
    else if status == "processing" then Blue
    else if status == "shipped" then Purple
    else if status == "delivered" then Green
    else if status == "cancelled" then Red
    else Grey
  }

  /** The five order statuses get five different colours. */
  lemma StatusColorsDistinct(a: OrderStatus, b: OrderStatus)
    ensures StatusColor(StatusName(a)) != Grey
    ensures a != b ==> StatusColor(StatusName(a)) != StatusColor(StatusName(b))
  {
  }

  /** `getStatusIcon`: a glyph for delivered, shipped, processing and cancelled; '○' for
      everything else, pending included. */
  function StatusIcon(status: string): (g: string)
    ensures g == "\U{25CB}" <==> status !in {"delivered", "shipped", "processing", "cancelled"}
  {
    if status == "delivered" then "\U{2713}"
    else if status == "shipped" then "\U{2192}"
    else if status == "processing" then "\U{27F3}"
    else if status == "cancelled" then "\U{2715}"
    else "\U{25CB}"
  }

  /** A pending order shows the fallback icon, like an unknown status. */
  lemma PendingHasFallbackIcon()
    ensures StatusIcon(StatusName(Pending)) == StatusIcon("")
  {
  }
}
