/** The review eligibility queries as predicates over the tables: a signed-in user may review
    a product when some delivered order of theirs (matched by user id or by email) contains it;
    a user has reviewed a product when a review row for the pair exists. */
module ReviewRules {
  import opened Tables

  /** The order has an `order_items` row for the product (the inner join of the query). */
  predicate ContainsProduct(items: seq<OrderItem>, orderId: Id, productId: Id)
  {
    exists it :: it in items && it.orderId == orderId && it.productId == productId
  }

  /** The row filter of both order queries: delivered, containing the product, and belonging
      to the user by `user_id` or by `customer_email` (so orders with no user id can match). */
  predicate Confers(o: Order, items: seq<OrderItem>, userId: Id, email: string, productId: Id)
  {
    && o.status == Delivered
    && ContainsProduct(items, o.id, productId)
    && (o.userId == Some(userId) || o.customerEmail == email)
  }

  /** The first order, in table order, that passes the filter. */
  function FirstConferring(orders: seq<Order>, items: seq<OrderItem>, userId: Id, email: string, productId: Id): (r: Option<Order>)
    ensures r.Some? ==> r.value in orders && Confers(r.value, items, userId, email, productId)
    ensures r.None? <==> forall o :: o in orders ==> !Confers(o, items, userId, email, productId)
  {
    if |orders| == 0 then None
    else if Confers(orders[0], items, userId, email, productId) then Some(orders[0])
    else
      assert forall o :: o in orders ==> o == orders[0] || o in orders[1..];
      FirstConferring(orders[1..], items, userId, email, productId)
  }

  /** `canUserReviewProduct`: false without a session user; otherwise some order passes the filter
      with the session user's email. */
  function CanUserReviewProduct(session: Option<User>, userId: Id, productId: Id, store: Store): (r: bool)
    ensures session.None? ==> !r
    ensures r <==> session.Some? && exists o :: o in store.orders && Confers(o, store.orderItems, userId, session.value.email, productId)
  {
    session.Some? && FirstConferring(store.orders, store.orderItems, userId, session.value.email, productId).Some?
  }

  /** The first review row of the (user, product) pair. */
  function FindReview(reviews: seq<Review>, userId: Id, productId: Id): (r: Option<Review>)
    ensures r.Some? ==> r.value in reviews && r.value.userId == userId && r.value.productId == productId
    ensures r.None? <==> forall x :: x in reviews ==> !(x.userId == userId && x.productId == productId)
  {
    if |reviews| == 0 then None
    else if reviews[0].userId == userId && reviews[0].productId == productId then Some(reviews[0])
    else
      assert forall x :: x in reviews ==> x == reviews[0] || x in reviews[1..];
      FindReview(reviews[1..], userId, productId)
  }

  /** `hasUserReviewedProduct`: a review row for the pair exists, whatever its status. */
  function HasUserReviewedProduct(userId: Id, productId: Id, store: Store): (r: bool)
    ensures r <==> exists x :: x in store.reviews && x.userId == userId && x.productId == productId
  {
    FindReview(store.reviews, userId, productId).Some?
  }

  /** `getUserDeliveredOrderForProduct`: null without a session user; otherwise an order passing
      the same filter as eligibility, or null when none does. */
  function GetUserDeliveredOrderForProduct(session: Option<User>, userId: Id, productId: Id, store: Store): (r: Option<Order>)
    ensures session.None? ==> r.None?
    ensures r.Some? ==>
      session.Some? && r.value in store.orders
      && Confers(r.value, store.orderItems, userId, session.value.email, productId)
    ensures r.Some? <==> CanUserReviewProduct(session, userId, productId, store)
  {
    if session.None? then None
    else FirstConferring(store.orders, store.orderItems, userId, session.value.email, productId)
  }

  /** Orders in any status but `delivered` never confer eligibility: adding undelivered orders
      to the table changes no answer. */
  lemma UndeliveredOrdersNeverConfer(session: Option<User>, userId: Id, productId: Id, store: Store, extra: seq<Order>)
    requires forall o :: o in extra ==> o.status != Delivered
    ensures CanUserReviewProduct(session, userId, productId, store.(orders := store.orders + extra))
        == CanUserReviewProduct(session, userId, productId, store)
  {
    var grown := store.(orders := store.orders + extra);
    if CanUserReviewProduct(session, userId, productId, grown) {
      var o :| o in grown.orders && Confers(o, grown.orderItems, userId, session.value.email, productId);
      assert o in store.orders || o in extra;
    }
  }

  /** Without a delivered order in the table nobody is eligible for anything. */
  lemma NoDeliveredOrderNoEligibility(session: Option<User>, userId: Id, productId: Id, store: Store)
    requires forall o :: o in store.orders ==> o.status != Delivered
    ensures !CanUserReviewProduct(session, userId, productId, store)
    ensures GetUserDeliveredOrderForProduct(session, userId, productId, store).None?
  {
  }

  /** An order with no user id still confers eligibility through the email match. */
  lemma EmailMatchCountsGuestOrders(u: User, productId: Id, o: Order, it: OrderItem, reviews: seq<Review>)
    requires o.status == Delivered && o.userId.None? && o.customerEmail == u.email
    requires it.orderId == o.id && it.productId == productId
    ensures CanUserReviewProduct(Some(u), u.id, productId, Store(map[], [o], [it], reviews))
  {
    assert Confers(o, [it], u.id, u.email, productId) by {
      assert it in [it];
    }
    assert o in [o];
  }

  /** Pending and rejected reviews count as reviewed too. */
  lemma AnyStatusCountsAsReviewed(store: Store, x: Review)
    requires x in store.reviews
    ensures HasUserReviewedProduct(x.userId, x.productId, store)
  {
  }
}
