/** Record shapes of the backend tables the storefront reads and writes, and the
    in-memory store that stands in for the backend in every handler of this model.
    Money is kept in integer cents; timestamps are abstract integers. */
module Tables {

  /** The conventional Some/None datatype, used for nullable columns. */
  datatype Option<+T> = None | Some(value: T)

  type Id = string

  /** The five values of the `orders.status` column. */
  datatype OrderStatus = Pending | Processing | Shipped | Delivered | Cancelled

  /** The column text of each order status. */
  function StatusName(s: OrderStatus): (name: string)
    ensures |name| > 0
  {
    match s
    case Pending => "pending"
    case Processing => "processing"
    case Shipped => "shipped"
    case Delivered => "delivered"
    case Cancelled => "cancelled"
  }

  /** Distinct statuses have distinct column texts, so a status is recoverable from its name. */
  lemma StatusNameInjective(s: OrderStatus, t: OrderStatus)
    ensures StatusName(s) == StatusName(t) <==> s == t
  {
  }

  /** A `products` row; `discountPrice` is the optional sale price used by the cards. */
  datatype Product = Product(
    id: Id,
    name: string,
    description: Option<string>,
    price: int,
    discountPrice: Option<int>,
    imageUrl: Option<string>,
    category: Option<string>,
    stock: int)

  /** An `orders` row; `userId` is null for orders placed while signed out. */
  datatype Order = Order(
    id: Id,
    customerName: string,
    customerEmail: string,
    customerPhone: string,
    shippingAddress: string,
    totalAmount: int,
    status: OrderStatus,
    userId: Option<Id>)

  /** An `order_items` row; `price` is the unit price at purchase time. */
  datatype OrderItem = OrderItem(orderId: Id, productId: Id, quantity: int, price: int)

  /** A `product_images` row. */
  datatype ProductImage = ProductImage(productId: Id, imageUrl: string, displayOrder: int)

  /** The three values of the `reviews.status` column. */
  datatype ReviewStatus = PendingReview | Approved | Rejected

  /** A `reviews` row. */
  datatype Review = Review(
    id: Id,
    productId: Id,
    userId: Id,
    orderId: Id,
    rating: int,
    comment: Option<string>,
    status: ReviewStatus,
    createdAt: int,
    updatedAt: int)

  /** A `wishlists` row: one (user, product) pair. */
  datatype WishlistRow = WishlistRow(userId: Id, productId: Id)

  /** A JSON value as it can appear under a key of the auth user's metadata. */
  datatype MetaValue = MetaBool(b: bool) | MetaNumber(n: int) | MetaString(s: string) | MetaNull

  /** The authenticated user of a session; `isAdminFlag` is `user_metadata.is_admin`, absent when unset. */
  datatype User = User(id: Id, email: string, isAdminFlag: Option<MetaValue>)

  /** The backend tables the order and review handlers touch: a product→stock map and the
      `orders`, `order_items` and `reviews` tables in their stored order. */
  datatype Store = Store(
    stock: map<Id, int>,
    orders: seq<Order>,
    orderItems: seq<OrderItem>,
    reviews: seq<Review>)

  /** No product's stock is negative. */
  ghost predicate NonNegativeStock(stock: map<Id, int>)
  {
    forall p :: p in stock ==> stock[p] >= 0
  }

  /** The id the session contributes to a new row: `user?.id || null`, so an empty id is null too. */
  function SignedInId(session: Option<User>): (r: Option<Id>)
    ensures r.Some? <==> session.Some? && session.value.id != ""
    ensures r.Some? ==> r.value == session.value.id
  {
    if session.Some? && session.value.id != "" then Some(session.value.id) else None
  }

  /** The rows of `order_items` that belong to one order, in table order. */
  function ItemsOf(items: seq<OrderItem>, orderId: Id): (r: seq<OrderItem>)
    ensures |r| <= |items|
    ensures forall it :: it in r <==> it in items && it.orderId == orderId
  {
    if |items| == 0 then []
    else (if items[0].orderId == orderId then [items[0]] else []) + ItemsOf(items[1..], orderId)
  }

  /** Selecting the items of an order from a concatenation selects from each part. */
  lemma {:induction false} ItemsOfConcat(a: seq<OrderItem>, b: seq<OrderItem>, orderId: Id)
    ensures ItemsOf(a + b, orderId) == ItemsOf(a, orderId) + ItemsOf(b, orderId)
  {
    if |a| == 0 {
      assert a + b == b;
    } else {
      assert (a + b)[1..] == a[1..] + b;
      ItemsOfConcat(a[1..], b, orderId);
    }
  }

  /** When every row belongs to the order, selecting its items keeps them all, in order. */
  lemma {:induction false} ItemsOfAll(items: seq<OrderItem>, orderId: Id)
    requires forall i :: 0 <= i < |items| ==> items[i].orderId == orderId
    ensures ItemsOf(items, orderId) == items
  {
    if |items| > 0 {
      ItemsOfAll(items[1..], orderId);
    }
  }

  /** When no row belongs to the order, it has no items. */
  lemma {:induction false} ItemsOfNone(items: seq<OrderItem>, orderId: Id)
    requires forall i :: 0 <= i < |items| ==> items[i].orderId != orderId
    ensures ItemsOf(items, orderId) == []
  {
    if |items| > 0 {
      ItemsOfNone(items[1..], orderId);
    }
  }
}
