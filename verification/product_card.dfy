/** The product card's rules: the price a card adds to the cart or wishlist, the stock and
    discount badges, the percent-off figure and the add button. Prices are integer cents. */
module ProductCard {
  import opened Tables
  import opened Numbers
  import opened Wishlist

  /** `discount_price` is truthy: present and non-zero. */
  predicate HasDiscount(p: Product)
  {
    p.discountPrice.Some? && p.discountPrice.value != 0
  }

  /** `discount_price || price`. */
  function EffectivePrice(p: Product): (price: int)
    ensures HasDiscount(p) ==> price == p.discountPrice.value
    ensures !HasDiscount(p) ==> price == p.price
  {
    if HasDiscount(p) then p.discountPrice.value else p.price
  }

  /** The snapshot the card hands to the cart and to the wishlist. */
  function Snapshot(p: Product): (item: WishlistItem)
    ensures item.id == p.id && item.name == p.name && item.imageUrl == p.imageUrl
    ensures item.price == EffectivePrice(p)
  {
    WishlistItem(p.id, p.name, EffectivePrice(p), p.imageUrl)
  }

  /** A real discount below the list price is what the cart and the wishlist get charged. */
  lemma DiscountIsCharged(p: Product)
    requires p.discountPrice.Some? && 0 < p.discountPrice.value < p.price
    ensures Snapshot(p).price < p.price
  {
  }

  /** "Only n left" for 1..9 units. */
  predicate LowStockBadge(stock: int)
  {
    0 < stock < 10
  }

  /** "Out of Stock" for exactly 0 units. */
  predicate OutOfStockBadge(stock: int)
  {
    stock == 0
  }

  /** The two stock badges never show together, and a positive stock of 10 or more shows
      neither. */
  lemma StockBadgesExclusive(stock: int)
    ensures !(LowStockBadge(stock) && OutOfStockBadge(stock))
    ensures stock >= 10 ==> !LowStockBadge(stock) && !OutOfStockBadge(stock)
  {
  }

  /** The card's discount badge needs a discount and stock left. */
  predicate CardDiscountBadge(p: Product)
  {
    HasDiscount(p) && p.stock > 0
  }

  /** `Math.round((price - d) / price * 100)`; none when the price is 0, where the source
      divides by zero. */
  function PercentOff(price: int, d: int): (pct: Option<int>)
    ensures pct.None? <==> price == 0
    ensures pct.Some? ==>
      var exact := (price - d) as real / price as real * 100.0;
      exact - 0.5 < pct.value as real <= exact + 0.5
  {
    if price == 0 then None
    else Some(MathRound((price - d) as real / price as real * 100.0))
  }

  /** A discount between 0 (exclusive) and the price gives a percentage in 0..100; equal to
      the price it is 0, and a discount above the price shows a negative percentage. */
  lemma PercentOffRange(price: int, d: int)
    requires price > 0
    ensures 0 < d <= price ==> 0 <= PercentOff(price, d).value <= 100
    ensures d == price ==> PercentOff(price, d).value == 0
    ensures d > price ==> PercentOff(price, d).value <= 0
  {
    var exact := (price - d) as real / price as real * 100.0;
    var frac := (price - d) as real / price as real;
    if 0 < d <= price {
      assert 0.0 <= frac <= 1.0;
      MathRoundMonotone(0.0, exact);
      MathRoundMonotone(exact, 100.0);
      MathRoundOfInteger(0);
      MathRoundOfInteger(100);
    }
    if d > price {
      assert frac < 0.0;
      MathRoundMonotone(exact, 0.0);
      MathRoundOfInteger(0);
    }
  }

  /** The add button: disabled and labelled by stock and the 2-second "just added" flag. */
  datatype AddButton = AddButton(disabled: bool, caption: string)

  function CardAddButton(stock: int, justAdded: bool): (b: AddButton)
    ensures b.disabled <==> stock == 0
    ensures stock == 0 ==> b.caption == "Out of Stock"
    ensures stock != 0 && justAdded ==> b.caption == "Added!"
    ensures stock != 0 && !justAdded ==> b.caption == "Add"
  {
    AddButton(stock == 0, if stock == 0 then "Out of Stock" else if justAdded then "Added!" else "Add")
  }
}
