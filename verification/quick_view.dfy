/** The quick-view modal: the three newest approved reviews, their average shown to one
    decimal, the star row filled from that figure, the price and stock rules shared with the
    card, and closing on a backdrop click. */
module QuickView {
  import opened Tables
  import opened Numbers
  import opened ReviewDisplay
  import opened ProductCard

  /** The preview fetch: at most three approved reviews of the product, in the query's order
      (the table is taken as already newest first); nothing on an error. */
  function Preview(table: seq<Review>, productId: Id, fetchOk: bool): (r: seq<Review>)
    ensures |r| <= 3
    ensures !fetchOk ==> r == []
    ensures fetchOk ==> |r| == if |ApprovedOf(table, productId)| < 3 then |ApprovedOf(table, productId)| else 3
    ensures fetchOk ==> r == ApprovedOf(table, productId)[..|r|]
    ensures forall x :: x in r ==> x in table && x.productId == productId && x.status == Approved
  {
    if !fetchOk then []
    else
      var all := ApprovedOf(table, productId);
      var r := if |all| < 3 then all else all[..3];
      assert forall x :: x in r ==> x in all;
      r
  }

  /** `averageRating`: the mean shown to one decimal, or null when there are no reviews. */
  function AverageLabel(rs: seq<Review>): (avg: Option<real>)
    ensures avg.None? <==> |rs| == 0
    ensures avg.Some? ==> Mean(rs) - 0.05 <= avg.value <= Mean(rs) + 0.05
    ensures avg.Some? && Mean(rs) >= 0.0 ==> Mean(rs) - 0.05 < avg.value
    ensures avg.Some? ==> (avg.value * 10.0).Floor as real == avg.value * 10.0
  {
    if |rs| == 0 then None else Some(ToFixedOne(Mean(rs)))
  }

  /** The star row: star i (from 0) is filled iff i < `Math.round` of the shown average. */
  function StarRow(avg: real): (stars: seq<bool>)
    ensures |stars| == 5
    ensures forall i :: 0 <= i < 5 ==> (stars[i] <==> i < MathRound(avg))
  {
    seq(5, i => i < MathRound(avg))
  }

  /** With ratings in 1..5, the shown average lies in [1, 5], so between one and five stars
      are filled, as many as the rounded average. */
  lemma StarRowCount(rs: seq<Review>)
    requires RatingsInRange(rs) && |rs| > 0
    ensures var a := AverageLabel(rs).value;
            && 1.0 <= a <= 5.0
            && CountFilled(StarRow(a)) == MathRound(a)
            && 1 <= MathRound(a) <= 5
  {
    SumRatingsBounds(rs);
    QuotientBounds(SumRatings(rs) as real, |rs| as real, 1.0, 5.0);
    var a := AverageLabel(rs).value;
    assert 9.5 < a * 10.0 <= 50.5;
    assert 1.0 <= a <= 5.0 by {
      assert (a * 10.0).Floor as real == a * 10.0;
    }
    MathRoundMonotone(1.0, a);
    MathRoundMonotone(a, 5.0);
    MathRoundOfInteger(1);
    MathRoundOfInteger(5);
    CountFilledThreshold(StarRow(a), MathRound(a));
  }

  /** The review count's noun. */
  function ReviewNoun(count: int): (w: string)
    ensures w == "review" <==> count == 1
  {
    if count == 1 then "review" else "reviews"
  }

  /** The modal's discount badge needs only a discount, unlike the card's. */
  predicate ModalDiscountBadge(p: Product)
  {
    HasDiscount(p)
  }

  /** A sold-out discounted product shows its percentage in the modal but not on the card. */
  lemma SoldOutDiscountShownOnlyInModal(p: Product)
    requires HasDiscount(p) && p.stock == 0
    ensures ModalDiscountBadge(p) && !CardDiscountBadge(p)
  {
  }

  /** The modal's add button: the card's rule with longer labels. */
  function ModalAddButton(stock: int, justAdded: bool): (b: AddButton)
    ensures b.disabled == CardAddButton(stock, justAdded).disabled
    ensures stock == 0 ==> b.caption == "Out of Stock"
    ensures stock != 0 && justAdded ==> b.caption == "Added to Cart!"
    ensures stock != 0 && !justAdded ==> b.caption == "Add to Cart"
  {
    AddButton(stock == 0, if stock == 0 then "Out of Stock" else if justAdded then "Added to Cart!" else "Add to Cart")
  }

  /** `handleBackdropClick`: whether the modal is still open after a click; only a click whose
      target is the backdrop itself closes it. */
  function AfterBackdropClick(open: bool, targetIsBackdrop: bool): (stillOpen: bool)
    ensures stillOpen ==> open
    ensures stillOpen <==> open && !targetIsBackdrop
  {
    open && !targetIsBackdrop
  }
}
