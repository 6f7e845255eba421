/** The product review form: the eligibility check run on mount, the star picker, the submit
    handler's insert, and which of five panels is rendered. */
module ReviewForm {
  import opened Tables
  import opened ReviewRules
  import opened Text

  /** The component's state. */
  datatype FormState = FormState(
    user: Option<User>,
    canReview: bool,
    hasReviewed: bool,
    loading: bool,
    rating: int,
    comment: string,
    orderId: Option<Id>)

  /** The state on mount: loading, rating 5, empty comment, no order. */
  const Initial: FormState := FormState(None, false, false, true, 5, "", None)

  /** The stars the picker offers. */
  const StarButtons: seq<int> := [1, 2, 3, 4, 5]

  predicate RatingInRange(s: FormState)
  {
    1 <= s.rating <= 5
  }

  /** `order?.id || null`. */
  function OrderIdOrNull(order: Option<Order>): (r: Option<Id>)
    ensures r.Some? <==> order.Some? && order.value.id != ""
    ensures r.Some? ==> r.value == order.value.id
  {
    if order.Some? && order.value.id != "" then Some(order.value.id) else None
  }

  /** `checkReviewEligibility`: records the session user; with one, records both answers and
      looks up the delivered order only when the user is eligible and has not reviewed yet. */
  function CheckReviewEligibility(s: FormState, session: Option<User>, productId: Id, store: Store): (r: FormState)
    ensures !r.loading && r.user == session
    ensures r.rating == s.rating && r.comment == s.comment
    ensures session.None? ==> r == s.(user := None, loading := false)
    ensures session.Some? ==>
      && r.canReview == CanUserReviewProduct(session, session.value.id, productId, store)
      && r.hasReviewed == HasUserReviewedProduct(session.value.id, productId, store)
    // the order is looked up only for an eligible user who has not reviewed
    ensures r.orderId != s.orderId ==> session.Some? && r.canReview && !r.hasReviewed
    ensures session.Some? && r.canReview && !r.hasReviewed ==>
      r.orderId == OrderIdOrNull(GetUserDeliveredOrderForProduct(session, session.value.id, productId, store))
  {
    if session.None? then s.(user := None, loading := false)
    else
      var u := session.value;
      var can := CanUserReviewProduct(session, u.id, productId, store);
      var has := HasUserReviewedProduct(u.id, productId, store);
      var orderId := if can && !has then OrderIdOrNull(GetUserDeliveredOrderForProduct(session, u.id, productId, store)) else s.orderId;
      s.(user := session, canReview := can, hasReviewed := has, orderId := orderId, loading := false)
  }

  /** Clicking one of the picker's stars. */
  function ClickStar(s: FormState, star: int): (r: FormState)
    requires star in StarButtons
    ensures r.rating == star && RatingInRange(r)
    ensures r.(rating := s.rating) == s
  {
    s.(rating := star)
  }

  /** The state after submitting and the `reviews` table. */
  datatype SubmitResult = SubmitResult(state: FormState, reviews: seq<Review>)

  /** `handleSubmit`: nothing happens without both a user and an order id; otherwise one
      pending review is inserted with the trimmed comment (null when blank); on success the
      comment is cleared and the form switches to "already reviewed". */
  function HandleSubmit(s: FormState, productId: Id, reviews: seq<Review>, newReviewId: Id, now: int, insertOk: bool): (r: SubmitResult)
    ensures s.user.None? || s.orderId.None? ==> r == SubmitResult(s, reviews)
    ensures s.user.Some? && s.orderId.Some? && !insertOk ==> r == SubmitResult(s, reviews)
    ensures s.user.Some? && s.orderId.Some? && insertOk ==>
      && r.reviews == reviews + [Review(newReviewId, productId, s.user.value.id, s.orderId.value,
                                        s.rating, TrimOrNull(s.comment), PendingReview, now, now)]
      && r.state == s.(comment := "", hasReviewed := true)
    ensures |r.reviews| <= |reviews| + 1 && r.reviews[..|reviews|] == reviews
  {
    if s.user.None? || s.orderId.None? then SubmitResult(s, reviews)
    else if !insertOk then SubmitResult(s, reviews)
    else
      var review := Review(newReviewId, productId, s.user.value.id, s.orderId.value,
                           s.rating, TrimOrNull(s.comment), PendingReview, now, now);
      assert (reviews + [review])[..|reviews|] == reviews;
      SubmitResult(s.(comment := "", hasReviewed := true), reviews + [review])
  }

  /** The five panels, in render precedence. */
  datatype View = CheckingEligibility | SignInPrompt | VerifiedPurchasesOnly | AlreadyReviewed | WriteReviewForm

  /** Render precedence: loading, then no user, then not eligible, then already reviewed,
      then the form. */
  function Render(s: FormState): (v: View)
    ensures v == CheckingEligibility <==> s.loading
    ensures v == SignInPrompt <==> !s.loading && s.user.None?
    ensures v == VerifiedPurchasesOnly <==> !s.loading && s.user.Some? && !s.canReview
    ensures v == AlreadyReviewed <==> !s.loading && s.user.Some? && s.canReview && s.hasReviewed
    ensures v == WriteReviewForm <==> !s.loading && s.user.Some? && s.canReview && !s.hasReviewed
  {
    if s.loading then CheckingEligibility
    else if s.user.None? then SignInPrompt
    else if !s.canReview then VerifiedPurchasesOnly
    else if s.hasReviewed then AlreadyReviewed
    else WriteReviewForm
  }

  /** Every transition keeps the rating in 1..5, starting from the initial 5. */
  lemma RatingStaysInRange(s: FormState, session: Option<User>, productId: Id, store: Store, star: int,
                           newReviewId: Id, now: int, insertOk: bool)
    requires RatingInRange(s)
    requires star in StarButtons
    ensures RatingInRange(Initial)
    ensures RatingInRange(CheckReviewEligibility(s, session, productId, store))
    ensures RatingInRange(ClickStar(s, star))
    ensures RatingInRange(HandleSubmit(s, productId, store.reviews, newReviewId, now, insertOk).state)
  {
  }

  /** A review submitted from the form right after the eligibility check names an order that
      is delivered, belongs to the user and contains the product; the user had no review of the
      product; the review is pending with a rating in 1..5. */
  lemma SubmittedReviewIsVerified(s0: FormState, session: Option<User>, productId: Id, store: Store,
                                  newReviewId: Id, now: int)
    requires RatingInRange(s0)
    ensures var s := CheckReviewEligibility(s0, session, productId, store);
            var r := HandleSubmit(s, productId, store.reviews, newReviewId, now, true);
            Render(s) == WriteReviewForm && |r.reviews| > |store.reviews| ==>
              var x := r.reviews[|store.reviews|];
              && session.Some?
              && x.status == PendingReview && 1 <= x.rating <= 5
              && x.userId == session.value.id && x.productId == productId
              && !HasUserReviewedProduct(session.value.id, productId, store)
              && Render(r.state) == AlreadyReviewed
              && (exists o :: o in store.orders && o.id == x.orderId
                   && Confers(o, store.orderItems, session.value.id, session.value.email, productId))
  {
    var s := CheckReviewEligibility(s0, session, productId, store);
    var r := HandleSubmit(s, productId, store.reviews, newReviewId, now, true);
    if Render(s) == WriteReviewForm && |r.reviews| > |store.reviews| {
      var g := GetUserDeliveredOrderForProduct(session, session.value.id, productId, store);
      assert s.orderId == OrderIdOrNull(g);
      assert g.Some?;
      assert g.value in store.orders && g.value.id == s.orderId.value;
    }
  }

  /** Signed out, the check ends on the sign-in prompt. */
  lemma SignedOutSeesSignInPrompt(s0: FormState, productId: Id, store: Store)
    ensures Render(CheckReviewEligibility(s0, None, productId, store)) == SignInPrompt
  {
  }
}
