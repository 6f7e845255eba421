# Storefront handlers, modelled in Dafny

This project models the core of a small e-commerce storefront. The storefront is a Next.js
application over a hosted Postgres backend. The model covers:

- the checkout submit handler: stock pre-check, order row, order items, stock decrement, cart clear;
- the admin order status update, which restores stock when an order is cancelled;
- the wishlist store: toggle, remove, sync, clear, local or remote;
- the review workflow: eligibility through delivered orders, the review form, the public
  review panel, the admin moderation page and the review flags on the customer's order list;
- the admin product editor: the image fields and the `product_images` rewrite;
- the home page sections, the product card, the quick-view modal, the dashboard statistics,
  the hero carousel, image upload validation and the admin guard.

Every handler is a pure function from the tables (and the page's state) to new tables and a
new page state. A backend call whose outcome the handler reads becomes an input: a boolean
for a single call, or a set naming the items, products or orders whose per-item call fails.
Writes whose errors the handler ignores are inputs too, so the model shows what an ignored
failure leaves behind. The failures that are not inputs are listed under "Left out". The id
the backend assigns to a new row is an input too. Money is a whole number of cents. Ratings, averages and
image sizes are exact rationals (`real`). `Math.round` is `floor(x + 1/2)`, and `toFixed(1)`
is rounding to the nearest tenth with ties away from zero.

One Dafny module per source file, plus three shared modules:

- `Tables`: the table rows;
- `Text`: `String.prototype.trim`;
- `Numbers`: `Math.round` and `toFixed(1)`.

## Model

| member | source | states |
|---|---|---|
| Tables.StatusName | lib/database.types.ts:44 | each order status has a non-empty column text |
| Tables.StatusNameInjective | lib/database.types.ts:44 | two statuses have the same column text exactly when they are the same status |
| Tables.SignedInId | app/checkout/page.tsx:71 | the order's user id is null when signed out or when the session id is empty, and the session id otherwise |
| Tables.ItemsOf | app/admin/orders/page.tsx:76-79 | the items of an order are exactly the `order_items` rows carrying its id |
| Tables.ItemsOfConcat | app/admin/orders/page.tsx:76-79 | selecting an order's items from two concatenated tables selects from each in turn |
| Tables.ItemsOfAll | app/admin/orders/page.tsx:76-79 | when every row belongs to the order, the selection keeps all of them in order |
| Tables.ItemsOfNone | app/admin/orders/page.tsx:76-79 | when no row belongs to the order, the order has no items |
| Checkout.PreCheck | app/checkout/page.tsx:45-61 | no error exactly when every cart line's product exists with enough stock; otherwise the error is that of the first failing line |
| Checkout.CartIds | app/checkout/page.tsx:98-118 | the set of products the cart names |
| Checkout.LineItems | app/checkout/page.tsx:84-96 | one `order_items` row per cart line, carrying the new order's id, the line's product, quantity and unit price |
| Checkout.Decrement | app/checkout/page.tsx:98-118 | the decrement touches only cart products whose write succeeds, and a touched stock is never negative |
| Checkout.HandleSubmit | app/checkout/page.tsx:39-130 | a failed pre-check or insert changes no stock and keeps the cart; success means both inserts went through, inserts exactly the order and its items, sets the stock to the decrement loop's result and clears the cart; a failed order insert leaves every table as it was, and a failed items insert leaves exactly the new order row behind; products outside the cart keep their stock, and non-negative stock stays non-negative |
| Checkout.PlacedStockIsExact | app/checkout/page.tsx:98-118 | with one line per product, a placed order leaves each product whose stock write succeeds at exactly its stock minus the line's quantity, and each product whose write fails at its old stock |
| Checkout.DecrementDistinct | app/checkout/page.tsx:98-118 | with one line per product, each product whose write succeeds ends at max(0, stock − quantity) and each failed write leaves the stock as it was |
| Checkout.DecrementSkips | app/checkout/page.tsx:98-118 | a product that no remaining line names keeps its stock |
| Checkout.PassedPreCheckIsExact | app/checkout/page.tsx:45-118 | after a passed pre-check, the decrement subtracts the exact quantity and the clamp to 0 never fires |
| Checkout.StockWriteFailureOnlyLogged | app/checkout/page.tsx:114-116 | which stock writes fail changes neither the outcome nor the cart nor the inserted rows |
| Checkout.ExampleCheckout | app/checkout/page.tsx:39-130 | two units of a product with stock 5 leave stock 3 and insert one order and one item |
| AdminOrders.Restore | app/admin/orders/page.tsx:80-95 | each existing product gains the quantity of its lines whose re-read and write succeed, cumulatively across lines of the same product; with no failing line that is the whole quantity the items hold of it, and a product all of whose lines fail keeps its stock |
| AdminOrders.RestoreFrom | app/admin/orders/page.tsx:81-94 | the loop from a given item on keeps the product set and adds to each product the quantity of its remaining lines that are not skipped |
| AdminOrders.RestoredUnskipped | app/admin/orders/page.tsx:81-94 | with no failing line, the loop gives back the total quantity of the product's lines |
| AdminOrders.RestoredAllSkipped | app/admin/orders/page.tsx:88-93 | a product whose every line fails gets nothing back |
| AdminOrders.RestoredWithinTotal | app/admin/orders/page.tsx:81-94 | with non-negative quantities, failing lines leave the gain between nothing and the full quantity |
| AdminOrders.QuantityOf | app/admin/orders/page.tsx:81-94 | the total quantity the order's lines hold of a product, the figure a full restoration gives back |
| AdminOrders.RestoresStock | app/admin/orders/page.tsx:74 | restoration runs for the cancelled status unless the selected order is already cancelled |
| AdminOrders.QuantityOfUnreferenced | app/admin/orders/page.tsx:82-94 | a product the items never name gets nothing back |
| AdminOrders.SetStatus | app/admin/orders/page.tsx:98-101 | the status is written to the rows with the order's id and every other row is unchanged |
| AdminOrders.HandleStatusUpdate | app/admin/orders/page.tsx:72-113 | stock is restored only when the new status is cancelled, the selected order was not already cancelled and the items fetch succeeds; each product then gains the quantity of the order's lines whose re-read and write succeed, exactly its whole quantity when none fails; the status is written exactly when the write succeeds; the detail panel follows the write |
| AdminOrders.RestorationNotUndone | app/admin/orders/page.tsx:74-112 | a failing status write keeps the restored stock |
| AdminOrders.CancelFramesUnreferenced | app/admin/orders/page.tsx:74-96 | cancelling never changes the stock of a product the order does not reference |
| AdminOrders.PartialRestoreBounded | app/admin/orders/page.tsx:74-96 | with non-negative quantities, a cancellation whose per-item steps partly fail leaves each product between its old stock and its fully restored stock |
| AdminOrders.CancelledToCancelledKeepsStock | app/admin/orders/page.tsx:74 | cancelling an already-cancelled order restores nothing |
| AdminOrders.ExampleCumulativeRestore | app/admin/orders/page.tsx:82-94 | two lines of one product give back both quantities; when the second line's step fails, only the first is given back |
| Wishlist.Without | lib/wishlist.ts:62-74 | the list without an id holds exactly the other entries |
| Wishlist.WithoutRow | lib/wishlist.ts:34-38 | the remote rows without exactly the (user, product) pair |
| Wishlist.IsInWishlist | lib/wishlist.ts:75-78 | an id is in the wishlist exactly when it is among the entries' ids |
| Wishlist.Toggle | lib/wishlist.ts:31-59 | the item's id flips between present and absent, and entries with other ids are kept exactly as before |
| Wishlist.AddItem | lib/wishlist.ts:25-61 | a present item is removed and an absent one appended, whether or not the remote write succeeds; signed in with the write answered, the matching row is deleted or inserted; signed out, or after an ignored failing write, the rows are untouched |
| Wishlist.RemoveItem | lib/wishlist.ts:62-74 | afterwards no entry carries the id and all the others remain; signed in with the delete answered, the row is deleted too, and otherwise the rows are untouched |
| Wishlist.SyncWithDatabase | lib/wishlist.ts:79-100 | signed in, with the fetch answered and every row's product found, the list becomes the joined products of the user's rows, id for id in row order, at list price; otherwise the list stays; the rows never change |
| Wishlist.UserProductIds | lib/wishlist.ts:82-88 | a product is among the user's ids exactly when the user has a row for it |
| Wishlist.FindProduct | lib/wishlist.ts:84-87 | a found product is a row of the table with that id, and none is found exactly when no row has the id |
| Wishlist.ClearWishlist | lib/wishlist.ts:101 | the local list empties and the remote rows stay |
| Wishlist.WithoutAbsent | lib/wishlist.ts:62-74 | removing an absent id changes nothing |
| Wishlist.WithoutConcat | lib/wishlist.ts:62-74 | removal distributes over concatenation |
| Wishlist.ToggleTwiceAbsent | lib/wishlist.ts:25-61 | adding an absent item twice gives back the original list |
| Wishlist.AddItemLocalEffectIndependentOfSession | lib/wishlist.ts:29-60 | the local list changes the same way whether or not the user is signed in |
| Wishlist.WithoutKeepsNoDuplicates | lib/wishlist.ts:62-74 | removal keeps ids unique |
| Wishlist.AddAndRemoveKeepNoDuplicates | lib/wishlist.ts:25-74 | toggling and removing keep ids unique |
| Wishlist.RemoveItemIdempotent | lib/wishlist.ts:62-74 | removing twice is removing once |
| Wishlist.UserProductIdsConcat | lib/wishlist.ts:82-88 | the user's ids over appended rows are the ids of the first part followed by those of the second |
| Wishlist.IdsWithout | lib/wishlist.ts:71-73 | filtering entries by id drops exactly that id from the list's ids, the rest in order |
| Wishlist.UserProductIdsWithoutRow | lib/wishlist.ts:34-38 | deleting the user's row for a product drops exactly that product from the user's ids |
| Wishlist.SyncedMeansSameProducts | lib/wishlist.ts:75-78 | when the list mirrors the user's rows, the wishlist holds a product exactly when the remote table does |
| Wishlist.SyncEstablishesSynced | lib/wishlist.ts:79-100 | a successful sync makes the list mirror the user's rows |
| Wishlist.AddItemKeepsSynced | lib/wishlist.ts:29-48 | signed in, with the write answered, adding keeps the list mirroring the rows |
| Wishlist.RemoveItemKeepsSynced | lib/wishlist.ts:62-74 | signed in, with the delete answered, removing keeps the list mirroring the rows |
| Wishlist.FailedInsertBreaksSync | lib/wishlist.ts:43-47 | an insert whose error is ignored leaves the list holding an item that has no row |
| Wishlist.ClearThenSyncRestores | lib/wishlist.ts:79-101 | clearing the list keeps the remote rows, so a later successful sync rebuilds the mirrored list |
| ReviewRules.FirstConferring | lib/reviews.ts:34-52 | the first delivered order of the user (by id or email) that contains the product, or none exactly when no order qualifies |
| ReviewRules.CanUserReviewProduct | lib/reviews.ts:3-21 | eligible exactly when signed in and some delivered order, matched by user id or by email, contains the product |
| ReviewRules.FindReview | lib/reviews.ts:23-32 | a review row of the user for the product, or none exactly when there is none |
| ReviewRules.HasUserReviewedProduct | lib/reviews.ts:23-32 | reviewed exactly when a review row by the user for the product exists |
| ReviewRules.GetUserDeliveredOrderForProduct | lib/reviews.ts:34-52 | an order is returned exactly when the user is eligible, and it is a delivered order of theirs containing the product |
| ReviewRules.UndeliveredOrdersNeverConfer | lib/reviews.ts:16 | adding orders that are not delivered never changes eligibility |
| ReviewRules.NoDeliveredOrderNoEligibility | lib/reviews.ts:3-52 | with no delivered order, neither eligibility nor an order is found |
| ReviewRules.EmailMatchCountsGuestOrders | lib/reviews.ts:18 | a delivered order placed with the user's email counts even without their user id |
| ReviewRules.AnyStatusCountsAsReviewed | lib/reviews.ts:23-32 | a pending or rejected review also counts as already reviewed |
| Text.TrimStart | app/admin/products/page.tsx:98 | drops exactly the leading whitespace |
| Text.TrimEnd | app/admin/products/page.tsx:98 | drops exactly the trailing whitespace |
| Text.Trim | app/admin/products/page.tsx:98 | a slice of the input with only whitespace around it and no whitespace at its ends |
| Text.TrimEmptyIffBlank | app/admin/products/page.tsx:98 | trimming gives the empty string exactly when the input is all whitespace |
| Text.TrimOrNull | components/ReviewForm.tsx:66 | the comment is null exactly when it is blank, and the trimmed text otherwise |
| Text.IsWhitespace | app/admin/products/page.tsx:98 | the characters `trim` strips: the ECMAScript white space and line terminators |
| ReviewForm.OrderIdOrNull | components/ReviewForm.tsx:46-47 | the form keeps an order id exactly when an order with a non-empty id was found |
| ReviewForm.CheckReviewEligibility | components/ReviewForm.tsx:28-51 | signed out, the form only records the missing user; signed in, it records eligibility and whether a review exists, and it keeps an order id only when the user may write a review |
| ReviewForm.ClickStar | components/ReviewForm.tsx:136-140 | a star click sets the rating to that star and changes nothing else |
| ReviewForm.HandleSubmit | components/ReviewForm.tsx:53-81 | without a user or an order id in the form nothing is inserted; a successful insert appends one pending review carrying the form's user, order id, rating and trimmed comment, and marks the form reviewed; a failed insert changes nothing (that the order id is a qualifying one is what SubmittedReviewIsVerified adds) |
| ReviewForm.Render | components/ReviewForm.tsx:83-125 | exactly one of the five panels, chosen by loading, session, eligibility and existing review |
| ReviewForm.RatingStaysInRange | components/ReviewForm.tsx:15-81 | the rating stays within 1..5 through every handler |
| ReviewForm.SubmittedReviewIsVerified | lib/reviews.ts:3-21 | a review the form inserts comes from an eligible user with a delivered order containing the product |
| ReviewForm.SignedOutSeesSignInPrompt | components/ReviewForm.tsx:83-95 | a signed-out visitor sees the sign-in prompt |
| Numbers.MathRound | components/ReviewDisplay.tsx:47 | within one half of the argument, halves going up |
| Numbers.MathRoundMonotone | components/ReviewDisplay.tsx:47 | rounding keeps order |
| Numbers.MathRoundOfInteger | components/ReviewDisplay.tsx:47 | integers round to themselves |
| Numbers.Tenths | components/ReviewDisplay.tsx:47 | ten times the result is the given whole number |
| Numbers.ToFixedOne | components/QuickViewModal.tsx:95 | a whole number of tenths within 0.05 of the argument, ties going away from zero |
| ReviewDisplay.ApprovedOf | components/ReviewDisplay.tsx:30-52 | exactly the approved reviews of the product |
| ReviewDisplay.SumRatingsBounds | components/ReviewDisplay.tsx:44-49 | with ratings in 1..5, the sum lies between n and 5n |
| ReviewDisplay.Mean | components/ReviewDisplay.tsx:45 | the mean times the number of reviews is the sum of the ratings, and 0 with no reviews |
| ReviewDisplay.AverageRating | components/ReviewDisplay.tsx:44-49 | 0 for no reviews; otherwise a whole number of tenths within 0.05 of the mean |
| ReviewDisplay.QuotientBounds | components/ReviewDisplay.tsx:46 | dividing by the positive count keeps the bounds of the mean |
| ReviewDisplay.AverageInRange | components/ReviewDisplay.tsx:44-49 | with ratings in 1..5, a non-empty average lies in [1, 5] |
| ReviewDisplay.FetchReviews | components/ReviewDisplay.tsx:30-52 | a successful fetch shows the approved reviews, their count and their rounded average; a failed one keeps the panel |
| ReviewDisplay.AverageShownIffReviewed | components/ReviewDisplay.tsx:98-101 | the average is shown instead of "No ratings" exactly when the product has an approved review |
| ReviewDisplay.ShowsAverage | components/ReviewDisplay.tsx:100 | the summary shows the average when it is positive and "No ratings" otherwise |
| ReviewDisplay.Bucket | components/ReviewDisplay.tsx:110-112 | a bucket never exceeds the number of reviews |
| ReviewDisplay.Histogram | components/ReviewDisplay.tsx:110-112 | five rows, counting 5★ down to 1★ |
| ReviewDisplay.HistogramSumsToTotal | components/ReviewDisplay.tsx:110-112 | with ratings in 1..5, the five rows add up to the total |
| ReviewDisplay.MaskUserId | components/ReviewDisplay.tsx:77-79 | the id's first eight characters (fewer for a shorter id) followed by "***" |
| ReviewDisplay.RenderStars | components/ReviewDisplay.tsx:54-67 | five stars, star k filled exactly when k is at most the rating |
| ReviewDisplay.CountFilledThreshold | components/ReviewDisplay.tsx:54-67 | when exactly the stars below c are filled, c clamped to the row length are filled |
| ReviewDisplay.RenderStarsCount | components/ReviewDisplay.tsx:54-67 | the filled stars come first, and their number is the rating's whole part clamped to 0..5 |
| AdminReviews.FilterReviews | app/admin/reviews/page.tsx:31-57 | exactly the reviews matching the tab, and the whole table under "all" |
| AdminReviews.FetchReviews | app/admin/reviews/page.tsx:31-57 | a successful fetch lists the filtered table; a failed one keeps the list; loading ends |
| AdminReviews.SelectFilter | app/admin/reviews/page.tsx:191-199 | choosing a tab lists exactly the reviews matching it |
| AdminReviews.CountStatus | app/admin/reviews/page.tsx:141-153 | a tally never exceeds the list length |
| AdminReviews.FilterCounts | app/admin/reviews/page.tsx:141-153 | the badges are the list length and the three per-status tallies of the listed reviews |
| AdminReviews.CountsSumToAll | app/admin/reviews/page.tsx:141-153 | the three tallies add up to the "all" badge |
| AdminReviews.CountUniform | app/admin/reviews/page.tsx:141-153 | in a single-status list, that tally is the length and the others are 0 |
| AdminReviews.FilteredCountsConcentrate | app/admin/reviews/page.tsx:141-153 | under a status tab, only that status's badge can be nonzero, and it equals "all" |
| AdminReviews.CountIsFilteredLength | app/admin/reviews/page.tsx:141-153 | a status's tally over the table is the length of that status's tab |
| AdminReviews.SetReviewStatus | app/admin/reviews/page.tsx:62-68 | the rows with the id get the status and update time; the others stay |
| AdminReviews.ApproveThenReject | app/admin/reviews/page.tsx:62-68 | approving and then rejecting a review leaves it rejected with the later update time, and the other rows unchanged |
| AdminReviews.UpdateReviewStatus | app/admin/reviews/page.tsx:59-78 | a failed write changes nothing; a successful one writes the status to the review and lists the table again |
| AdminReviews.UpdateNeverAddsPending | app/admin/reviews/page.tsx:59-78 | moderation never makes a review pending and never raises the pending tally |
| AdminReviews.RemoveReview | app/admin/reviews/page.tsx:87-90 | exactly the rows without the id remain |
| AdminReviews.DeleteReview | app/admin/reviews/page.tsx:80-100 | nothing happens without confirmation or after a failed delete; otherwise the review's rows are gone and the list is fetched again |
| AdminReviews.Actions | app/admin/reviews/page.tsx:275-325 | delete is always offered; approve exactly when not approved; reject exactly when not rejected |
| AdminReviews.OfferedActionsMove | app/admin/reviews/page.tsx:275-325 | every offered status button changes the status, and none targets pending |
| MyOrders.Scan | app/my-orders/page.tsx:80-93 | the first flag is set exactly when some item is reviewable; the second exactly when some reviewable item is not yet reviewed; the early stop loses neither |
| MyOrders.WithFlags | app/my-orders/page.tsx:70-102 | flags are computed exactly for delivered orders whose item fetch answers with at least one item, and they are then the scan's result |
| MyOrders.OrdersByEmail | app/my-orders/page.tsx:52-62 | exactly the orders with the user's email |
| MyOrders.Annotate | app/my-orders/page.tsx:68-104 | the same orders in the same positions, each annotated by the per-order step |
| MyOrders.CheckUserAndFetchOrders | app/my-orders/page.tsx:41-108 | signed out or after a failed order fetch the list is empty; otherwise it holds the user's orders by email, position by position, each annotated by the per-order step |
| MyOrders.ReviewButton | app/my-orders/page.tsx:240-258 | "Write Review" for a flagged delivered order with an unreviewed product, "View Reviews" when all are reviewed |
| MyOrders.ReviewButtonMeaning | app/my-orders/page.tsx:240-258 | "Write Review" exactly when delivered, with items fetched and a reviewable unreviewed item; "View Reviews" exactly when delivered, with items fetched, a reviewable item and every reviewable item reviewed |
| MyOrders.PageOffersWriteReview | app/my-orders/page.tsx:68-104 | on the fetched page, each listed order is one of the user's and offers "Write Review" exactly when it is delivered, its items were fetched and some item is reviewable and not yet reviewed |
| MyOrders.StatusColor | app/my-orders/page.tsx:116-125 | grey exactly for strings that are not one of the five status names |
| MyOrders.StatusColorsDistinct | app/my-orders/page.tsx:116-125 | the five statuses get five different, non-grey colours |
| MyOrders.StatusIcon | app/my-orders/page.tsx:127-140 | the fallback circle exactly for strings other than delivered, shipped, processing and cancelled |
| MyOrders.PendingHasFallbackIcon | app/my-orders/page.tsx:127-140 | pending shows the same icon as an unknown status |
| AdminProducts.AddImageField | app/admin/products/page.tsx:187-189 | one empty field appended; the others unchanged |
| AdminProducts.DropIndex | app/admin/products/page.tsx:191-194 | the field at the index removed, the rest in order; an index out of range changes nothing |
| AdminProducts.RemoveImageField | app/admin/products/page.tsx:191-194 | removal, except that removing the last field leaves one empty field |
| AdminProducts.UpdateImageField | app/admin/products/page.tsx:196-200 | only the field at the index changes |
| AdminProducts.FieldEditsKeepNonEmpty | app/admin/products/page.tsx:187-200 | the editor always keeps at least one image field |
| AdminProducts.ValidImages | app/admin/products/page.tsx:98 | exactly the fields that are not blank, in order |
| AdminProducts.ValidImagesAreNonBlank | app/admin/products/page.tsx:98 | a field is kept exactly when its trimmed text is non-empty |
| AdminProducts.ValidImagesConcat | app/admin/products/page.tsx:98 | filtering distributes over concatenation |
| AdminProducts.ImageRecords | app/admin/products/page.tsx:100-104 | one row per kept URL, for the product, numbered 0, 1, 2, … in field order |
| AdminProducts.ImagesOf | app/admin/products/page.tsx:157-161 | exactly the image rows of the product |
| AdminProducts.DeleteImagesOf | app/admin/products/page.tsx:81-85 | exactly the image rows of other products remain |
| AdminProducts.ImagesOfConcat | app/admin/products/page.tsx:157-161 | selection distributes over concatenation |
| AdminProducts.ImagesOfOwn | app/admin/products/page.tsx:157-161 | rows that all belong to the product are selected whole |
| AdminProducts.ImagesOfNone | app/admin/products/page.tsx:157-161 | rows of other products select nothing |
| AdminProducts.UpdateProduct | app/admin/products/page.tsx:71-76 | the edited product's row gets the form data; the others stay |
| AdminProducts.ResetForm | app/admin/products/page.tsx:172-185 | empty form, one empty image field, not editing, form hidden; the tables are untouched |
| AdminProducts.SaveImages | app/admin/products/page.tsx:80-111 | other products' rows never change; after an edit's delete, the product's rows are exactly the new records; a successful insert appends them |
| AdminProducts.HandleSubmit | app/admin/products/page.tsx:54-121 | a failed product write changes nothing; otherwise the product is updated or appended and its images are saved; the form resets unless the image insert failed; the list becomes the written table when the refetch succeeds and stays as it was when the refetch fails |
| AdminProducts.HandleEdit | app/admin/products/page.tsx:144-170 | the form shows the product, with the discount only when it is set and non-zero, and one field per saved image URL; a failed image fetch gives one empty field whatever rows exist |
| AdminProducts.SavedRowsOfProduct | app/admin/products/page.tsx:80-111 | after a fully successful save, the product's image rows are the new records |
| AdminProducts.EditAfterSaveRoundTrip | app/admin/products/page.tsx:157-167 | editing a product right after saving it shows the same non-blank image URLs in the same order |
| AdminProducts.FailedImageFetchThenSaveDropsImages | app/admin/products/page.tsx:157-167 | opening a product whose image fetch fails and then saving it with every write answered leaves the product with no image rows, whatever it had before |
| AdminProducts.StockBadge | app/admin/products/page.tsx:466-470 | green above 10, yellow for 1..10, red at 0 or below |
| Home.FirstFrontImage | app/page.tsx:33-53 | the first image of the product with display order 0, or none exactly when there is none |
| Home.SecondaryImage | app/page.tsx:45-52 | the card gets the URL of the first order-0 image row of the product when that URL is non-empty, and none when there is no such row or its URL is empty |
| Home.WithSecondary | app/page.tsx:33-53 | the products in order, each with its secondary image |
| Home.Featured | app/page.tsx:56 | the first three products (fewer if there are fewer) |
| Home.Sale | app/page.tsx:57 | products four to six |
| Home.SlicesPartitionFirstSix | app/page.tsx:56-57 | featured then sale is exactly the first six products; sale is non-empty only with a full featured row |
| Home.VisibleSections | app/page.tsx:94-118 | the featured section shows exactly when there is a product, the sale section exactly when there are more than three |
| Home.HomePage | app/page.tsx:21-57 | a failed product fetch shows nothing; otherwise the sections hold the sliced products in order |
| ProductCard.EffectivePrice | components/ProductCard.tsx:36 | the discount price when set and non-zero, the list price otherwise |
| ProductCard.Snapshot | components/ProductCard.tsx:33-38 | the cart and wishlist entry carries the product's id, name, image and effective price |
| ProductCard.DiscountIsCharged | components/ProductCard.tsx:36 | a discount below the list price is what the entry charges |
| ProductCard.StockBadgesExclusive | components/ProductCard.tsx:115-126 | never both stock badges; none at stock 10 or more |
| ProductCard.LowStockBadge | components/ProductCard.tsx:115 | "Only n left" for a stock of 1 to 9 |
| ProductCard.OutOfStockBadge | components/ProductCard.tsx:122 | "Out of Stock" for exactly 0 units |
| ProductCard.CardDiscountBadge | components/ProductCard.tsx:129 | the card's percentage badge for a discounted product in stock |
| ProductCard.PercentOff | components/ProductCard.tsx:131 | no figure exactly for a zero price; otherwise the rounded percentage saved |
| ProductCard.PercentOffRange | components/ProductCard.tsx:131 | a discount within the price gives 0..100 percent; above the price, a non-positive figure |
| ProductCard.CardAddButton | components/ProductCard.tsx:168-176 | disabled exactly at stock 0, with the caption chosen by stock and the added flag |
| QuickView.Preview | components/QuickViewModal.tsx:55-66 | the first three approved reviews of the product, none after a failed fetch |
| QuickView.AverageLabel | components/QuickViewModal.tsx:94-96 | no label exactly when there are no reviews; otherwise the mean to one decimal |
| QuickView.StarRow | components/QuickViewModal.tsx:188-192 | star i filled exactly when i is below the rounded average |
| QuickView.StarRowCount | components/QuickViewModal.tsx:185-197 | the filled stars come first |
| QuickView.ReviewNoun | components/QuickViewModal.tsx:200 | singular exactly for one review |
| QuickView.SoldOutDiscountShownOnlyInModal | components/QuickViewModal.tsx:207-216 | a sold-out discounted product shows its discount in the modal but not on the card |
| QuickView.ModalDiscountBadge | components/QuickViewModal.tsx:207-216 | the modal shows the percentage for any discounted product, in stock or not |
| QuickView.ModalAddButton | components/QuickViewModal.tsx:240-248 | disabled like the card's button, with the modal's captions |
| QuickView.AfterBackdropClick | components/QuickViewModal.tsx:88-92 | a click closes the modal exactly when it lands on the backdrop |
| Dashboard.CountOrZero | app/admin/page.tsx:14-16 | a missing count reads as 0 |
| Dashboard.TotalRevenue | app/admin/page.tsx:23-26 | the sum of the order totals over every order, whatever its status |
| Dashboard.RevenueConcat | app/admin/page.tsx:23-26 | revenue adds up over concatenation |
| Dashboard.RevenuePointwise | app/admin/page.tsx:23-26 | revenue depends only on the order totals |
| Dashboard.RevenueNonNegative | app/admin/page.tsx:23-26 | non-negative totals give non-negative revenue, 0 for no orders |
| Dashboard.CountStatus | app/admin/page.tsx:27-29 | a tally never exceeds the number of orders |
| Dashboard.PendingOrders | app/admin/page.tsx:27-29 | the number of pending orders |
| Dashboard.StatusTalliesSumToTotal | app/admin/page.tsx:27-29 | the five status tallies add up to the number of orders |
| Dashboard.DashboardStats | app/admin/page.tsx:14-29 | the counts or 0; revenue and pending from the orders when they were fetched, 0 otherwise |
| Dashboard.CheckoutAddsToRevenue | app/checkout/page.tsx:74-96 | a checkout that got past the order insert raises the revenue by the cart total and the pending count by one, even when the items insert then fails, since the order row is not rolled back; a checkout stopped by the pre-check or the order insert leaves the orders unchanged |
| Dashboard.CountStatusConcat | app/admin/page.tsx:27-29 | tallies add up over concatenation |
| Dashboard.StatusChangeKeepsRevenue | app/admin/orders/page.tsx:98-101 | a status update, cancellation included, leaves the revenue as it was |
| Hero.Next | components/Hero.tsx:18 | the following slide, wrapping from the last to the first |
| Hero.Prev | components/Hero.tsx:22 | the preceding slide, wrapping from the first to the last |
| Hero.NextPrevInverse | components/Hero.tsx:18-24 | next and previous undo each other |
| Hero.Ticks | components/Hero.tsx:12 | after any number of timer ticks, a valid slide index |
| Hero.TicksAdvance | components/Hero.tsx:12 | k ticks advance the index by k modulo the slide count |
| Hero.ModSuccessor | components/Hero.tsx:12 | one more step of the wrapped counter is the wrapped successor |
| Hero.ModUnique | components/Hero.tsx:12 | a remainder is determined by any quotient-remainder split |
| Hero.FullRoundReturns | components/Hero.tsx:12 | three ticks bring the carousel back to where it was |
| Hero.Opacities | components/Hero.tsx:33 | a slide is opaque exactly when it is current |
| Hero.ExactlyOneVisible | components/Hero.tsx:33 | with a valid current index, exactly one slide is visible |
| Hero.OpacitySum | components/Hero.tsx:33 | one slide is visible for a valid index, none otherwise |
| Hero.ActiveDots | components/Hero.tsx:86 | a dot is wide exactly when its slide is current |
| Hero.SelectDot | components/Hero.tsx:82-93 | clicking dot k shows slide k: afterwards dot k is the only wide, opaque dot, and exactly one slide is visible |
| ImageUpload.Validate | components/ImageUpload.tsx:61-76 | no file, not an image, too large or accepted, each under exactly its condition |
| ImageUpload.SizeBoundary | components/ImageUpload.tsx:66-76 | 10 MiB exactly is accepted and one byte more is not; the MIME test is case-sensitive |
| ImageUpload.Resize | components/ImageUpload.tsx:29-34 | an image wider than 1200 is scaled to width 1200 with its aspect ratio; others keep their size |
| ImageUpload.ResizeIdempotent | components/ImageUpload.tsx:29-34 | resizing twice is resizing once |
| ImageUpload.InitialState | components/ImageUpload.tsx:15 | the preview starts as the current image when it is non-empty |
| ImageUpload.HandleFileSelect | components/ImageUpload.tsx:61-115 | a rejected file changes nothing but the busy flag, which is clear on every path; an upload is reported exactly when the file is accepted and compression and upload succeed, and then the preview is its URL |
| ImageUpload.HandleRemove | components/ImageUpload.tsx:117-120 | the preview clears and the parent is told when it listens |
| Auth.IsAdmin | lib/auth.ts:9-15 | admin exactly when signed in with the metadata flag the boolean true |
| Auth.OnlyBooleanTrueIsAdmin | lib/auth.ts:14 | the string "true", the number 1 or a missing flag do not make an admin |
| Auth.RequireAdmin | lib/auth.ts:17-23 | not an admin gives null; an admin gives the second lookup's user |
| Auth.RequireAdminStableSession | lib/auth.ts:17-23 | with a stable session, the guard returns the user exactly when they are an admin |

## Left out

- ReviewRules.HasUserReviewedProduct: the source reads with `.single()`, which returns null when two or more rows match. The model answers "reviewed" whenever a row exists.
- ReviewRules.GetUserDeliveredOrderForProduct: the source's join and `.limit(1)` are modelled as the first qualifying order in table order.
- Backend ordering (`created_at` descending, `display_order`): modelled as the order of the table sequence.
- Query failures the handlers read as "no rows": a failing eligibility or review-exists query in lib/reviews.ts answers false, and a failing product read in the checkout pre-check is reported as "Product not found". The model derives these answers from the tables and has no failure input for them.
- Wishlist.SyncWithDatabase: a row whose joined product is missing makes the source's mapping throw inside an async action; the model keeps the state unchanged, which is what the store holds afterwards, and does not model the rejected promise.
- Concurrency: every handler is one atomic step. Interleaved sessions, and two checkouts racing on the same stock, are not modelled.
- Number parsing: `parseFloat` and `parseInt` of the product form, and the number-to-text conversion in the edit handler, are inputs.
- Floating point: amounts are exact; `toFixed(2)`, locale and date formatting are not modelled.
- Image compression: canvas drawing, JPEG encoding, integer truncation of the canvas size, FileReader, random file names and `Date.now` are not modelled. The compression and upload outcomes and the public URL are inputs; the compressed size is only logged by the source and is not modelled.
- Timers: the "added" flag reset after two seconds and the carousel interval are modelled as explicit ticks and flags.
- The cart store: its contents and `total()` are inputs. lib/store.ts is not part of this model.
- Product deletion in the admin products page is not modelled; it is a single row delete with a confirm.
- Alerts, loading spinners, empty-list messages, disabled "updating" buttons and status badge classes other than the listed colour maps are presentation only.
- The remaining pages (account, order detail, product detail, wishlist page, debug page), the header, the cart drawer and the setup script are outside the modelled core.
