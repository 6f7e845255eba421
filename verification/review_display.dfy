/** The public review panel of a product: the approved reviews of the product, their count,
    the average rounded to one decimal, the per-star histogram, masked user ids and the
    five-star rendering. */
module ReviewDisplay {
  import opened Tables
  import opened Numbers

  /** The fetch: the reviews of the product whose status is `approved`, in table order. */
  function ApprovedOf(reviews: seq<Review>, productId: Id): (r: seq<Review>)
    ensures |r| <= |reviews|
    ensures forall x :: x in r <==> x in reviews && x.productId == productId && x.status == Approved
  {
    if |reviews| == 0 then []
    else
      (if reviews[0].productId == productId && reviews[0].status == Approved then [reviews[0]] else [])
      + ApprovedOf(reviews[1..], productId)
  }

  function SumRatings(rs: seq<Review>): int
  {
    if |rs| == 0 then 0 else rs[0].rating + SumRatings(rs[1..])
  }

  predicate RatingsInRange(rs: seq<Review>)
  {
    forall i :: 0 <= i < |rs| ==> 1 <= rs[i].rating <= 5
  }

  /** With ratings in 1..5 the sum lies between |rs| and 5|rs|. */
  lemma {:induction false} SumRatingsBounds(rs: seq<Review>)
    requires RatingsInRange(rs)
    ensures |rs| <= SumRatings(rs) <= 5 * |rs|
  {
    if |rs| > 0 {
      assert RatingsInRange(rs[1..]) by {
        forall i | 0 <= i < |rs[1..]| ensures 1 <= rs[1..][i].rating <= 5 {
          assert rs[1..][i] == rs[i + 1];
        }
      }
      SumRatingsBounds(rs[1..]);
    }
  }

  /** The mean rating as an exact rational; 0 for no reviews. */
  function Mean(rs: seq<Review>): (m: real)
    ensures |rs| == 0 ==> m == 0.0
    ensures |rs| > 0 ==> m * |rs| as real == SumRatings(rs) as real
  {
    if |rs| == 0 then 0.0 else SumRatings(rs) as real / |rs| as real
  }

  /** `Math.round(avg * 10) / 10`, or 0 when there are no reviews: within 0.05 of the mean,
      a whole number of tenths. */
  function AverageRating(rs: seq<Review>): (avg: real)
    ensures |rs| == 0 ==> avg == 0.0
    ensures |rs| > 0 ==> Mean(rs) - 0.05 < avg <= Mean(rs) + 0.05
    ensures (avg * 10.0).Floor as real == avg * 10.0
  {
    if |rs| == 0 then 0.0
    else
      var n := MathRound(Mean(rs) * 10.0);
      assert (n as real).Floor == n;
      Tenths(n)
  }

  /** A quotient of a value between lo·n and hi·n by a positive n lies between lo and hi. */
  lemma QuotientBounds(a: real, n: real, lo: real, hi: real)
    requires n > 0.0 && lo * n <= a <= hi * n
    ensures lo <= a / n <= hi
  {
  }

  /** With every rating in 1..5, a non-empty list averages within [1, 5]. */
  lemma AverageInRange(rs: seq<Review>)
    requires RatingsInRange(rs) && |rs| > 0
    ensures 1.0 <= AverageRating(rs) <= 5.0
  {
    SumRatingsBounds(rs);
    var m := Mean(rs);
    QuotientBounds(SumRatings(rs) as real, |rs| as real, 1.0, 5.0);
    MathRoundMonotone(10.0, m * 10.0);
    MathRoundMonotone(m * 10.0, 50.0);
    MathRoundOfInteger(10);
    MathRoundOfInteger(50);
  }

  /** The panel's state. */
  datatype DisplayState = DisplayState(reviews: seq<Review>, averageRating: real, totalReviews: int, loading: bool)

  /** `fetchReviews`: on success, the approved reviews of the product, their count and their
      rounded average; on a fetch error the previous list and figures stay. */
  function FetchReviews(s: DisplayState, table: seq<Review>, productId: Id, fetchOk: bool): (r: DisplayState)
    ensures !r.loading
    ensures !fetchOk ==> r == s.(loading := false)
    ensures fetchOk ==>
      && r.reviews == ApprovedOf(table, productId)
      && r.totalReviews == |r.reviews|
      && r.averageRating == AverageRating(r.reviews)
  {
    if !fetchOk then s.(loading := false)
    else
      var rs := ApprovedOf(table, productId);
      DisplayState(rs, AverageRating(rs), |rs|, false)
  }

  /** The summary shows the average when it is positive and "No ratings" otherwise. */
  function ShowsAverage(s: DisplayState): bool
  {
    s.averageRating > 0.0
  }

  /** After a successful fetch with ratings in 1..5, the average is shown iff some approved review exists. */
  lemma AverageShownIffReviewed(s: DisplayState, table: seq<Review>, productId: Id)
    requires forall x :: x in table ==> 1 <= x.rating <= 5
    ensures ShowsAverage(FetchReviews(s, table, productId, true)) <==> |ApprovedOf(table, productId)| > 0
  {
    var rs := ApprovedOf(table, productId);
    if |rs| > 0 {
      assert RatingsInRange(rs) by {
        forall i | 0 <= i < |rs| ensures 1 <= rs[i].rating <= 5 {
          assert rs[i] in rs;
        }
      }
      AverageInRange(rs);
    }
  }

  /** The number of reviews with rating `star`. */
  function Bucket(rs: seq<Review>, star: int): (c: nat)
    ensures c <= |rs|
  {
    if |rs| == 0 then 0 else (if rs[0].rating == star then 1 else 0) + Bucket(rs[1..], star)
  }

  /** The histogram rows, for 5★ down to 1★. */
  function Histogram(rs: seq<Review>): (h: seq<nat>)
    ensures |h| == 5
    ensures forall k :: 0 <= k < 5 ==> h[k] == Bucket(rs, 5 - k)
  {
    [Bucket(rs, 5), Bucket(rs, 4), Bucket(rs, 3), Bucket(rs, 2), Bucket(rs, 1)]
  }

  /** With ratings in 1..5 the five buckets add up to the total. */
  lemma {:induction false} HistogramSumsToTotal(rs: seq<Review>)
    requires RatingsInRange(rs)
    ensures var h := Histogram(rs); h[0] + h[1] + h[2] + h[3] + h[4] == |rs|
  {
    if |rs| > 0 {
      assert RatingsInRange(rs[1..]) by {
        forall i | 0 <= i < |rs[1..]| ensures 1 <= rs[1..][i].rating <= 5 {
          assert rs[1..][i] == rs[i + 1];
        }
      }
      HistogramSumsToTotal(rs[1..]);
    }
  }

  /** `maskUserId`: the first 8 characters (fewer if the id is shorter) followed by "***". */
  function MaskUserId(userId: string): (r: string)
    ensures |userId| >= 8 ==> |r| == 11
    ensures |userId| < 8 ==> |r| == |userId| + 3
    ensures r[|r| - 3..] == "***"
    ensures r[..|r| - 3] == userId[..|r| - 3]
  {
    var head := if |userId| >= 8 then userId[..8] else userId;
    head + "***"
  }

  /** `renderStars`: star k (1-based) is filled iff k <= rating. */
  function RenderStars(rating: real): (stars: seq<bool>)
    ensures |stars| == 5
    ensures forall k :: 0 <= k < 5 ==> (stars[k] <==> (k + 1) as real <= rating)
  {
    seq(5, k => (k + 1) as real <= rating)
  }

  function CountFilled(stars: seq<bool>): nat
  {
    if |stars| == 0 then 0 else (if stars[0] then 1 else 0) + CountFilled(stars[1..])
  }

  /** When exactly the stars below index c are filled, their number is c clamped to the length. */
  lemma {:induction false} CountFilledThreshold(stars: seq<bool>, c: int)
    requires forall k :: 0 <= k < |stars| ==> (stars[k] <==> k < c)
    ensures CountFilled(stars) == if c < 0 then 0 else if c > |stars| then |stars| else c
  {
    if |stars| > 0 {
      forall k | 0 <= k < |stars[1..]| ensures stars[1..][k] <==> k < c - 1 {
        assert stars[1..][k] == stars[k + 1];
      }
      CountFilledThreshold(stars[1..], c - 1);
    }
  }

  /** The filled stars come first, and there are as many as the rating's whole part
      clamped to 0..5. */
  lemma RenderStarsCount(rating: real)
    ensures forall j, k :: 0 <= j < k < 5 && RenderStars(rating)[k] ==> RenderStars(rating)[j]
    ensures CountFilled(RenderStars(rating)) ==
      if rating.Floor < 0 then 0 else if rating.Floor > 5 then 5 else rating.Floor
  {
    var st := RenderStars(rating);
    forall k | 0 <= k < 5 ensures st[k] <==> k < rating.Floor {
      assert st[k] <==> (k + 1) as real <= rating;
    }
    CountFilledThreshold(st, rating.Floor);
  }
}
