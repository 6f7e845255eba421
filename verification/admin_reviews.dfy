/** The admin review moderation page: the status-filtered fetch, the per-status counts shown
    on the filter tabs, the approve/reject update, the confirmed delete, and which action
    buttons each review offers. */
module AdminReviews {
  import opened Tables

  /** The filter tabs: every review, or only those of one status. */
  datatype Filter = All | Only(status: ReviewStatus)

  predicate Matches(f: Filter, x: Review)
  {
    f.All? || x.status == f.status
  }

  /** The fetch: the whole table under `all`, otherwise the rows whose status equals the
      filter, in the table's order. */
  function FilterReviews(table: seq<Review>, f: Filter): (r: seq<Review>)
    ensures |r| <= |table|
    ensures forall x :: x in r <==> x in table && Matches(f, x)
    ensures f.All? ==> r == table
  {
    if |table| == 0 then []
    else (if Matches(f, table[0]) then [table[0]] else []) + FilterReviews(table[1..], f)
  }

  /** The page's state: the listed reviews, the loading flag, the selected tab and the id of
      the review being updated. */
  datatype PageState = PageState(reviews: seq<Review>, loading: bool, filter: Filter, updating: Option<Id>)

  /** The page on mount: nothing listed, loading, on the pending tab. */
  const Initial: PageState := PageState([], true, Only(PendingReview), None)

  /** `fetchReviews`: on success the list becomes the filtered table; on an error the previous
      list stays. Loading ends either way. */
  function FetchReviews(s: PageState, table: seq<Review>, fetchOk: bool): (r: PageState)
    ensures !r.loading && r.filter == s.filter && r.updating == s.updating
    ensures fetchOk ==> r.reviews == FilterReviews(table, s.filter)
    ensures !fetchOk ==> r.reviews == s.reviews
  {
    if fetchOk then s.(reviews := FilterReviews(table, s.filter), loading := false)
    else s.(loading := false)
  }

  /** Choosing a tab re-runs the fetch under the new filter. */
  function SelectFilter(s: PageState, f: Filter, table: seq<Review>, fetchOk: bool): (r: PageState)
    ensures r.filter == f && !r.loading
    ensures fetchOk ==> forall x :: x in r.reviews <==> x in table && Matches(f, x)
    ensures !fetchOk ==> r.reviews == s.reviews
  {
    FetchReviews(s.(filter := f), table, fetchOk)
  }

  /** The number of listed reviews with the given status. */
  function CountStatus(rs: seq<Review>, st: ReviewStatus): (c: nat)
    ensures c <= |rs|
  {
    if |rs| == 0 then 0 else (if rs[0].status == st then 1 else 0) + CountStatus(rs[1..], st)
  }

  /** The tab badges. */
  datatype Counts = Counts(all: nat, pending: nat, approved: nat, rejected: nat)

  /** `getFilterCounts`: the list's length and its per-status tallies (computed over the
      listed reviews, so over the filtered list). */
  function FilterCounts(rs: seq<Review>): (c: Counts)
    ensures c.all == |rs|
    ensures c.pending == CountStatus(rs, PendingReview)
    ensures c.approved == CountStatus(rs, Approved)
    ensures c.rejected == CountStatus(rs, Rejected)
  {
    Counts(|rs|, CountStatus(rs, PendingReview), CountStatus(rs, Approved), CountStatus(rs, Rejected))
  }

  /** Every status is one of the three, so the three tallies add up to `all`. */
  lemma {:induction false} CountsSumToAll(rs: seq<Review>)
    ensures var c := FilterCounts(rs); c.pending + c.approved + c.rejected == c.all
  {
    if |rs| > 0 {
      CountsSumToAll(rs[1..]);
    }
  }

  /** In a list of one status only, that status's tally is the length and the others are 0. */
  lemma {:induction false} CountUniform(rs: seq<Review>, st: ReviewStatus, other: ReviewStatus)
    requires forall i :: 0 <= i < |rs| ==> rs[i].status == st
    requires other != st
    ensures CountStatus(rs, st) == |rs|
    ensures CountStatus(rs, other) == 0
  {
    if |rs| > 0 {
      assert forall i :: 0 <= i < |rs[1..]| ==> rs[1..][i].status == st by {
        forall i | 0 <= i < |rs[1..]| ensures rs[1..][i].status == st {
          assert rs[1..][i] == rs[i + 1];
        }
      }
      CountUniform(rs[1..], st, other);
    }
  }

  /** Under a status tab the counts are taken on the filtered list, so only the selected
      status's badge can be nonzero, and it equals `all`. */
  lemma FilteredCountsConcentrate(table: seq<Review>, st: ReviewStatus, other: ReviewStatus)
    requires other != st
    ensures var c := FilterCounts(FilterReviews(table, Only(st)));
            && CountStatus(FilterReviews(table, Only(st)), st) == c.all
            && CountStatus(FilterReviews(table, Only(st)), other) == 0
  {
    var rs := FilterReviews(table, Only(st));
    forall i | 0 <= i < |rs| ensures rs[i].status == st {
      assert rs[i] in rs;
    }
    CountUniform(rs, st, other);
  }

  /** Under `all`, a status's tally is the length of that status's tab list. */
  lemma {:induction false} CountIsFilteredLength(table: seq<Review>, st: ReviewStatus)
    ensures CountStatus(table, st) == |FilterReviews(table, Only(st))|
  {
    if |table| > 0 {
      CountIsFilteredLength(table[1..], st);
    }
  }

  /** The table with the given status and `updated_at` written to the rows with the id. */
  function SetReviewStatus(table: seq<Review>, id: Id, st: ReviewStatus, now: int): (r: seq<Review>)
    ensures |r| == |table|
    ensures forall i :: 0 <= i < |table| && table[i].id == id ==> r[i] == table[i].(status := st, updatedAt := now)
    ensures forall i :: 0 <= i < |table| && table[i].id != id ==> r[i] == table[i]
  {
    if |table| == 0 then []
    else
      [if table[0].id == id then table[0].(status := st, updatedAt := now) else table[0]]
      + SetReviewStatus(table[1..], id, st, now)
  }

  /** The page and the `reviews` table after a moderation step. */
  datatype Moderation = Moderation(page: PageState, table: seq<Review>)

  /** `updateReviewStatus`: writes `approved` or `rejected` (never `pending`) and the update
      time to the review with the id; on success the list is fetched again, on failure
      nothing changes. The busy marker is cleared at the end. */
  function UpdateReviewStatus(s: PageState, table: seq<Review>, id: Id, st: ReviewStatus, now: int,
                              writeOk: bool, refetchOk: bool): (r: Moderation)
    requires st != PendingReview
    ensures r.page.updating.None?
    ensures !writeOk ==> r == Moderation(s.(updating := None), table)
    ensures writeOk ==> r.table == SetReviewStatus(table, id, st, now)
    ensures writeOk && refetchOk ==> r.page.reviews == FilterReviews(r.table, s.filter)
    ensures forall i :: 0 <= i < |r.table| && r.table[i].id == id && writeOk ==> r.table[i].status == st
  {
    if !writeOk then Moderation(s.(updating := None), table)
    else
      var t := SetReviewStatus(table, id, st, now);
      Moderation(FetchReviews(s, t, refetchOk).(updating := None), t)
  }

  /** Moderation never brings a review back to pending: no row leaves a status update as
      pending unless it was pending before, and the pending tally never grows. */
  lemma {:induction false} UpdateNeverAddsPending(table: seq<Review>, id: Id, st: ReviewStatus, now: int)
    requires st != PendingReview
    ensures CountStatus(SetReviewStatus(table, id, st, now), PendingReview) <= CountStatus(table, PendingReview)
    ensures forall i :: 0 <= i < |table| && SetReviewStatus(table, id, st, now)[i].status == PendingReview ==>
      table[i].status == PendingReview && table[i].id != id
  {
    if |table| > 0 {
      UpdateNeverAddsPending(table[1..], id, st, now);
    }
  }

  /** The table without the rows carrying the id, the others in order. */
  function RemoveReview(table: seq<Review>, id: Id): (r: seq<Review>)
    ensures |r| <= |table|
    ensures forall x :: x in r <==> x in table && x.id != id
  {
    if |table| == 0 then []
    else (if table[0].id == id then [] else [table[0]]) + RemoveReview(table[1..], id)
  }

  /** `deleteReview`: without confirmation nothing happens; otherwise the rows with the id are
      deleted and on success the list is fetched again. */
  function DeleteReview(s: PageState, table: seq<Review>, id: Id, confirmed: bool,
                        deleteOk: bool, refetchOk: bool): (r: Moderation)
    ensures !confirmed ==> r == Moderation(s, table)
    ensures confirmed ==> r.page.updating.None?
    ensures confirmed && !deleteOk ==> r == Moderation(s.(updating := None), table)
    ensures confirmed && deleteOk ==> forall x :: x in r.table <==> x in table && x.id != id
    ensures confirmed && deleteOk && refetchOk ==> r.page.reviews == FilterReviews(r.table, s.filter)
  {
    if !confirmed then Moderation(s, table)
    else if !deleteOk then Moderation(s.(updating := None), table)
    else
      var t := RemoveReview(table, id);
      Moderation(FetchReviews(s, t, refetchOk).(updating := None), t)
  }

  /** The buttons next to a review. */
  datatype Action = Approve | Reject | Delete

  /** The status an action writes, or None for delete. */
  function Target(a: Action): Option<ReviewStatus>
  {
    match a
    case Approve => Some(Approved)
    case Reject => Some(Rejected)
    case Delete => None
  }

  /** The buttons a review offers: approve and reject when pending, approve when rejected,
      reject when approved, and delete always. */
  function Actions(st: ReviewStatus): (r: seq<Action>)
    ensures Delete in r
    ensures Approve in r <==> st != Approved
    ensures Reject in r <==> st != Rejected
  {
    match st
    case PendingReview => [Approve, Reject, Delete]
    case Rejected => [Approve, Delete]
    case Approved => [Reject, Delete]
  }

  /** Every offered status button changes the status and none targets pending. */
  lemma OfferedActionsMove(st: ReviewStatus, a: Action)
    requires a in Actions(st) && Target(a).Some?
    ensures Target(a).value != st && Target(a).value != PendingReview
  {
  }

  /** Approving then rejecting the same review leaves it rejected; rows with other ids keep
      their contents through both writes. */
  lemma ApproveThenReject(table: seq<Review>, id: Id, t1: int, t2: int)
    ensures var r := SetReviewStatus(SetReviewStatus(table, id, Approved, t1), id, Rejected, t2);
            forall i :: 0 <= i < |table| ==>
              r[i] == (if table[i].id == id then table[i].(status := Rejected, updatedAt := t2) else table[i])
  {
  }
}
