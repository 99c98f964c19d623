/** The review handlers (`controllers/reviewController.js`): submitting a review
    of a booking, the reviews of a mechanic page by page, the caller's own
    reviews, and deleting a review. Submitting and deleting recompute the
    mechanic's rating aggregate from all of its reviews. */
module ReviewController {
  import opened Wrappers
  import opened Js
  import opened Docs
  import opened Response
  import opened UserModel
  import opened MechanicModel
  import opened ServiceRequestModel
  import opened BookingModel
  import opened ReviewModel
  import opened Database

  datatype Pagination = Pagination(total: nat, page: int, pages: Option<int>)

  datatype ReviewData =
    | Submitted(id: Id, rating: int)
    | ReviewPage(reviews: seq<Doc<Review>>, pagination: Pagination)
    | Reviews(list: seq<Doc<Review>>)

  const MissingFields := "Please provide all required fields"

  // ---------------------------------------------------------------------------
  // The rating aggregate

  function SumRatings(rs: seq<Doc<Review>>): int {
    if rs == [] then 0 else rs[0].fields.rating + SumRatings(rs[1..])
  }

  /** The nearest integer to `num / den`, halves rounded up (`Math.round`). */
  function RoundHalfUp(num: int, den: int): int
    requires den > 0
  {
    (2 * num + den) / (2 * den)
  }

  /** `RoundHalfUp` is within half a unit of the quotient, and a half goes up. */
  lemma RoundHalfUpNearest(num: int, den: int)
    requires den > 0
    ensures var r := RoundHalfUp(num, den); -den <= 2 * num - 2 * r * den < den
  {
    var r := RoundHalfUp(num, den);
    assert 2 * den * r <= 2 * num + den < 2 * den * r + 2 * den;
  }

  lemma MulLe(x: int, y: int, b: nat)
    requires x <= y
    ensures x * b <= y * b
  {
    assert y * b - x * b == (y - x) * b;
  }

  lemma DivAtLeast(a: int, b: int, q: int)
    requires b > 0 && q * b <= a
    ensures q <= a / b
  {
    var d := a / b;
    assert d * b + a % b == a && a % b < b;
    if d < q {
      MulLe(d + 1, q, b);
      assert false;
    }
  }

  lemma DivAtMost(a: int, b: int, q: int)
    requires b > 0 && a < (q + 1) * b
    ensures a / b <= q
  {
    var d := a / b;
    assert d * b + a % b == a && 0 <= a % b;
    if d > q {
      MulLe(q + 1, d, b);
      assert false;
    }
  }

  /** A quotient between one and five rounds to a value between one and five. */
  lemma RoundHalfUpBetween(num: int, den: int)
    requires den > 0 && 10 * den <= num <= 50 * den
    ensures 10 <= RoundHalfUp(num, den) <= 50
  {
    DivAtLeast(2 * num + den, 2 * den, 10);
    DivAtMost(2 * num + den, 2 * den, 50);
  }

  /** `totalRating` as the handlers store it, in tenths of a star:
      `Math.round(average * 10) / 10`, and 0 when there is no review. */
  function AverageTenths(rs: seq<Doc<Review>>): (r: int)
    ensures rs == [] ==> r == 0
    ensures rs != [] ==> -|rs| <= 2 * (10 * SumRatings(rs)) - 2 * r * |rs| < |rs|
  {
    if rs == [] then 0
    else
      RoundHalfUpNearest(10 * SumRatings(rs), |rs|);
      RoundHalfUp(10 * SumRatings(rs), |rs|)
  }

  ghost predicate AllInRange(rs: seq<Doc<Review>>) {
    forall i :: 0 <= i < |rs| ==> RatingInRange(rs[i].fields)
  }

  lemma {:induction false} SumRatingsBounds(rs: seq<Doc<Review>>)
    requires AllInRange(rs)
    ensures MinRating * |rs| <= SumRatings(rs) <= MaxRating * |rs|
  {
    if rs != [] {
      assert AllInRange(rs[1..]) by {
        forall i | 0 <= i < |rs[1..]| ensures RatingInRange(rs[1..][i].fields) {
          assert rs[1..][i] == rs[i + 1];
        }
      }
      SumRatingsBounds(rs[1..]);
      assert RatingInRange(rs[0].fields);
    }
  }

  /** The aggregate of one-to-five-star reviews is between one and five stars,
      so the profile's aggregate stays consistent. */
  lemma AverageInRange(rs: seq<Doc<Review>>)
    requires AllInRange(rs)
    ensures rs == [] ==> AverageTenths(rs) == 0
    ensures rs != [] ==> 10 * MinRating <= AverageTenths(rs) <= 10 * MaxRating
  {
    if rs != [] {
      SumRatingsBounds(rs);
      RoundHalfUpBetween(10 * SumRatings(rs), |rs|);
    }
  }

  /** The profile `mechanicId`, if there is one, takes the aggregate of the
      mechanic's reviews in `reviews` (`Mechanic.findByIdAndUpdate`); an
      unknown id changes nothing. */
  function Rerate(mechanics: seq<Doc<Mechanic>>, mechanicId: Id, reviews: seq<Doc<Review>>): (r: seq<Doc<Mechanic>>)
    ensures |r| == |mechanics|
    ensures Fresh(mechanics, mechanicId) ==> r == mechanics
    ensures forall k :: 0 <= k < |r| && k != Find(mechanics, mechanicId).GetOr(|r|) ==> r[k] == mechanics[k]
    ensures Find(mechanics, mechanicId).Some? ==>
      var i := Find(mechanics, mechanicId).value;
      var mine := Filter(reviews, ReviewOf(mechanicId));
      && r[i].id == mechanics[i].id
      && r[i].fields == mechanics[i].fields.(totalRating := AverageTenths(mine), totalReviews := |mine|)
  {
    match Find(mechanics, mechanicId)
    case None => mechanics
    case Some(i) =>
      var mine := Filter(reviews, ReviewOf(mechanicId));
      var m := mechanics[i];
      mechanics[i := m.(fields := m.fields.(totalRating := AverageTenths(mine), totalReviews := |mine|))]
  }

  /** Recomputing from in-range reviews keeps every profile's guarantees. */
  lemma RerateOk(mechanics: seq<Doc<Mechanic>>, mechanicId: Id, reviews: seq<Doc<Review>>)
    requires MechanicsOk(mechanics) && AllInRange(reviews)
    ensures MechanicsOk(Rerate(mechanics, mechanicId, reviews))
  {
    match Find(mechanics, mechanicId)
    case None =>
    case Some(i) =>
      var mine := Filter(reviews, ReviewOf(mechanicId));
      assert AllInRange(mine) by {
        forall k | 0 <= k < |mine| ensures RatingInRange(mine[k].fields) {
          var j :| 0 <= j < |reviews| && reviews[j] == mine[k];
        }
      }
      AverageInRange(mine);
      var r := Rerate(mechanics, mechanicId, reviews);
      assert RatingConsistent(r[i].fields);
      assert r == mechanics[i := r[i]];
      MechanicUpdateOk(mechanics, i, r[i]);
  }

  /** The request, if there is one, becomes completed at `now`. */
  function CompleteRequest(requests: seq<Doc<ServiceRequest>>, requestId: Id, now: int): (r: seq<Doc<ServiceRequest>>)
    ensures |r| == |requests|
    ensures forall k :: 0 <= k < |r| ==> r[k].id == requests[k].id
    ensures Fresh(requests, requestId) ==> r == requests
    ensures forall k :: 0 <= k < |r| && requests[k].id != requestId ==> r[k] == requests[k]
    ensures Find(requests, requestId).Some? ==> var i := Find(requests, requestId).value;
      r[i].fields == requests[i].fields.(status := ServiceRequestModel.Completed, completedAt := Some(now))
  {
    match Find(requests, requestId)
    case None => requests
    case Some(i) =>
      var q := requests[i];
      requests[i := q.(fields := q.fields.(status := ServiceRequestModel.Completed, completedAt := Some(now)))]
  }

  // ---------------------------------------------------------------------------
  // submitReview

  function ForBooking(bookingId: Id): Doc<Review> -> bool {
    (v: Doc<Review>) => v.fields.bookingId == bookingId
  }

  /** `Review.create` and the aggregate update that follows it. */
  method AddReview(db: Db, review: Doc<Review>)
    requires db.Valid() && RatingInRange(review.fields)
    requires forall k :: 0 <= k < |db.reviews| ==> db.reviews[k].id != review.id && db.reviews[k].fields.bookingId != review.fields.bookingId
    modifies db`reviews, db`mechanics
    ensures db.Valid()
    ensures db.reviews == old(db.reviews) + [review]
    ensures db.mechanics == Rerate(old(db.mechanics), review.fields.mechanicId, db.reviews)
  {
    AppendKeepsUnique(db.reviews, review, IdOf);
    AppendKeepsUnique(db.reviews, review, BookingOf);
    db.reviews := db.reviews + [review];
    RerateOk(db.mechanics, review.fields.mechanicId, db.reviews);
    db.mechanics := Rerate(db.mechanics, review.fields.mechanicId, db.reviews);
  }

  /** `ServiceRequest.findByIdAndUpdate(id, { status: 'completed', completedAt })`. */
  method CompleteLinkedRequest(db: Db, requestId: Id, now: int)
    requires db.Valid()
    modifies db`requests
    ensures db.Valid()
    ensures db.requests == CompleteRequest(old(db.requests), requestId, now)
  {
    var completed := CompleteRequest(db.requests, requestId, now);
    assert UniqueBy(completed, IdOf) by {
      forall a, c | 0 <= a < c < |completed| ensures completed[a].id != completed[c].id {
        assert completed[a].id == db.requests[a].id && completed[c].id == db.requests[c].id;
      }
    }
    db.requests := completed;
  }

  /** The answer `submitReview` refuses with, in the order it checks: a missing
      field, a rating out of range, a booking that does not exist or is someone
      else's (the same 403 for both), a booking already reviewed. None when
      the review is accepted. */
  function SubmitRefusal(bookings: seq<Doc<Booking>>, reviews: seq<Doc<Review>>, me: Doc<User>,
                         mechanicId: Option<Id>, bookingId: Option<Id>, rating: Option<int>,
                         title: Option<string>, comment: Option<string>): (r: Option<Reply<ReviewData>>)
    ensures r.None? <==>
      && HasText(mechanicId) && HasText(bookingId) && NonZero(rating) && HasText(title) && HasText(comment)
      && MinRating <= rating.value <= MaxRating
      && Find(bookings, bookingId.value).Some? && bookings[Find(bookings, bookingId.value).value].fields.userId == me.id
      && forall k :: 0 <= k < |reviews| ==> reviews[k].fields.bookingId != bookingId.value
    ensures !HasText(mechanicId) || !HasText(bookingId) || !NonZero(rating) || !HasText(title) || !HasText(comment) ==>
      r == Some(ErrorResponse(400, MissingFields))
    ensures r.Some? ==> r.value.status in {400, 403} && !r.value.body.Succeeded()
    ensures r.Some? && r.value.status == 403 <==>
      && HasText(mechanicId) && HasText(bookingId) && NonZero(rating) && HasText(title) && HasText(comment)
      && MinRating <= rating.value <= MaxRating
      && (Fresh(bookings, bookingId.value) || bookings[Find(bookings, bookingId.value).value].fields.userId != me.id)
  {
    if !HasText(mechanicId) || !HasText(bookingId) || !NonZero(rating) || !HasText(title) || !HasText(comment) then
      Some(ErrorResponse(400, MissingFields))
    else if rating.value < MinRating || rating.value > MaxRating then
      Some(ErrorResponse(400, "Rating must be between 1 and 5"))
    else
      var found := Find(bookings, bookingId.value);
      if found.None? || bookings[found.value].fields.userId != me.id then
        Some(ErrorResponse(403, "Unauthorized to review this booking"))
      else if FindFirst(reviews, ForBooking(bookingId.value)).Some? then
        Some(ErrorResponse(400, "Review already submitted for this booking"))
      else None
  }

  /** `submitReview`. The body's `mechanicId` is not compared with the
      booking's: the review and the new aggregate go to whatever mechanic the
      body names. A booking tied to a service request completes that request. */
  method SubmitReview(db: Db, me: Doc<User>, mechanicId: Option<Id>, bookingId: Option<Id>, rating: Option<int>,
                      title: Option<string>, comment: Option<string>, newId: Id, now: int) returns (r: Reply<ReviewData>)
    requires db.Valid() && Fresh(db.reviews, newId)
    modifies db`reviews, db`mechanics, db`requests
    ensures db.Valid()
    ensures var refusal := SubmitRefusal(db.bookings, old(db.reviews), me, mechanicId, bookingId, rating, title, comment);
      refusal.Some? ==>
        r == refusal.value && db.reviews == old(db.reviews) && db.mechanics == old(db.mechanics) && db.requests == old(db.requests)
    ensures var refusal := SubmitRefusal(db.bookings, old(db.reviews), me, mechanicId, bookingId, rating, title, comment);
      refusal.None? ==>
        var b := db.bookings[Find(db.bookings, bookingId.value).value];
        && db.reviews == old(db.reviews) + [Doc(newId, now, Review(me.id, mechanicId.value, bookingId.value, rating.value,
                                                                  title.value, comment.value, true))]
        && db.mechanics == Rerate(old(db.mechanics), mechanicId.value, db.reviews)
        && (HasText(b.fields.serviceRequestId) ==> db.requests == CompleteRequest(old(db.requests), b.fields.serviceRequestId.value, now))
        && (!HasText(b.fields.serviceRequestId) ==> db.requests == old(db.requests))
        && r == SuccessResponse(201, "Review submitted successfully", Some(Submitted(newId, rating.value)))
  {
    var refusal := SubmitRefusal(db.bookings, db.reviews, me, mechanicId, bookingId, rating, title, comment);
    if refusal.Some? {
      return refusal.value;
    }
    var b := db.bookings[Find(db.bookings, bookingId.value).value];
    var review := Doc(newId, now, Review(me.id, mechanicId.value, bookingId.value, rating.value, title.value, comment.value, true));
    assert forall k :: 0 <= k < |db.reviews| ==> db.reviews[k].id != newId && db.reviews[k].fields.bookingId != bookingId.value;
    AddReview(db, review);
    if HasText(b.fields.serviceRequestId) {
      CompleteLinkedRequest(db, b.fields.serviceRequestId.value, now);
    }
    r := SuccessResponse(201, "Review submitted successfully", Some(Submitted(newId, rating.value)));
  }

  /** After a review is submitted, the named mechanic's aggregate counts it:
      one review more than before. */
  lemma SubmitCountsReview(reviews: seq<Doc<Review>>, review: Doc<Review>)
    ensures Filter(reviews + [review], ReviewOf(review.fields.mechanicId))
         == Filter(reviews, ReviewOf(review.fields.mechanicId)) + [review]
  {
    FilterAppend(reviews, review, ReviewOf(review.fields.mechanicId));
  }

  lemma {:induction false} FilterAppend<T>(s: seq<T>, x: T, p: T -> bool)
    ensures Filter(s + [x], p) == Filter(s, p) + (if p(x) then [x] else [])
  {
    if s != [] {
      assert (s + [x])[1..] == s[1..] + [x];
      FilterAppend(s[1..], x, p);
    }
  }

  // ---------------------------------------------------------------------------
  // getMechanicReviews

  /** `getMechanicReviews`: page `page` of `limit` reviews of the mechanic,
      newest first, with the total and the page count. A page before the first
      (a negative skip) is refused by the store. A limit of 0 returns every
      review from the skip on, and its page count is not a number. */
  function GetMechanicReviews(db: Db, mechanicId: Id, page: int := 1, limit: int := 10): (r: Reply<ReviewData>)
    reads db`reviews
    ensures (page - 1) * limit < 0 <==> r == ServerError("Failed to fetch reviews: ", NegativeSkip)
    ensures (page - 1) * limit >= 0 ==>
      var mine := SortDesc(Filter(db.reviews, ReviewOf(mechanicId)), CreatedAt);
      && r.status == 200 && r.body.Success? && r.body.data.Some? && r.body.data.value.ReviewPage?
      && r.body.data.value.reviews == Page(mine, (page - 1) * limit, limit)
      && r.body.data.value.pagination == Pagination(Count(db.reviews, ReviewOf(mechanicId)), page,
                                                    CeilDiv(Count(db.reviews, ReviewOf(mechanicId)), limit))
  {
    var skip := (page - 1) * limit;
    if skip < 0 then ServerError("Failed to fetch reviews: ", NegativeSkip)
    else
      var mine := Filter(db.reviews, ReviewOf(mechanicId));
      SuccessResponse(200, "Reviews fetched",
                      Some(ReviewPage(Page(SortDesc(mine, CreatedAt), skip, limit), Pagination(|mine|, page, CeilDiv(|mine|, limit)))))
  }

  /** With a positive limit, consecutive pages take consecutive slices of the
      newest-first list, no page is longer than the limit, and the page count
      covers every review. */
  lemma ReviewPagesCover(db: Db, mechanicId: Id, page: int, limit: int)
    requires page >= 1 && limit > 0
    ensures var d := GetMechanicReviews(db, mechanicId, page, limit).body.data.value;
      var mine := SortDesc(Filter(db.reviews, ReviewOf(mechanicId)), CreatedAt);
      && |d.reviews| <= limit
      && (forall i :: 0 <= i < |d.reviews| ==> d.reviews[i] == mine[(page - 1) * limit + i])
      && (d.pagination.pages.value - 1) * limit < d.pagination.total <= d.pagination.pages.value * limit
  {
    var skip := (page - 1) * limit;
    MulLe(0, page - 1, limit);
    var d := GetMechanicReviews(db, mechanicId, page, limit).body.data.value;
    assert d.pagination.pages == CeilDiv(Count(db.reviews, ReviewOf(mechanicId)), limit);
  }

  // ---------------------------------------------------------------------------
  // getUserReviews

  function WrittenBy(userId: Id): Doc<Review> -> bool {
    (v: Doc<Review>) => v.fields.userId == userId
  }

  /** `getUserReviews`: exactly the caller's reviews, newest first. */
  function GetUserReviews(db: Db, me: Doc<User>): (r: Reply<ReviewData>)
    reads db`reviews
    ensures r.status == 200 && r.body.Success? && r.body.data.Some? && r.body.data.value.Reviews?
    ensures Descending(r.body.data.value.list, CreatedAt)
    ensures multiset(r.body.data.value.list) == multiset(Filter(db.reviews, WrittenBy(me.id)))
  {
    SuccessResponse(200, "Your reviews fetched", Some(Reviews(SortDesc(Filter(db.reviews, WrittenBy(me.id)), CreatedAt))))
  }

  // ---------------------------------------------------------------------------
  // deleteReview

  /** `deleteReview`: the author may delete a review; the reviewed mechanic's
      aggregate is recomputed from the reviews that remain (0 and 0 when none do). */
  method DeleteReview(db: Db, me: Doc<User>, reviewId: Id) returns (r: Reply<ReviewData>)
    requires db.Valid()
    modifies db`reviews, db`mechanics
    ensures db.Valid()
    ensures match Find(old(db.reviews), reviewId)
      case None => r == ErrorResponse(404, "Review not found") && db.reviews == old(db.reviews) && db.mechanics == old(db.mechanics)
      case Some(i) =>
        var v := old(db.reviews)[i];
        if v.fields.userId != me.id then
          r == ErrorResponse(403, "Unauthorized to delete this review")
          && db.reviews == old(db.reviews) && db.mechanics == old(db.mechanics)
        else
          && db.reviews == RemoveAt(old(db.reviews), i)
          && db.mechanics == Rerate(old(db.mechanics), v.fields.mechanicId, db.reviews)
          && r == SuccessResponse(200, "Review deleted successfully")
  {
    var found := Find(db.reviews, reviewId);
    if found.None? {
      return ErrorResponse(404, "Review not found");
    }
    var i := found.value;
    var v := db.reviews[i];
    if v.fields.userId != me.id {
      return ErrorResponse(403, "Unauthorized to delete this review");
    }
    RemoveReviewOk(db.reviews, i);
    db.reviews := RemoveAt(db.reviews, i);
    RerateOk(db.mechanics, v.fields.mechanicId, db.reviews);
    db.mechanics := Rerate(db.mechanics, v.fields.mechanicId, db.reviews);
    r := SuccessResponse(200, "Review deleted successfully");
  }

  /** Deleting a review keeps the unique indexes and the rating range. */
  lemma RemoveReviewOk(reviews: seq<Doc<Review>>, i: nat)
    requires i < |reviews| && AllInRange(reviews)
    requires UniqueBy(reviews, IdOf) && UniqueBy(reviews, BookingOf)
    ensures AllInRange(RemoveAt(reviews, i))
    ensures UniqueBy(RemoveAt(reviews, i), IdOf) && UniqueBy(RemoveAt(reviews, i), BookingOf)
  {
    RemoveKeepsUnique(reviews, i, IdOf);
    RemoveKeepsUnique(reviews, i, BookingOf);
    var rest := RemoveAt(reviews, i);
    forall k | 0 <= k < |rest| ensures RatingInRange(rest[k].fields) {
      assert rest[k] == reviews[if k < i then k else k + 1];
    }
  }

  /** Recomputing a profile's aggregate twice keeps only the second:
      the profile ends as one recomputation over the later reviews leaves it. */
  lemma RerateTwice(mechanics: seq<Doc<Mechanic>>, mechanicId: Id, before: seq<Doc<Review>>, after: seq<Doc<Review>>)
    ensures Rerate(Rerate(mechanics, mechanicId, before), mechanicId, after) == Rerate(mechanics, mechanicId, after)
  {
    match Find(mechanics, mechanicId)
    case None =>
    case Some(i) =>
      var once := Rerate(mechanics, mechanicId, before);
      assert once == mechanics[i := once[i]];
      FindFirstUpdate(mechanics, HasId(mechanicId), i, once[i]);
      assert Find(once, mechanicId) == Some(i);
  }

  lemma FindAppended<T>(s: seq<Doc<T>>, x: Doc<T>)
    requires Fresh(s, x.id)
    ensures Find(s + [x], x.id) == Some(|s|)
  {
    var t := s + [x];
    assert t[|s|].id == x.id;
  }

  lemma RemoveLast<T>(s: seq<T>, x: T)
    ensures RemoveAt(s + [x], |s|) == s
  {
    assert (s + [x])[..|s|] == s;
  }

  /** Submitting a review and then deleting it: the new review sits last, where
      `findById` finds it when its id is new; while it exists the mechanic's
      aggregate counts one review more, and once it is deleted the profile is
      the one the earlier reviews alone give, their average and their count. */
  lemma DeleteUndoesSubmit(mechanics: seq<Doc<Mechanic>>, reviews: seq<Doc<Review>>, review: Doc<Review>)
    ensures Fresh(reviews, review.id) ==> Find(reviews + [review], review.id) == Some(|reviews|)
    ensures RemoveAt(reviews + [review], |reviews|) == reviews
    ensures
      var m := review.fields.mechanicId;
      var submitted := Rerate(mechanics, m, reviews + [review]);
      Rerate(submitted, m, RemoveAt(reviews + [review], |reviews|)) == Rerate(mechanics, m, reviews)
    ensures
      var m := review.fields.mechanicId;
      var mine := Filter(reviews, ReviewOf(m));
      Find(mechanics, m).Some? ==>
        var i := Find(mechanics, m).value;
        && Rerate(mechanics, m, reviews + [review])[i].fields.totalReviews == |mine| + 1
        && Rerate(mechanics, m, reviews + [review])[i].fields.totalRating == AverageTenths(mine + [review])
        && Rerate(mechanics, m, reviews)[i].fields.totalReviews == |mine|
        && Rerate(mechanics, m, reviews)[i].fields.totalRating == AverageTenths(mine)
  {
    var all := reviews + [review];
    if Fresh(reviews, review.id) {
      FindAppended(reviews, review);
    }
    RemoveLast(reviews, review);
    SubmitCountsReview(reviews, review);
    RerateTwice(mechanics, review.fields.mechanicId, all, reviews);
  }
}
