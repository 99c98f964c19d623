/** The mechanic's handlers (`controllers/mechanicController.js`): the public
    profile, and, for the caller's own profile, the dashboard, availability,
    accepting a request, the booking list and completing a booking. Each of the
    latter answers 403 unless the caller's role is mechanic; the caller's profile
    is the mechanic document whose `userId` is the caller. */
module MechanicController {
  import opened Wrappers
  import opened Docs
  import opened Response
  import opened UserModel
  import opened MechanicModel
  import opened ServiceRequestModel
  import opened BookingModel
  import opened ReviewModel
  import opened Database

  datatype DashboardView = DashboardView(
    name: string,
    email: string,
    phone: string,
    isVerified: bool,
    isAvailable: bool,
    skills: seq<Skill>,
    rating: int,
    reviews: int,
    totalJobs: int,
    totalEarnings: int)

  datatype MechanicData =
    | Profile(mechanic: Doc<Mechanic>, recentReviews: seq<Doc<Review>>)
    | Dashboard(view: DashboardView, todaysJobs: nat, pendingRequests: nat, recentReviews: seq<Doc<Review>>)
    | Availability(isAvailable: bool)
    | AcceptedRequest(id: Id, status: RequestStatus)
    | Bookings(bookings: seq<Doc<Booking>>)
    | BookingState(bookingStatus: BookingStatus)

  const NotAMechanic := "Forbidden: Not a mechanic"
  const RecentReviewCount := 5

  /** The five newest reviews of a mechanic. */
  function RecentReviews(reviews: seq<Doc<Review>>, mechanicId: Id): (r: seq<Doc<Review>>)
    ensures |r| <= RecentReviewCount && Descending(r, CreatedAt)
    ensures forall i :: 0 <= i < |r| ==> r[i] in reviews && r[i].fields.mechanicId == mechanicId
  {
    Newest(Filter(reviews, ReviewOf(mechanicId)), CreatedAt, RecentReviewCount)
  }

  /** A review of the mechanic missing from its recent reviews is older than
      every one shown, and it is missing only when five are shown. */
  lemma RecentReviewsAreNewest(reviews: seq<Doc<Review>>, mechanicId: Id, x: Doc<Review>)
    requires x in reviews && x.fields.mechanicId == mechanicId && x !in RecentReviews(reviews, mechanicId)
    ensures |RecentReviews(reviews, mechanicId)| == RecentReviewCount
    ensures forall i :: 0 <= i < RecentReviewCount ==> RecentReviews(reviews, mechanicId)[i].createdAt >= x.createdAt
  {
    var mine := Filter(reviews, ReviewOf(mechanicId));
    assert x in mine;
    NewestAreNewest(mine, CreatedAt, RecentReviewCount, x);
  }

  // ---------------------------------------------------------------------------
  // getMechanicProfile

  /** `getMechanicProfile`: any caller may read any profile; it comes with the
      profile's five newest reviews. */
  function GetMechanicProfile(db: Db, id: Id): (r: Reply<MechanicData>)
    reads db`mechanics, db`reviews
    ensures Fresh(db.mechanics, id) <==> r == ErrorResponse(404, "Mechanic not found")
    ensures !Fresh(db.mechanics, id) ==>
      r == SuccessResponse(200, "Mechanic profile fetched",
                           Some(Profile(db.mechanics[Find(db.mechanics, id).value], RecentReviews(db.reviews, id))))
  {
    match Find(db.mechanics, id)
    case None => ErrorResponse(404, "Mechanic not found")
    case Some(i) => SuccessResponse(200, "Mechanic profile fetched", Some(Profile(db.mechanics[i], RecentReviews(db.reviews, id))))
  }

  // ---------------------------------------------------------------------------
  // getMechanicDashboard

  function BookedBetween(mechanicId: Id, from: int, until: int): Doc<Booking> -> bool {
    (b: Doc<Booking>) => b.fields.mechanicId == mechanicId && from <= b.fields.bookingDate < until
  }

  function PendingFor(mechanicId: Id): Doc<ServiceRequest> -> bool {
    (q: Doc<ServiceRequest>) => q.fields.mechanicId == Some(mechanicId) && q.fields.status == ServiceRequestModel.Pending
  }

  /** `getMechanicDashboard`. `todayStart` and `tomorrowStart` are local midnight
      today and tomorrow by the server's clock. */
  function GetMechanicDashboard(db: Db, me: Doc<User>, todayStart: int, tomorrowStart: int): (r: Reply<MechanicData>)
    reads db`mechanics, db`bookings, db`requests, db`reviews
    ensures me.fields.role != MechanicRole ==> r == ErrorResponse(403, NotAMechanic)
    ensures me.fields.role == MechanicRole && FindFirst(db.mechanics, ProfileOf(me.id)).None? ==>
      r == ErrorResponse(404, "Mechanic profile not found")
    ensures r.status == 200 ==> && me.fields.role == MechanicRole && FindFirst(db.mechanics, ProfileOf(me.id)).Some?
                                && r.body.Success? && r.body.data.Some? && r.body.data.value.Dashboard?
    ensures r.status == 200 ==>
      var m := db.mechanics[FindFirst(db.mechanics, ProfileOf(me.id)).value];
      var d := r.body.data.value;
      && d.view.name == me.fields.firstName + " " + me.fields.lastName
      && d.view.email == me.fields.email && d.view.phone == me.fields.phone
      && d.view.isVerified == m.fields.isVerified && d.view.isAvailable == m.fields.isAvailable
      && d.view.skills == m.fields.skills
      && d.view.totalJobs == m.fields.totalJobs && d.view.totalEarnings == m.fields.totalEarnings
      && d.view.rating == m.fields.totalRating && d.view.reviews == m.fields.totalReviews
      && d.todaysJobs == Count(db.bookings, BookedBetween(m.id, todayStart, tomorrowStart))
      && d.pendingRequests == Count(db.requests, PendingFor(m.id))
      && d.recentReviews == RecentReviews(db.reviews, m.id)
  {
    if me.fields.role != MechanicRole then ErrorResponse(403, NotAMechanic)
    else match FindFirst(db.mechanics, ProfileOf(me.id))
      case None => ErrorResponse(404, "Mechanic profile not found")
      case Some(i) =>
        var m := db.mechanics[i];
        var view := DashboardView(me.fields.firstName + " " + me.fields.lastName, me.fields.email, me.fields.phone,
                                  m.fields.isVerified, m.fields.isAvailable, m.fields.skills,
                                  m.fields.totalRating, m.fields.totalReviews, m.fields.totalJobs, m.fields.totalEarnings);
        SuccessResponse(200, "Dashboard fetched",
                        Some(Dashboard(view, Count(db.bookings, BookedBetween(m.id, todayStart, tomorrowStart)),
                                       Count(db.requests, PendingFor(m.id)), RecentReviews(db.reviews, m.id))))
  }

  /** The pending count is exactly the requests assigned to the mechanic and still
      pending: the others of the collection are the ones it does not count. */
  lemma PendingCountExact(requests: seq<Doc<ServiceRequest>>, mechanicId: Id)
    ensures Count(requests, PendingFor(mechanicId)) + Count(requests, Not(PendingFor(mechanicId))) == |requests|
    ensures forall i :: 0 <= i < |requests| && requests[i].fields.mechanicId != Some(mechanicId) ==>
      requests[i] !in Filter(requests, PendingFor(mechanicId))
  {
    CountSplits(requests, PendingFor(mechanicId));
  }

  // ---------------------------------------------------------------------------
  // updateAvailability

  /** `updateAvailability`: the caller's own profile takes the given flag (an
      absent one is left out of the update); no other profile changes. Without a
      profile the answer is a 500 from reading the null result. */
  method UpdateAvailability(db: Db, me: Doc<User>, isAvailable: Option<bool>) returns (r: Reply<MechanicData>)
    requires db.Valid()
    modifies db`mechanics
    ensures db.Valid()
    ensures me.fields.role != MechanicRole ==> r == ErrorResponse(403, NotAMechanic) && db.mechanics == old(db.mechanics)
    ensures me.fields.role == MechanicRole && FindFirst(old(db.mechanics), ProfileOf(me.id)).None? ==>
      r == ServerError("Failed to update availability: ", NullRead("isAvailable")) && db.mechanics == old(db.mechanics)
    ensures me.fields.role == MechanicRole && FindFirst(old(db.mechanics), ProfileOf(me.id)).Some? ==>
      var i := FindFirst(old(db.mechanics), ProfileOf(me.id)).value;
      var m := old(db.mechanics)[i];
      var flag := isAvailable.GetOr(m.fields.isAvailable);
      && db.mechanics == old(db.mechanics)[i := m.(fields := m.fields.(isAvailable := flag))]
      && r == SuccessResponse(200, "Availability updated", Some(Availability(flag)))
  {
    if me.fields.role != MechanicRole {
      return ErrorResponse(403, NotAMechanic);
    }
    var found := FindFirst(db.mechanics, ProfileOf(me.id));
    if found.None? {
      return ServerError("Failed to update availability: ", NullRead("isAvailable"));
    }
    var i := found.value;
    var m := db.mechanics[i];
    var flag := isAvailable.GetOr(m.fields.isAvailable);
    var updated := m.(fields := m.fields.(isAvailable := flag));
    UpdateKeepsUnique(db.mechanics, i, updated, IdOf);
    UpdateKeepsUnique(db.mechanics, i, updated, OwnerOf);
    UpdateKeepsUnique(db.mechanics, i, updated, License);
    db.mechanics := db.mechanics[i := updated];
    r := SuccessResponse(200, "Availability updated", Some(Availability(flag)));
  }

  // ---------------------------------------------------------------------------
  // acceptServiceRequest

  /** `acceptServiceRequest`: whatever the request's status, it gets the caller's
      profile as its mechanic and becomes accepted. Without a profile, or for an
      unknown request, the answer is a 500 from reading a null result. */
  method AcceptServiceRequest(db: Db, me: Doc<User>, requestId: Id, now: int) returns (r: Reply<MechanicData>)
    requires db.Valid()
    modifies db`requests
    ensures db.Valid()
    ensures me.fields.role != MechanicRole ==> r == ErrorResponse(403, NotAMechanic) && db.requests == old(db.requests)
    ensures me.fields.role == MechanicRole && FindFirst(db.mechanics, ProfileOf(me.id)).None? ==>
      r == ServerError("Failed to accept request: ", NullRead("_id")) && db.requests == old(db.requests)
    ensures me.fields.role == MechanicRole && FindFirst(db.mechanics, ProfileOf(me.id)).Some? ==>
      var mechanicId := db.mechanics[FindFirst(db.mechanics, ProfileOf(me.id)).value].id;
      match Find(old(db.requests), requestId)
      case None => r == ServerError("Failed to accept request: ", NullRead("_id")) && db.requests == old(db.requests)
      case Some(i) =>
        var q := old(db.requests)[i];
        && db.requests == old(db.requests)[i := q.(fields := q.fields.(mechanicId := Some(mechanicId), status := Accepted,
                                                                        acceptedAt := Some(now)))]
        && r == SuccessResponse(200, "Service request accepted", Some(AcceptedRequest(requestId, Accepted)))
  {
    if me.fields.role != MechanicRole {
      return ErrorResponse(403, NotAMechanic);
    }
    var profile := FindFirst(db.mechanics, ProfileOf(me.id));
    if profile.None? {
      return ServerError("Failed to accept request: ", NullRead("_id"));
    }
    var mechanicId := db.mechanics[profile.value].id;
    var found := Find(db.requests, requestId);
    if found.None? {
      return ServerError("Failed to accept request: ", NullRead("_id"));
    }
    var i := found.value;
    var q := db.requests[i];
    var updated := q.(fields := q.fields.(mechanicId := Some(mechanicId), status := Accepted, acceptedAt := Some(now)));
    UpdateKeepsUnique(db.requests, i, updated, IdOf);
    db.requests := db.requests[i := updated];
    r := SuccessResponse(200, "Service request accepted", Some(AcceptedRequest(requestId, Accepted)));
  }

  // ---------------------------------------------------------------------------
  // getMechanicBookings

  function BookedWith(mechanicId: Id): Doc<Booking> -> bool {
    (b: Doc<Booking>) => b.fields.mechanicId == mechanicId
  }

  function BookingDate(b: Doc<Booking>): int {
    b.fields.bookingDate
  }

  /** `getMechanicBookings`: the caller's profile's bookings, latest booking date first. */
  function GetMechanicBookings(db: Db, me: Doc<User>): (r: Reply<MechanicData>)
    reads db`mechanics, db`bookings
    ensures me.fields.role != MechanicRole ==> r == ErrorResponse(403, NotAMechanic)
    ensures me.fields.role == MechanicRole && FindFirst(db.mechanics, ProfileOf(me.id)).None? ==>
      r == ServerError("Failed to fetch bookings: ", NullRead("_id"))
    ensures me.fields.role == MechanicRole && FindFirst(db.mechanics, ProfileOf(me.id)).Some? ==>
      var mechanicId := db.mechanics[FindFirst(db.mechanics, ProfileOf(me.id)).value].id;
      && r.status == 200 && r.body.Success? && r.body.data.Some? && r.body.data.value.Bookings?
      && Descending(r.body.data.value.bookings, BookingDate)
      && multiset(r.body.data.value.bookings) == multiset(Filter(db.bookings, BookedWith(mechanicId)))
  {
    if me.fields.role != MechanicRole then ErrorResponse(403, NotAMechanic)
    else match FindFirst(db.mechanics, ProfileOf(me.id))
      case None => ServerError("Failed to fetch bookings: ", NullRead("_id"))
      case Some(i) =>
        SuccessResponse(200, "Bookings fetched", Some(Bookings(SortDesc(Filter(db.bookings, BookedWith(db.mechanics[i].id)), BookingDate))))
  }

  // ---------------------------------------------------------------------------
  // completeBooking

  /** A booking marked completed. */
  function MarkCompleted(b: Doc<Booking>): Doc<Booking> {
    b.(fields := b.fields.(status := BookingModel.Completed))
  }

  /** A profile that counts one more job earning `cost`. */
  function Counted(m: Doc<Mechanic>, cost: int): (r: Doc<Mechanic>)
    ensures r.id == m.id && r.fields.userId == m.fields.userId && r.fields.licenseNumber == m.fields.licenseNumber
    ensures r.fields.totalJobs == m.fields.totalJobs + 1 && r.fields.totalEarnings == m.fields.totalEarnings + cost
    ensures RatingConsistent(m.fields) ==> RatingConsistent(r.fields)
  {
    m.(fields := m.fields.(totalJobs := m.fields.totalJobs + 1, totalEarnings := m.fields.totalEarnings + cost))
  }

  /** The profiles after `userId`'s own profile, if there is one, counts one more
      job earning `cost`; the other profiles stay as they are. */
  function CountJob(mechanics: seq<Doc<Mechanic>>, userId: Id, cost: int): (r: seq<Doc<Mechanic>>)
    ensures |r| == |mechanics|
    ensures FindFirst(mechanics, ProfileOf(userId)).None? ==> r == mechanics
    ensures FindFirst(mechanics, ProfileOf(userId)).Some? ==>
      var j := FindFirst(mechanics, ProfileOf(userId)).value;
      && FindFirst(r, ProfileOf(userId)) == Some(j)
      && r[j] == Counted(mechanics[j], cost)
      && forall k :: 0 <= k < |r| && k != j ==> r[k] == mechanics[k]
  {
    match FindFirst(mechanics, ProfileOf(userId))
    case None => mechanics
    case Some(j) =>
      FindFirstUpdate(mechanics, ProfileOf(userId), j, Counted(mechanics[j], cost));
      mechanics[j := Counted(mechanics[j], cost)]
  }

  /** The count keeps the profiles' unique keys and rating aggregates. */
  lemma CountJobOk(mechanics: seq<Doc<Mechanic>>, userId: Id, cost: int)
    requires MechanicsOk(mechanics)
    ensures MechanicsOk(CountJob(mechanics, userId, cost))
  {
    match FindFirst(mechanics, ProfileOf(userId))
    case None =>
    case Some(j) =>
      MechanicUpdateOk(mechanics, j, Counted(mechanics[j], cost));
  }

  /** Completing a booking twice counts it twice: the second count finds the same
      profile and adds the job and the cost again. */
  lemma {:induction false} CountJobTwice(mechanics: seq<Doc<Mechanic>>, userId: Id, cost: int)
    requires FindFirst(mechanics, ProfileOf(userId)).Some?
    ensures var j := FindFirst(mechanics, ProfileOf(userId)).value;
      var twice := CountJob(CountJob(mechanics, userId, cost), userId, cost);
      && twice[j].fields.totalJobs == mechanics[j].fields.totalJobs + 2
      && twice[j].fields.totalEarnings == mechanics[j].fields.totalEarnings + 2 * cost
  {
    var j := FindFirst(mechanics, ProfileOf(userId)).value;
    var once := CountJob(mechanics, userId, cost);
    assert FindFirst(once, ProfileOf(userId)) == Some(j);
  }

  /** `completeBooking`: any booking becomes completed, whoever its mechanic and
      whatever its status, and the caller's own profile (if any) counts one more
      job and the booking's cost as earnings. Called twice, it counts twice
      (`CountJobTwice`). */
  method CompleteBooking(db: Db, me: Doc<User>, bookingId: Id) returns (r: Reply<MechanicData>)
    requires db.Valid()
    modifies db`bookings, db`mechanics
    ensures db.Valid()
    ensures me.fields.role != MechanicRole ==>
      r == ErrorResponse(403, NotAMechanic) && db.bookings == old(db.bookings) && db.mechanics == old(db.mechanics)
    ensures me.fields.role == MechanicRole && Find(old(db.bookings), bookingId).None? ==>
      r == ErrorResponse(404, "Booking not found") && db.bookings == old(db.bookings) && db.mechanics == old(db.mechanics)
    ensures me.fields.role == MechanicRole && Find(old(db.bookings), bookingId).Some? ==>
      var i := Find(old(db.bookings), bookingId).value;
      && db.bookings == old(db.bookings)[i := MarkCompleted(old(db.bookings)[i])]
      && db.mechanics == CountJob(old(db.mechanics), me.id, old(db.bookings)[i].fields.totalCost)
      && r == SuccessResponse(200, "Booking completed", Some(BookingState(BookingModel.Completed)))
  {
    if me.fields.role != MechanicRole {
      return ErrorResponse(403, NotAMechanic);
    }
    var found := Find(db.bookings, bookingId);
    if found.None? {
      return ErrorResponse(404, "Booking not found");
    }
    var i := found.value;
    var b := db.bookings[i];
    UpdateKeepsUnique(db.bookings, i, MarkCompleted(b), IdOf);
    db.bookings := db.bookings[i := MarkCompleted(b)];
    CountJobOk(db.mechanics, me.id, b.fields.totalCost);
    db.mechanics := CountJob(db.mechanics, me.id, b.fields.totalCost);
    r := SuccessResponse(200, "Booking completed", Some(BookingState(BookingModel.Completed)));
  }
}
