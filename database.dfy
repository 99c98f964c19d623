/** The document store the handlers share: one collection per model, each a
    sequence of documents in natural order, and what the schemas' unique
    indexes and validators guarantee of the stored documents. */
module Database {
  import opened Wrappers
  import opened Docs
  import opened UserModel
  import opened MechanicModel
  import opened ServiceRequestModel
  import opened BookingModel
  import opened PaymentModel
  import opened ReviewModel
  import opened SosModel
  import opened ChatModel
  import opened NotificationModel

  function Email(d: Doc<User>): string {
    d.fields.email
  }

  function Phone(d: Doc<User>): string {
    d.fields.phone
  }

  function OwnerOf(d: Doc<Mechanic>): Id {
    d.fields.userId
  }

  function License(d: Doc<Mechanic>): string {
    d.fields.licenseNumber
  }

  function BookingOf(d: Doc<Review>): Id {
    d.fields.bookingId
  }

  /** `Mechanic.findOne({ userId })`'s query. */
  function ProfileOf(userId: Id): Doc<Mechanic> -> bool {
    (m: Doc<Mechanic>) => m.fields.userId == userId
  }

  /** `Review.find({ mechanicId })`'s query. */
  function ReviewOf(mechanicId: Id): Doc<Review> -> bool {
    (r: Doc<Review>) => r.fields.mechanicId == mechanicId
  }

  /** Users: unique ids, e-mails and phones (User.js:16, 23), each a valid stored user. */
  ghost predicate UsersOk(s: seq<Doc<User>>) {
    && UniqueBy(s, IdOf) && UniqueBy(s, Email) && UniqueBy(s, Phone)
    && forall i :: 0 <= i < |s| ==> StoredUser(s[i].fields)
  }

  /** Mechanics: unique ids, one profile per user and per licence (Mechanic.js:4-14),
      and rating aggregates of one to five stars. */
  ghost predicate MechanicsOk(s: seq<Doc<Mechanic>>) {
    && UniqueBy(s, IdOf) && UniqueBy(s, OwnerOf) && UniqueBy(s, License)
    && forall i :: 0 <= i < |s| ==> RatingConsistent(s[i].fields)
  }

  /** Reviews: unique ids, at most one per booking, ratings of one to five. */
  ghost predicate ReviewsOk(s: seq<Doc<Review>>) {
    && UniqueBy(s, IdOf) && UniqueBy(s, BookingOf)
    && forall i :: 0 <= i < |s| ==> RatingInRange(s[i].fields)
  }

  /** Changing a user's other fields keeps the collection's guarantees. */
  lemma UserUpdateOk(s: seq<Doc<User>>, i: nat, u: Doc<User>)
    requires UsersOk(s) && i < |s|
    requires u.id == s[i].id && u.fields.email == s[i].fields.email && u.fields.phone == s[i].fields.phone
    requires StoredUser(u.fields)
    ensures UsersOk(s[i := u])
  {
    UpdateKeepsUnique(s, i, u, IdOf);
    UpdateKeepsUnique(s, i, u, Email);
    UpdateKeepsUnique(s, i, u, Phone);
    var t := s[i := u];
    forall k | 0 <= k < |t| ensures StoredUser(t[k].fields) {
      if k != i { assert t[k] == s[k]; }
    }
  }

  /** A user whose flags change is still a valid stored user. */
  lemma FlagsKeepStored(u: User, isActive: bool)
    requires StoredUser(u)
    ensures StoredUser(u.(isActive := isActive))
  {
  }

  /** Changing a profile's other fields keeps the collection's guarantees. */
  lemma MechanicUpdateOk(s: seq<Doc<Mechanic>>, i: nat, m: Doc<Mechanic>)
    requires MechanicsOk(s) && i < |s|
    requires m.id == s[i].id && m.fields.userId == s[i].fields.userId && m.fields.licenseNumber == s[i].fields.licenseNumber
    requires RatingConsistent(m.fields)
    ensures MechanicsOk(s[i := m])
  {
    UpdateKeepsUnique(s, i, m, IdOf);
    UpdateKeepsUnique(s, i, m, OwnerOf);
    UpdateKeepsUnique(s, i, m, License);
  }

  class Db {
    var users: seq<Doc<User>>
    var mechanics: seq<Doc<Mechanic>>
    var requests: seq<Doc<ServiceRequest>>
    var bookings: seq<Doc<Booking>>
    var payments: seq<Doc<Payment>>
    var reviews: seq<Doc<Review>>
    var alerts: seq<Doc<Sos>>
    var chats: seq<Doc<Chat>>
    var notifications: seq<Doc<Notification>>

    ghost predicate UsersValid()
      reads this`users
    {
      UsersOk(users)
    }

    ghost predicate MechanicsValid()
      reads this`mechanics
    {
      MechanicsOk(mechanics)
    }

    ghost predicate RequestsValid()
      reads this`requests
    {
      UniqueBy(requests, IdOf)
    }

    ghost predicate BookingsValid()
      reads this`bookings
    {
      UniqueBy(bookings, IdOf)
    }

    ghost predicate PaymentsValid()
      reads this`payments
    {
      UniqueBy(payments, IdOf)
    }

    ghost predicate ReviewsValid()
      reads this`reviews
    {
      ReviewsOk(reviews)
    }

    ghost predicate AlertsValid()
      reads this`alerts
    {
      UniqueBy(alerts, IdOf)
    }

    ghost predicate ChatsValid()
      reads this`chats
    {
      UniqueBy(chats, IdOf)
    }

    ghost predicate NotificationsValid()
      reads this`notifications
    {
      UniqueBy(notifications, IdOf)
    }

    /** What every handler may rely on and must keep. */
    ghost predicate Valid()
      reads this
    {
      && UsersValid() && MechanicsValid() && RequestsValid() && BookingsValid() && PaymentsValid()
      && ReviewsValid() && AlertsValid() && ChatsValid() && NotificationsValid()
    }

    /** An empty store. */
    constructor ()
      ensures Valid()
      ensures users == [] && mechanics == [] && requests == [] && bookings == [] && payments == []
      ensures reviews == [] && alerts == [] && chats == [] && notifications == []
    {
      users := [];
      mechanics := [];
      requests := [];
      bookings := [];
      payments := [];
      reviews := [];
      alerts := [];
      chats := [];
      notifications := [];
    }
  }
}
