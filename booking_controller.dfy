/** The booking and payment handlers (`controllers/bookingController.js`):
    booking a mechanic, listing one's bookings, paying for a booking, reading a
    payment and cancelling a booking. */
module BookingController {
  import opened Wrappers
  import opened Js
  import opened Docs
  import opened Response
  import opened Validators
  import opened UserModel
  import opened ServiceRequestModel
  import opened BookingModel
  import opened PaymentModel
  import opened Database

  /** A payment receipt: the fields `processPayment` answers with. */
  datatype Receipt = Receipt(id: Id, invoiceNumber: string, transactionId: string, totalAmount: int, paymentStatus: PaymentStatus)

  datatype BookingData =
    | CreatedBooking(id: Id, status: BookingStatus)
    | Bookings(bookings: seq<Doc<Booking>>)
    | PaymentMade(receipt: Receipt)
    | PaymentDetails(payment: Doc<Payment>)

  const MissingFields := "Please provide all required fields"

  // ---------------------------------------------------------------------------
  // createBooking

  /** `ServiceRequest.findByIdAndUpdate(id, { mechanicId, status: 'accepted', acceptedAt })`:
      the request with that id, if there is one, gets the mechanic and becomes accepted; an
      unknown id changes nothing. */
  function AssignRequest(requests: seq<Doc<ServiceRequest>>, requestId: Id, mechanicId: Id, now: int)
    : (r: seq<Doc<ServiceRequest>>)
    ensures |r| == |requests|
    ensures forall k :: 0 <= k < |r| ==> r[k].id == requests[k].id
    ensures Fresh(requests, requestId) ==> r == requests
    ensures forall k :: 0 <= k < |r| && requests[k].id != requestId ==> r[k] == requests[k]
    ensures Find(requests, requestId).Some? ==> var i := Find(requests, requestId).value;
      r[i].fields == requests[i].fields.(mechanicId := Some(mechanicId), status := Accepted, acceptedAt := Some(now))
  {
    match Find(requests, requestId)
    case None => requests
    case Some(i) =>
      var q := requests[i];
      requests[i := q.(fields := q.fields.(mechanicId := Some(mechanicId), status := Accepted, acceptedAt := Some(now)))]
  }

  /** `createBooking`. The booking is stored scheduled and unpaid for the body's
      mechanic (whoever that is); a given service request becomes accepted by
      that mechanic, whatever its owner and status. */
  method CreateBooking(db: Db, me: Doc<User>, mechanicId: Option<Id>, serviceRequestId: Option<Id>,
                       bookingDate: Option<int>, duration: Option<int>, totalCost: Option<int>,
                       serviceDescription: Option<string>, newId: Id, now: int) returns (r: Reply<BookingData>)
    requires db.Valid() && Fresh(db.bookings, newId)
    modifies db`bookings, db`requests
    ensures db.Valid()
    ensures !HasText(mechanicId) || !NonZero(bookingDate) || !NonZero(duration) || !NonZero(totalCost) ==>
      && r == ErrorResponse(400, MissingFields)
      && db.bookings == old(db.bookings) && db.requests == old(db.requests)
    ensures HasText(mechanicId) && NonZero(bookingDate) && NonZero(duration) && NonZero(totalCost) ==>
      && db.bookings == old(db.bookings) + [Doc(newId, now, Booking(me.id, mechanicId.value, serviceRequestId,
                                                     bookingDate.value, duration.value, totalCost.value,
                                                     serviceDescription, Scheduled, Unpaid))]
      && (HasText(serviceRequestId) ==> db.requests == AssignRequest(old(db.requests), serviceRequestId.value, mechanicId.value, now))
      && (!HasText(serviceRequestId) ==> db.requests == old(db.requests))
      && r == SuccessResponse(201, "Booking created successfully", Some(CreatedBooking(newId, Scheduled)))
  {
    if !HasText(mechanicId) || !NonZero(bookingDate) || !NonZero(duration) || !NonZero(totalCost) {
      return ErrorResponse(400, MissingFields);
    }
    var booking := Doc(newId, now, Booking(me.id, mechanicId.value, serviceRequestId, bookingDate.value,
                                           duration.value, totalCost.value, serviceDescription, Scheduled, Unpaid));
    AppendKeepsUnique(db.bookings, booking, IdOf);
    db.bookings := db.bookings + [booking];
    if HasText(serviceRequestId) {
      var accepted := AssignRequest(db.requests, serviceRequestId.value, mechanicId.value, now);
      assert UniqueBy(accepted, IdOf) by {
        forall a, b | 0 <= a < b < |accepted| ensures accepted[a].id != accepted[b].id {
          assert accepted[a].id == db.requests[a].id && accepted[b].id == db.requests[b].id;
        }
      }
      db.requests := accepted;
    }
    r := SuccessResponse(201, "Booking created successfully", Some(CreatedBooking(newId, Scheduled)));
  }

  // ---------------------------------------------------------------------------
  // getUserBookings

  function BookedBy(userId: Id): Doc<Booking> -> bool {
    (b: Doc<Booking>) => b.fields.userId == userId
  }

  function BookingDate(b: Doc<Booking>): int {
    b.fields.bookingDate
  }

  /** `getUserBookings`: exactly the caller's bookings, latest booking date first. */
  function GetUserBookings(db: Db, me: Doc<User>): (r: Reply<BookingData>)
    reads db`bookings
    ensures r.status == 200 && r.body.Success? && r.body.data.Some? && r.body.data.value.Bookings?
    ensures var bs := r.body.data.value.bookings;
      && Descending(bs, BookingDate)
      && multiset(bs) == multiset(Filter(db.bookings, BookedBy(me.id)))
  {
    SuccessResponse(200, "Bookings fetched", Some(Bookings(SortDesc(Filter(db.bookings, BookedBy(me.id)), BookingDate))))
  }

  /** The list holds a booking exactly when the caller made it. */
  lemma UserBookingsExact(db: Db, me: Doc<User>, b: Doc<Booking>)
    ensures b in GetUserBookings(db, me).body.data.value.bookings <==> b in db.bookings && b.fields.userId == me.id
  {
    var bs := GetUserBookings(db, me).body.data.value.bookings;
    assert b in bs <==> b in multiset(bs);
    assert b in Filter(db.bookings, BookedBy(me.id)) <==> b in multiset(Filter(db.bookings, BookedBy(me.id)));
  }

  // ---------------------------------------------------------------------------
  // processPayment

  /** `Math.round(amount * 0.05)`: five percent, halves rounded up. */
  function Tax(amount: int): (r: int)
    ensures -10 < 20 * r - amount <= 10
    ensures amount >= 0 ==> 0 <= r <= amount
  {
    (amount + 10) / 20
  }

  /** What `Payment.create` is given for booking `b`: the amount, its five
      percent tax and their sum, completed now, with an invoice number and a
      transaction id made from the clock and the two random texts. */
  function Charge(bookingId: Id, userId: Id, b: Doc<Booking>, amount: int, paymentMethod: string,
                  clock: nat, invoiceRandom: string, transactionRandom: string): Outcome<Payment> {
    NewPayment(bookingId, userId, b.fields.mechanicId, amount, Tax(amount), amount + Tax(amount), paymentMethod,
               TransactionId(clock, transactionRandom), PaymentModel.Completed, InvoiceNumber(clock, invoiceRandom),
               Some(clock))
  }

  /** The receipt the handler answers with. */
  function ReceiptOf(newId: Id, amount: int, clock: nat, invoiceRandom: string, transactionRandom: string): BookingData {
    PaymentMade(Receipt(newId, InvoiceNumber(clock, invoiceRandom), TransactionId(clock, transactionRandom),
                        amount + Tax(amount), PaymentModel.Completed))
  }

  /** `processPayment`. `clock` is `Date.now()`; `invoiceRandom` and
      `transactionRandom` are the texts of the two `Math.random()` calls. A
      payment method outside the enum fails validation, a 500 that leaves the
      booking unpaid. */
  method ProcessPayment(db: Db, me: Doc<User>, bookingId: Option<Id>, paymentMethod: Option<string>, amount: Option<int>,
                        newId: Id, clock: nat, invoiceRandom: string, transactionRandom: string) returns (r: Reply<BookingData>)
    requires db.Valid() && Fresh(db.payments, newId)
    modifies db`payments, db`bookings
    ensures db.Valid()
    ensures !HasText(bookingId) || !HasText(paymentMethod) || !NonZero(amount) ==>
      r == ErrorResponse(400, MissingFields) && db.payments == old(db.payments) && db.bookings == old(db.bookings)
    ensures HasText(bookingId) && HasText(paymentMethod) && NonZero(amount) ==>
      match Find(old(db.bookings), bookingId.value)
      case None =>
        r == ErrorResponse(404, "Booking not found") && db.payments == old(db.payments) && db.bookings == old(db.bookings)
      case Some(i) =>
        if old(db.bookings)[i].fields.userId != me.id then
          r == ErrorResponse(403, "Unauthorized to pay for this booking")
          && db.payments == old(db.payments) && db.bookings == old(db.bookings)
        else match Charge(bookingId.value, me.id, old(db.bookings)[i], amount.value, paymentMethod.value,
                          clock, invoiceRandom, transactionRandom)
          case Threw(f) =>
            r == ServerError("Payment processing failed: ", f)
            && db.payments == old(db.payments) && db.bookings == old(db.bookings)
          case Done(p) =>
            && db.payments == old(db.payments) + [Doc(newId, clock, p)]
            && db.bookings == old(db.bookings)[i := old(db.bookings)[i].(fields := old(db.bookings)[i].fields.(paymentStatus := Paid))]
            && r == SuccessResponse(201, "Payment processed successfully",
                                    Some(ReceiptOf(newId, amount.value, clock, invoiceRandom, transactionRandom)))
  {
    if !HasText(bookingId) || !HasText(paymentMethod) || !NonZero(amount) {
      return ErrorResponse(400, MissingFields);
    }
    var found := Find(db.bookings, bookingId.value);
    if found.None? {
      return ErrorResponse(404, "Booking not found");
    }
    var i := found.value;
    if db.bookings[i].fields.userId != me.id {
      return ErrorResponse(403, "Unauthorized to pay for this booking");
    }
    var o := Charge(bookingId.value, me.id, db.bookings[i], amount.value, paymentMethod.value,
                    clock, invoiceRandom, transactionRandom);
    if o.Threw? {
      return ServerError("Payment processing failed: ", o.fault);
    }
    RecordPayment(db, Doc(newId, clock, o.value), i);
    r := SuccessResponse(201, "Payment processed successfully",
                         Some(ReceiptOf(newId, amount.value, clock, invoiceRandom, transactionRandom)));
  }

  /** `Payment.create` and `booking.save()` with the booking marked paid. */
  method RecordPayment(db: Db, p: Doc<Payment>, i: nat)
    requires db.Valid() && Fresh(db.payments, p.id) && i < |db.bookings|
    modifies db`payments, db`bookings
    ensures db.Valid()
    ensures db.payments == old(db.payments) + [p]
    ensures db.bookings == old(db.bookings)[i := old(db.bookings)[i].(fields := old(db.bookings)[i].fields.(paymentStatus := Paid))]
  {
    AppendKeepsUnique(db.payments, p, IdOf);
    db.payments := db.payments + [p];
    var paid := db.bookings[i].(fields := db.bookings[i].fields.(paymentStatus := Paid));
    UpdateKeepsUnique(db.bookings, i, paid, IdOf);
    db.bookings := db.bookings[i := paid];
  }

  /** A payment the handler stores is completed, for the booking's own mechanic,
      and charges the amount plus its five percent tax. */
  lemma StoredPaymentShape(bookingId: Id, userId: Id, b: Doc<Booking>, amount: int, payWith: string,
                           clock: nat, invoiceRandom: string, transactionRandom: string)
    requires Charge(bookingId, userId, b, amount, payWith, clock, invoiceRandom, transactionRandom).Done?
    requires IsRandomText(invoiceRandom)
    ensures var p := Charge(bookingId, userId, b, amount, payWith, clock, invoiceRandom, transactionRandom).value;
      && p.status == PaymentModel.Completed && p.mechanicId == b.fields.mechanicId && p.bookingId == bookingId
      && p.userId == userId && p.amount == amount && -10 < 20 * (p.totalAmount - amount) - amount <= 10
      && PaymentMethodName(p.paymentMethod) == payWith
      && GeneratedShape(p.invoiceNumber, "INV-", clock)
  {
    GeneratedNumbers(clock, invoiceRandom);
  }

  // ---------------------------------------------------------------------------
  // getPaymentDetails

  /** `getPaymentDetails`: only the payer may read a payment. */
  function GetPaymentDetails(db: Db, me: Doc<User>, id: Id): (r: Reply<BookingData>)
    reads db`payments
    ensures Fresh(db.payments, id) <==> r == ErrorResponse(404, "Payment not found")
    ensures r.body.Succeeded() <==> !Fresh(db.payments, id) && db.payments[Find(db.payments, id).value].fields.userId == me.id
    ensures r.body.Succeeded() ==> r == SuccessResponse(200, "Payment details fetched",
                                                        Some(PaymentDetails(db.payments[Find(db.payments, id).value])))
    ensures !Fresh(db.payments, id) && !r.body.Succeeded() ==> r == ErrorResponse(403, "Unauthorized")
  {
    match Find(db.payments, id)
    case None => ErrorResponse(404, "Payment not found")
    case Some(i) =>
      if db.payments[i].fields.userId != me.id then ErrorResponse(403, "Unauthorized")
      else SuccessResponse(200, "Payment details fetched", Some(PaymentDetails(db.payments[i])))
  }

  // ---------------------------------------------------------------------------
  // cancelBooking

  function PaymentFor(bookingId: Id): Doc<Payment> -> bool {
    (p: Doc<Payment>) => p.fields.bookingId == bookingId
  }

  /** `Payment.findOneAndUpdate({ bookingId }, { status: 'refunded' })`: the first
      payment for the booking in natural order is refunded, every other payment
      (including later ones for the same booking) is left as it was. */
  function RefundFirst(payments: seq<Doc<Payment>>, bookingId: Id): (r: seq<Doc<Payment>>)
    ensures |r| == |payments|
    ensures forall k :: 0 <= k < |r| ==> r[k].id == payments[k].id
    ensures FindFirst(payments, PaymentFor(bookingId)).None? ==> r == payments
    ensures FindFirst(payments, PaymentFor(bookingId)).Some? ==>
      var j := FindFirst(payments, PaymentFor(bookingId)).value;
      && r[j].fields == payments[j].fields.(status := Refunded)
      && forall k :: 0 <= k < |r| && k != j ==> r[k] == payments[k]
  {
    match FindFirst(payments, PaymentFor(bookingId))
    case None => payments
    case Some(j) => payments[j := payments[j].(fields := payments[j].fields.(status := Refunded))]
  }

  /** After a refund, the booking's first payment is the refunded one. */
  lemma RefundFirstFound(payments: seq<Doc<Payment>>, bookingId: Id)
    requires FindFirst(payments, PaymentFor(bookingId)).Some?
    ensures var j := FindFirst(payments, PaymentFor(bookingId)).value;
      && FindFirst(RefundFirst(payments, bookingId), PaymentFor(bookingId)) == Some(j)
      && RefundFirst(payments, bookingId)[j].fields.status == Refunded
  {
    var j := FindFirst(payments, PaymentFor(bookingId)).value;
    FindFirstUpdate(payments, PaymentFor(bookingId), j, RefundFirst(payments, bookingId)[j]);
    assert RefundFirst(payments, bookingId) == payments[j := RefundFirst(payments, bookingId)[j]];
  }

  /** `cancelBooking`: the owner may cancel a scheduled booking; a paid one has
      its first payment refunded, while its own payment status stays paid. */
  method CancelBooking(db: Db, me: Doc<User>, id: Id) returns (r: Reply<BookingData>)
    requires db.Valid()
    modifies db`bookings, db`payments
    ensures db.Valid()
    ensures match Find(old(db.bookings), id)
      case None =>
        r == ErrorResponse(404, "Booking not found") && db.bookings == old(db.bookings) && db.payments == old(db.payments)
      case Some(i) =>
        var b := old(db.bookings)[i];
        if b.fields.userId != me.id then
          r == ErrorResponse(403, "Unauthorized to cancel this booking")
          && db.bookings == old(db.bookings) && db.payments == old(db.payments)
        else if b.fields.status != Scheduled then
          r == ErrorResponse(400, "Cannot cancel booking in current status")
          && db.bookings == old(db.bookings) && db.payments == old(db.payments)
        else
          && db.bookings == old(db.bookings)[i := b.(fields := b.fields.(status := BookingModel.Cancelled))]
          && (b.fields.paymentStatus == Paid ==> db.payments == RefundFirst(old(db.payments), id))
          && (b.fields.paymentStatus != Paid ==> db.payments == old(db.payments))
          && r == SuccessResponse(200, "Booking cancelled successfully")
  {
    var found := Find(db.bookings, id);
    if found.None? {
      return ErrorResponse(404, "Booking not found");
    }
    var i := found.value;
    var b := db.bookings[i];
    if b.fields.userId != me.id {
      return ErrorResponse(403, "Unauthorized to cancel this booking");
    }
    if b.fields.status != Scheduled {
      return ErrorResponse(400, "Cannot cancel booking in current status");
    }
    var cancelled := b.(fields := b.fields.(status := BookingModel.Cancelled));
    UpdateKeepsUnique(db.bookings, i, cancelled, IdOf);
    db.bookings := db.bookings[i := cancelled];
    if b.fields.paymentStatus == Paid {
      var refunded := RefundFirst(db.payments, id);
      assert UniqueBy(refunded, IdOf) by {
        forall a, c | 0 <= a < c < |refunded| ensures refunded[a].id != refunded[c].id {
          assert refunded[a].id == db.payments[a].id && refunded[c].id == db.payments[c].id;
        }
      }
      db.payments := refunded;
    }
    r := SuccessResponse(200, "Booking cancelled successfully");
  }
}
