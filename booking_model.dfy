/** The Booking schema (`models/Booking.js`): a scheduled job between a user
    and a mechanic, with its status and payment-status enums. */
module BookingModel {
  import opened Wrappers
  import opened Docs

  datatype BookingStatus = Scheduled | Ongoing | Completed | Cancelled

  function BookingStatusName(s: BookingStatus): string {
    match s
    case Scheduled => "scheduled"
    case Ongoing => "ongoing"
    case Completed => "completed"
    case Cancelled => "cancelled"
  }

  function ParseBookingStatus(s: string): (r: Option<BookingStatus>)
    ensures forall k: BookingStatus :: r == Some(k) <==> BookingStatusName(k) == s
  {
    if s == "scheduled" then Some(Scheduled)
    else if s == "ongoing" then Some(Ongoing)
    else if s == "completed" then Some(Completed)
    else if s == "cancelled" then Some(Cancelled)
    else None
  }

  /** A booking's payment status has no 'refunded' value: a refund shows only on the payment. */
  datatype BookingPaymentStatus = Unpaid | Paid | PaymentFailed

  function BookingPaymentStatusName(s: BookingPaymentStatus): string {
    match s
    case Unpaid => "pending"
    case Paid => "completed"
    case PaymentFailed => "failed"
  }

  function ParseBookingPaymentStatus(s: string): (r: Option<BookingPaymentStatus>)
    ensures forall k: BookingPaymentStatus :: r == Some(k) <==> BookingPaymentStatusName(k) == s
  {
    if s == "pending" then Some(Unpaid)
    else if s == "completed" then Some(Paid)
    else if s == "failed" then Some(PaymentFailed)
    else None
  }

  /** A stored booking; `duration` is in minutes and `totalCost` in whole currency units. */
  datatype Booking = Booking(
    userId: Id,
    mechanicId: Id,
    serviceRequestId: Option<Id>,
    bookingDate: int,
    duration: int,
    totalCost: int,
    serviceDescription: Option<string>,
    status: BookingStatus,
    paymentStatus: BookingPaymentStatus)
}
