/** The Payment schema (`models/Payment.js`): one payment for a booking, with
    its method and status enums. */
module PaymentModel {
  import opened Wrappers
  import opened Response
  import opened Docs

  datatype PaymentMethod = Upi | Card | Wallet | Cash

  function PaymentMethodName(m: PaymentMethod): string {
    match m
    case Upi => "upi"
    case Card => "card"
    case Wallet => "wallet"
    case Cash => "cash"
  }

  function ParsePaymentMethod(s: string): (r: Option<PaymentMethod>)
    ensures forall k: PaymentMethod :: r == Some(k) <==> PaymentMethodName(k) == s
  {
    if s == "upi" then Some(Upi)
    else if s == "card" then Some(Card)
    else if s == "wallet" then Some(Wallet)
    else if s == "cash" then Some(Cash)
    else None
  }

  datatype PaymentStatus = Pending | Completed | Failed | Refunded

  function PaymentStatusName(s: PaymentStatus): string {
    match s
    case Pending => "pending"
    case Completed => "completed"
    case Failed => "failed"
    case Refunded => "refunded"
  }

  function ParsePaymentStatus(s: string): (r: Option<PaymentStatus>)
    ensures forall k: PaymentStatus :: r == Some(k) <==> PaymentStatusName(k) == s
  {
    if s == "pending" then Some(Pending)
    else if s == "completed" then Some(Completed)
    else if s == "failed" then Some(Failed)
    else if s == "refunded" then Some(Refunded)
    else None
  }

  /** A stored payment; amounts are in whole currency units. */
  datatype Payment = Payment(
    bookingId: Id,
    userId: Id,
    mechanicId: Id,
    amount: int,
    tax: int,
    totalAmount: int,
    paymentMethod: PaymentMethod,
    transactionId: string,
    status: PaymentStatus,
    invoiceNumber: string,
    completedAt: Option<int>)

  /** What `Payment.create` stores, or the enum validator's rejection of the method. */
  function NewPayment(bookingId: Id, userId: Id, mechanicId: Id, amount: int, tax: int, totalAmount: int,
                      paymentMethod: string, transactionId: string, status: PaymentStatus,
                      invoiceNumber: string, completedAt: Option<int>): (r: Outcome<Payment>)
    ensures r.Done? <==> ParsePaymentMethod(paymentMethod).Some?
    ensures r.Done? ==> var p := r.value;
      && p.bookingId == bookingId && p.userId == userId && p.mechanicId == mechanicId
      && p.amount == amount && p.tax == tax && p.totalAmount == totalAmount
      && PaymentMethodName(p.paymentMethod) == paymentMethod && p.transactionId == transactionId
      && p.status == status && p.invoiceNumber == invoiceNumber && p.completedAt == completedAt
  {
    match ParsePaymentMethod(paymentMethod)
    case None => Threw(Invalid("Payment", "paymentMethod", "`" + paymentMethod + "` is not a valid enum value for path `paymentMethod`."))
    case Some(m) => Done(Payment(bookingId, userId, mechanicId, amount, tax, totalAmount, m, transactionId, status, invoiceNumber, completedAt))
  }
}
