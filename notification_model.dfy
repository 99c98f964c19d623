/** The Notification schema (`models/Notification.js`): a message to one user
    about an event, with its type enum. */
module NotificationModel {
  import opened Wrappers
  import opened Docs

  datatype NotificationType = RequestNotice | BookingNotice | PaymentNotice | ReviewNotice
                            | ChatNotice | SosNotice | SystemNotice

  function NotificationTypeName(t: NotificationType): string {
    match t
    case RequestNotice => "request"
    case BookingNotice => "booking"
    case PaymentNotice => "payment"
    case ReviewNotice => "review"
    case ChatNotice => "chat"
    case SosNotice => "sos"
    case SystemNotice => "system"
  }

  function ParseNotificationType(s: string): (r: Option<NotificationType>)
    ensures forall k: NotificationType :: r == Some(k) <==> NotificationTypeName(k) == s
  {
    if s == "request" then Some(RequestNotice)
    else if s == "booking" then Some(BookingNotice)
    else if s == "payment" then Some(PaymentNotice)
    else if s == "review" then Some(ReviewNotice)
    else if s == "chat" then Some(ChatNotice)
    else if s == "sos" then Some(SosNotice)
    else if s == "system" then Some(SystemNotice)
    else None
  }

  datatype Notification = Notification(
    userId: Id,
    title: string,
    message: string,
    notificationType: NotificationType,
    relatedId: Option<Id>,
    relatedModel: Option<string>,
    isRead: bool)
}
