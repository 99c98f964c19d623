# Travel-Assist-Portal marketplace core in Dafny

This project models the core of the Travel-Assist-Portal backend. The portal is a marketplace where travellers ask for roadside help, mechanics accept and complete the jobs, and administrators vet the mechanics. The model covers:

- the Express handlers of the service, mechanic, booking, review, admin, auth, chat and SOS controllers: their field checks, their 400/403/404/409/500 answers, their status transitions and the counters and aggregates they keep;
- the `authorize`, `authenticate` and `errorHandler` middleware;
- the two response envelopes of `utils/response.js`;
- the e-mail and phone validators and the invoice and transaction number generators of `utils/validators.js`;
- the browser-side session store `authStore.js`;
- the Mongoose schemas of users, mechanic profiles, service requests, bookings, payments, SOS alerts, chat messages and notifications. Their enums, defaults, validators and unique keys are modelled.

## Structure

- **The store.** The database is the class `Database.Db`. It has one field per collection, each a `seq<Doc<T>>` in insertion (natural) order. A `Doc<T>` is an id, a creation time and the record. The order is kept because handlers depend on it: `findOne` returns the first match. The model also assumes that a sort leaves ties in natural order; MongoDB does not promise a stable sort, so this is an assumption about the store, not something the code guarantees. `Db.Valid()` is the store's invariant:
  - every collection has unique ids;
  - users have unique e-mails and phones, and every stored user has a non-empty password hash and a lower-case e-mail that matches the pattern (updates run no validators, so other schema rules are not kept);
  - mechanic profiles have unique `userId` and `licenseNumber`, and their rating aggregate is 0 with no reviews, otherwise between 1 and 5 stars (10 to 50 tenths);
  - every review's rating is between 1 and 5, and there is at most one review per booking.
- **Handlers.**
  - A handler that writes is a method on the store. Its `modifies` clause names the collections it may change. Its `ensures` gives the answer and the whole new state of those collections, as a function of the old state.
  - A handler that only reads is a function with a `reads` clause.
  - Every answer is a `Reply`: an HTTP status plus the body `{success, message, data | errors}`.
  - Exceptions a handler catches become `Fault` values. The 500 answer's message is the handler's prefix plus the fault's message.
- **Inputs from outside.** The clock, new ObjectIds, `Math.random()`, bcrypt, JSON Web Tokens and MongoDB's geospatial `$near` are parameters of the operations that use them.
- **Reference definitions.** Each checked property is stated against an independent definition: `FindFirst`/`Find`, `Filter`, `SortDesc`, `Page`, `Newest`, `FirstPerKey`, `MarkedRead`, `ConversationList`, `Rerate`, `CountJob`, and the regular-expression grammars (`MatchesEmailPattern`, `MatchesPhonePattern`).

## Model

| member | source | states |
|---|---|---|
| Response.ErrorResponse | backend/src/utils/response.js:2-8 | the given status, with body `success: false`, the message, and `errors` null unless given |
| Response.SuccessResponse | backend/src/utils/response.js:11-17 | the given status, with body `success: true`, the message, and `data` null unless given |
| Response.EnvelopesDiffer | backend/src/utils/response.js:2-17 | no error envelope equals a success envelope, whatever their statuses and messages |
| Response.ServerError | backend/src/controllers/authController.js:49-51 | a caught exception is a 500, not a success, with message prefix + error.message |
| ErrorHandler.StatusOf | backend/src/middleware/errorHandler.js:5 | the status is error.statusCode when it is set and non-zero, otherwise 500; it is never 0 |
| ErrorHandler.MessageOf | backend/src/middleware/errorHandler.js:6 | the message is error.message when it is non-empty, otherwise 'Internal Server Error' |
| ErrorHandler.HandleError | backend/src/middleware/errorHandler.js:2-13 | always `success: false`; the error object is echoed if and only if NODE_ENV is 'development' |
| ErrorHandler.NoDetailOutsideDevelopment | backend/src/middleware/errorHandler.js:11 | outside development, two errors with the same status and message give identical answers |
| Authorize.Authorize | backend/src/middleware/authorize.js:4-11 | the request passes if and only if a user is attached and its role is in allowedRoles; otherwise 403 'Forbidden: Insufficient permissions' (so an empty list rejects everyone) |
| Authorize.AuthorizeMonotone | backend/src/middleware/authorize.js:6 | enlarging allowedRoles never turns an admitted request away |
| Authenticate.BearerToken | backend/src/middleware/authenticate.js:7 | no header gives no token; a token never contains a space |
| Authenticate.TokenAfterAnyScheme | backend/src/middleware/authenticate.js:7 | the scheme word is not checked: `scheme token` yields `token` for any scheme ('Token x' as well as 'Bearer x') |
| Authenticate.SchemeAloneHasNoToken | backend/src/middleware/authenticate.js:7-11 | a header without a second field carries no token |
| Authenticate.HttpRequest.constructor | backend/src/middleware/authenticate.js:5 | a request arrives with its header and without user or token |
| Authenticate.Authenticate | backend/src/middleware/authenticate.js:5-26 | 401 'No token provided', then 401 'Invalid token', then 401 'User not found', each leaving the request as it was; otherwise req.user is the token's user and req.token the token |
| Authenticate.Admits | backend/src/middleware/authenticate.js:9-21 | a user is admitted if and only if the header has a token, the token verifies, and its user id is stored; the admitted user is a stored user |
| Authenticate.BlockedUserAdmitted | backend/src/middleware/authenticate.js:14-22 | an account with isActive false is still admitted with a valid token |
| AuthStore.StoredUser | frontend/src/context/authStore.js:4 | a missing or empty 'user' entry parses as 'null'; any other entry is parsed, which may throw a SyntaxError |
| AuthStore.StoredToken | frontend/src/context/authStore.js:5 | the token is the stored 'token' entry exactly when one is stored |
| AuthStore.Store.constructor | frontend/src/context/authStore.js:3-6 | for a user entry that parses, the initial state is read from storage: user parsed (null when absent), token as stored, not loading |
| AuthStore.Load | frontend/src/context/authStore.js:3-6 | no store exists exactly when the user entry throws on parsing; otherwise a new store holding the stored user and token, not loading |
| AuthStore.Store.SetUser | frontend/src/context/authStore.js:8 | changes the user only |
| AuthStore.Store.SetToken | frontend/src/context/authStore.js:9 | changes the token only |
| AuthStore.Store.SetLoading | frontend/src/context/authStore.js:10 | changes the loading flag only |
| AuthStore.Store.Login | frontend/src/context/authStore.js:12-16 | writes both storage entries (user as its JSON text) and sets user and token |
| AuthStore.Store.Logout | frontend/src/context/authStore.js:18-22 | removes exactly the two entries, clears user and token, and isAuthenticated is then false |
| AuthStore.ReloadAfterLogin | frontend/src/context/authStore.js:4-16 | a page reload after login restores the same user and token when the user survives a JSON round trip |
| AuthStore.ReloadAfterUnparsableLogin | frontend/src/context/authStore.js:4-16 | after a login whose user's JSON text does not parse back (the text "undefined"), the next page load throws |
| AuthStore.ReloadAfterLogout | frontend/src/context/authStore.js:4-22 | a page reload after logout starts signed out |
| AuthStore.AuthenticatedAfterReload | frontend/src/context/authStore.js:4-27 | after a reload, the session is signed in if and only if a non-empty token and a parsable, non-empty user entry are stored |
| Validators.IsValidEmail | backend/src/utils/validators.js:2-5 | an accepted address has at least six characters and an '@' with text on both sides |
| Validators.EmailSound | backend/src/utils/validators.js:3 | every text the e-mail pattern's parse trees spell is accepted by the recogniser |
| Validators.EmailComplete | backend/src/utils/validators.js:3 | every text the recogniser accepts is spelled by some parse tree of the pattern |
| Validators.EmailIffPattern | backend/src/utils/validators.js:2-5 | isValidEmail accepts exactly the texts that match `^\w+([.-]?\w+)*@\w+([.-]?\w+)*(\.\w{2,3})+$` |
| Validators.EmailShape | backend/src/utils/validators.js:3 | an accepted address has exactly one '@'. Both sides are word runs separated by single '.' or '-'. On the domain side the last separator is '.' and the final run has 2 or 3 characters |
| Validators.IsValidPhone | backend/src/utils/validators.js:8-11 | an accepted number has between 10 and 17 characters and ends in a digit |
| Validators.PhoneParseText | backend/src/utils/validators.js:9 | reading the text of any well-formed phone parse tree gives that tree back |
| Validators.PhoneTextParse | backend/src/utils/validators.js:9 | a tree read off an accepted text is well formed and spells that text |
| Validators.PhoneIffPattern | backend/src/utils/validators.js:8-11 | isValidPhone accepts exactly `^[+]?[(]?[0-9]{3}[)]?[-\s.]?[0-9]{3}[-\s.]?[0-9]{4,6}$` |
| Validators.PhoneDigits | backend/src/utils/validators.js:9 | every accepted phone number has between 10 and 12 digits |
| Validators.UnbalancedParenthesis | backend/src/utils/validators.js:9 | '(123456-7890', with an unmatched '(', is accepted |
| Validators.Substr | backend/src/utils/validators.js:15 | `substr(start, length)` gives at most `length` characters, copied from `start` on |
| Validators.RandomSuffix | backend/src/utils/validators.js:15 | the random part has at most 9 characters, all upper-case base-36 |
| Validators.InvoiceNumber | backend/src/utils/validators.js:14-16 | an invoice number starts with 'INV-' followed by a digit of the clock |
| Validators.TransactionId | backend/src/utils/validators.js:19-21 | a transaction id starts with 'TXN-' followed by a digit of the clock |
| Validators.GeneratedNumbers | backend/src/utils/validators.js:14-21 | an invoice number is 'INV-', then the clock's digits, then at most 9 upper-case base-36 characters; a transaction id is the same with 'TXN-'; the two always differ |
| Js.LexTotal | backend/src/controllers/chatController.js:14 | the default array sort compares any two ids |
| Js.LexAntisymmetric | backend/src/controllers/chatController.js:14 | two ids each sorted no later than the other are equal |
| Js.IndexOf | backend/src/middleware/authenticate.js:7 | the first occurrence of a character, or none exactly when it is absent |
| Js.Split | backend/src/middleware/authenticate.js:7 | `split(sep)` gives at least one piece, and no piece contains the separator |
| Js.JoinSplit | backend/src/controllers/chatController.js:14 | joining the pieces of a split restores the text |
| Js.SplitJoin | backend/src/controllers/chatController.js:14 | splitting a join of separator-free pieces restores the pieces |
| Js.Lower | backend/src/models/User.js:17 | lower-casing keeps the length and lower-cases each ASCII letter |
| Js.LowerIdempotent | backend/src/models/User.js:17 | lower-casing a stored (lower-case) e-mail changes nothing |
| Js.Decimal | backend/src/utils/validators.js:15 | `String(Date.now())` is digits without a leading zero |
| Js.DecimalRoundTrip | backend/src/utils/validators.js:15 | the decimal text reads back as the same number |
| Js.CeilDiv | backend/src/controllers/adminController.js:59 | `Math.ceil(a / b)` is the least integer not below a / b; it is not a number when the limit is 0 |
| Docs.PointFor | backend/src/controllers/serviceController.js:20-25 | a stored point is `[longitude, latitude]`, the reverse of the request's field order |
| Docs.FindFirst | backend/src/controllers/authController.js:21 | `findOne` finds the first matching document, or none exactly when nothing matches |
| Docs.Find | backend/src/controllers/sosController.js:55 | `findById` finds the document with that id, or none exactly when the id is not stored |
| Docs.RemoveAt | backend/src/controllers/adminController.js:120 | `findByIdAndDelete` leaves every other document in order |
| Docs.Filter | backend/src/controllers/mechanicController.js:53-56 | `find` keeps exactly the matching documents |
| Docs.CountSplits | backend/src/controllers/adminController.js:89-94 | every document is counted by exactly one of a query and its negation |
| Docs.SortDesc | backend/src/controllers/adminController.js:50 | `sort({ key: -1 })` is a permutation with the largest key first |
| Docs.SortDescOfDescending | backend/src/controllers/chatController.js:102-104 | sorting an already sorted list changes nothing |
| Docs.Page | backend/src/controllers/adminController.js:48-49 | `skip(s).limit(n)` is the run of documents from position s on: all of them for limit 0, at most n otherwise |
| Docs.Newest | backend/src/controllers/mechanicController.js:18-19 | `sort({ createdAt: -1 }).limit(k)` keeps min(k, n) stored documents, newest first |
| Docs.NewestAreNewest | backend/src/controllers/mechanicController.js:18-19 | a document left out by the limit is no newer than any kept one, and the limit is full |
| Docs.Reverse | backend/src/controllers/chatController.js:73 | `.reverse()` |
| Docs.ReverseOfDescending | backend/src/controllers/chatController.js:73 | reversing a newest-first list gives it oldest first |
| Docs.FirstPerKey | backend/src/controllers/chatController.js:96-101 | `$group` with `$first` keeps stored documents, one per key |
| Docs.FirstPerKeyDistinct | backend/src/controllers/chatController.js:96-101 | the groups have distinct keys |
| Docs.FirstPerKeyCovers | backend/src/controllers/chatController.js:96-101 | every key of the input has a group |
| Docs.FirstPerKeyIsLargest | backend/src/controllers/chatController.js:93-101 | after a descending sort, each group's document is the newest of its group |
| Docs.FirstPerKeyDescending | backend/src/controllers/chatController.js:93-104 | after a descending sort, the groups come out newest first |
| UserModel.ParseRole | backend/src/models/User.js:31-35 | the role enum: a text parses to a role exactly when it is that role's name |
| UserModel.UserFault | backend/src/models/User.js:5-30 | a user validates if and only if names, phone and password are given, the lower-cased e-mail matches the pattern, and the password has at least 6 characters |
| UserModel.SaveFault | backend/src/models/User.js:5-24 | `save()` on a loaded user passes if and only if its names, e-mail and phone are non-empty and the e-mail matches the pattern; the unloaded password is not validated |
| UserModel.NewUser | backend/src/models/User.js:4-66 | `User.create` stores the user as given, with the e-mail lower-cased, the hash as password, isActive true and isEmailVerified false; it throws the validator's fault otherwise |
| MechanicModel.ParseSkill | backend/src/models/Mechanic.js:19-23 | the skills enum |
| MechanicModel.ParseSkills | backend/src/models/Mechanic.js:19-23 | a skill list validates exactly when each element is a skill name |
| MechanicModel.SkillNames | backend/src/models/Mechanic.js:19-23 | a stored skill list as texts, element by element |
| MechanicModel.ParseSkillNames | backend/src/models/Mechanic.js:19-23 | reading back the texts of a skill list gives the list |
| MechanicModel.NewMechanic | backend/src/models/Mechanic.js:3-93 | `Mechanic.create` validates the licence, skills and experience. A new profile is unverified and available, with zero rating, reviews, jobs and earnings and a service radius of 10 |
| ServiceRequestModel.ParseIssueType | backend/src/models/ServiceRequest.js:21-25 | the issue-type enum |
| ServiceRequestModel.ParseRequestStatus | backend/src/models/ServiceRequest.js:42-46 | the request-status enum |
| ServiceRequestModel.ParsePriority | backend/src/models/ServiceRequest.js:47-51 | the priority enum |
| ServiceRequestModel.NewServiceRequest | backend/src/models/ServiceRequest.js:3-62 | `ServiceRequest.create` validates title, description, issue type and priority; a new request has no mechanic and no accepted or completed time |
| BookingModel.ParseBookingStatus | backend/src/models/Booking.js:35-39 | the booking-status enum |
| BookingModel.ParseBookingPaymentStatus | backend/src/models/Booking.js:40-44 | the booking payment-status enum: pending, completed, failed and no 'refunded' |
| PaymentModel.ParsePaymentMethod | backend/src/models/Payment.js:31-35 | the payment-method enum |
| PaymentModel.ParsePaymentStatus | backend/src/models/Payment.js:37-41 | the payment-status enum |
| PaymentModel.NewPayment | backend/src/models/Payment.js:3-53 | `Payment.create` stores the payment as given exactly when the method is an enum value |
| SosModel.ParseEmergencyType | backend/src/models/SOS.js:17-21 | the emergency-type enum |
| SosModel.ParseSosStatus | backend/src/models/SOS.js:30-34 | the SOS status enum |
| SosModel.NewSos | backend/src/models/SOS.js:3-48 | `SOS.create` stores the alert as given exactly when the emergency type is an enum value; it has no responder yet |
| NotificationModel.ParseNotificationType | backend/src/models/Notification.js:17-21 | the notification-type enum |
| Database.Db.constructor | backend/src/models/User.js:4 | an empty store is valid |
| Database.UserUpdateOk | backend/src/models/User.js:14-24 | changing a user's other fields keeps e-mails and phones unique |
| Database.FlagsKeepStored | backend/src/models/User.js:51-58 | changing a user's isActive flag keeps the user valid for the schema |
| Database.MechanicUpdateOk | backend/src/models/Mechanic.js:4-14 | changing a profile's other fields keeps userId and licenseNumber unique |
| ServiceController.PriorityOr | backend/src/controllers/serviceController.js:26 | the given priority, or 'medium' when none or an empty one is given |
| ServiceController.CreateServiceRequest | backend/src/controllers/serviceController.js:7-46 | 400 with nothing stored without title, description, issueType or location; a 500 when validation fails; otherwise one pending request of the caller's is appended and 201 |
| ServiceController.CreatedRequestShape | backend/src/controllers/serviceController.js:15-28 | a stored request is pending, unassigned, the caller's, at `[longitude, latitude]`, medium priority unless one was given |
| ServiceController.SkillFilter | backend/src/controllers/serviceController.js:73-76 | keeps exactly the mechanics whose skills include the one asked for; the identity without a skill |
| ServiceController.Cards | backend/src/controllers/serviceController.js:79-90 | one card per mechanic, built from its populated user; a mechanic whose user is gone makes the map throw |
| ServiceController.GetNearbyMechanics | backend/src/controllers/serviceController.js:49-97 | 400 if and only if latitude or longitude is missing; otherwise the cards of the mechanics the store finds, narrowed to the skill |
| ServiceController.NearbyCardsSound | backend/src/controllers/serviceController.js:58-90 | each card is a verified, available mechanic within maxDistance × 1000 m (10 km by default) that has the skill asked for |
| ServiceController.NearbyCardsComplete | backend/src/controllers/serviceController.js:58-90 | every such mechanic gets a card, in whatever order the store returns them |
| ServiceController.GetUserServiceRequests | backend/src/controllers/serviceController.js:100-112 | the caller's requests, each once, newest first |
| ServiceController.UserRequestsExact | backend/src/controllers/serviceController.js:102-104 | a request is listed exactly when it is stored and the caller made it |
| ServiceController.GetServiceRequestById | backend/src/controllers/serviceController.js:115-130 | 404 if and only if the id is unknown; otherwise 200 with the stored request bearing that id, whoever the caller is |
| ServiceController.CancelServiceRequest | backend/src/controllers/serviceController.js:133-156 | 404, then 403 for another user's request, then 400 unless pending; otherwise only that request's status changes, to cancelled |
| ServiceController.GetNearbyServiceRequests | backend/src/controllers/serviceController.js:159-186 | 400 if and only if a coordinate is missing; otherwise exactly the pending, unassigned requests near the point |
| MechanicController.RecentReviews | backend/src/controllers/mechanicController.js:16-19 | at most five of the mechanic's stored reviews, newest first |
| MechanicController.RecentReviewsAreNewest | backend/src/controllers/mechanicController.js:16-19 | a review left out is older than all five shown |
| MechanicController.GetMechanicProfile | backend/src/controllers/mechanicController.js:8-28 | 404 if and only if the profile id is unknown; otherwise the profile with its five newest reviews, for any caller |
| MechanicController.GetMechanicDashboard | backend/src/controllers/mechanicController.js:31-83 | 403 for non-mechanics, 404 without a profile; otherwise the caller's name, e-mail and phone, the profile's verification, availability, skills and totals, today's job count, the pending count and the recent reviews |
| MechanicController.PendingCountExact | backend/src/controllers/mechanicController.js:53-56 | pending requests and the rest add up to all requests; a request assigned to another mechanic is never counted |
| MechanicController.UpdateAvailability | backend/src/controllers/mechanicController.js:86-106 | 403 for non-mechanics, a 500 without a profile; otherwise only the caller's profile's isAvailable changes |
| MechanicController.AcceptServiceRequest | backend/src/controllers/mechanicController.js:109-135 | 403 for non-mechanics; a 500 for an unknown request; otherwise the request gets the caller's profile and status accepted, whatever its status was |
| MechanicController.GetMechanicBookings | backend/src/controllers/mechanicController.js:138-156 | exactly the bookings with the caller's profile, latest booking date first |
| MechanicController.Counted | backend/src/controllers/mechanicController.js:175-181 | `$inc`: one more job and `cost` more earnings, keeping the rating aggregate valid |
| MechanicController.CountJob | backend/src/controllers/mechanicController.js:175-181 | only the caller's profile, if any, is counted; every other profile stays |
| MechanicController.CountJobOk | backend/src/controllers/mechanicController.js:175-181 | counting a job keeps the profiles' unique keys and aggregates |
| MechanicController.CountJobTwice | backend/src/controllers/mechanicController.js:159-189 | completing the same booking twice counts two jobs and twice its cost |
| MechanicController.CompleteBooking | backend/src/controllers/mechanicController.js:159-189 | 403 for non-mechanics, 404 for an unknown booking; otherwise the booking is completed with no owner or status check, and the caller's profile counts the job |
| BookingController.AssignRequest | backend/src/controllers/bookingController.js:30-36 | the linked request gets the booking's mechanic and status accepted; the others stay |
| BookingController.CreateBooking | backend/src/controllers/bookingController.js:8-45 | 400 with nothing stored when a field is missing or zero; otherwise a scheduled, unpaid booking of the caller's and 201 |
| BookingController.GetUserBookings | backend/src/controllers/bookingController.js:48-60 | the caller's bookings, latest booking date first |
| BookingController.UserBookingsExact | backend/src/controllers/bookingController.js:48-60 | a booking is listed if and only if the caller made it |
| BookingController.Tax | backend/src/controllers/bookingController.js:89-90 | the tax is five percent of the amount rounded to the nearest unit, halves up, and for a non-negative amount lies between 0 and the amount |
| BookingController.ProcessPayment | backend/src/controllers/bookingController.js:63-112 | 400, then 404, then 403 for another user's booking; a bad method is a 500; otherwise a completed payment of amount + tax is stored and the booking becomes paid |
| BookingController.StoredPaymentShape | backend/src/controllers/bookingController.js:84-97 | a stored payment is completed, for the booking's mechanic, and charges amount plus five percent |
| BookingController.RecordPayment | backend/src/controllers/bookingController.js:84-101 | the payment is appended and only that booking's payment status becomes completed, the store staying valid |
| BookingController.GetPaymentDetails | backend/src/controllers/bookingController.js:115-131 | 404 if and only if it is unknown; success if and only if the caller paid it; otherwise 403 |
| BookingController.RefundFirst | backend/src/controllers/bookingController.js:154-159 | `findOneAndUpdate`: only the booking's first payment becomes refunded |
| BookingController.RefundFirstFound | backend/src/controllers/bookingController.js:154-159 | after the refund, the booking's first payment is the refunded one |
| BookingController.CancelBooking | backend/src/controllers/bookingController.js:134-165 | 404, then 403, then 400 unless scheduled; otherwise cancelled, the payment status kept, and a payment refunded if and only if the booking was paid |
| ReviewController.RoundHalfUpNearest | backend/src/controllers/reviewController.js:49 | `Math.round` gives the nearest integer, a half going up |
| ReviewController.RoundHalfUpBetween | backend/src/controllers/reviewController.js:49 | a mean between one and five rounds to between 1.0 and 5.0 |
| ReviewController.SumRatingsBounds | backend/src/controllers/reviewController.js:44 | the sum of n in-range ratings is between n and 5n |
| ReviewController.AverageTenths | backend/src/controllers/reviewController.js:127-136 | 0 for no reviews; otherwise the integer nearest to ten times the mean rating, a half going up |
| ReviewController.AverageInRange | backend/src/controllers/reviewController.js:44-49 | the stored aggregate of in-range reviews is 0 for none and otherwise between 1.0 and 5.0 |
| ReviewController.Rerate | backend/src/controllers/reviewController.js:43-52 | the named mechanic gets the rounded mean and the count of its reviews; the others stay |
| ReviewController.RerateOk | backend/src/controllers/reviewController.js:43-52 | recomputing from in-range reviews keeps every profile's aggregate valid |
| ReviewController.CompleteRequest | backend/src/controllers/reviewController.js:55-60 | the linked request becomes completed at `now`; the others stay |
| ReviewController.AddReview | backend/src/controllers/reviewController.js:32-52 | the review is appended and the named mechanic's aggregate is recomputed over the reviews now stored |
| ReviewController.CompleteLinkedRequest | backend/src/controllers/reviewController.js:55-60 | the request update keeps the store valid |
| ReviewController.SubmitRefusal | backend/src/controllers/reviewController.js:10-30 | 400 for a missing field or an out-of-range rating. 403 when the booking is missing or another user's, not 404. 400 when the booking already has a review. It refuses nothing else |
| ReviewController.SubmitReview | backend/src/controllers/reviewController.js:8-69 | a refusal changes nothing. Otherwise one verified review is stored and the mechanic in the body is re-rated. The booking's request, if any, completes. The reply is 201 |
| ReviewController.SubmitCountsReview | backend/src/controllers/reviewController.js:43 | after a submission the mechanic's reviews are the earlier ones plus the new one |
| ReviewController.GetMechanicReviews | backend/src/controllers/reviewController.js:72-96 | page (page−1)×limit of the mechanic's reviews, newest first, with total and ceil(total / limit) pages |
| ReviewController.ReviewPagesCover | backend/src/controllers/reviewController.js:75-91 | a page holds at most `limit` consecutive reviews, and the page count just covers the total |
| ReviewController.GetUserReviews | backend/src/controllers/reviewController.js:99-109 | exactly the caller's reviews, newest first |
| ReviewController.DeleteReview | backend/src/controllers/reviewController.js:112-145 | 404, then 403 for a non-author; otherwise the review is removed and its mechanic re-rated from the rest (0 and 0 when none remain) |
| ReviewController.RerateTwice | backend/src/controllers/reviewController.js:43-52 | recomputing a profile twice leaves what the second recomputation alone gives |
| ReviewController.DeleteUndoesSubmit | backend/src/controllers/reviewController.js:121-139 | a submitted review with a new id is found last; while it stands the mechanic's count is one more and the average includes it; deleting it restores the profile to the average and count of the earlier reviews |
| AdminController.VerifyMechanic | backend/src/controllers/adminController.js:7-32 | 403 for non-admins; a 500 for an unknown profile; otherwise it is verified by the caller at `now` |
| AdminController.Views | backend/src/models/User.js:25-30 | a query result has one entry per document, each the document without its password |
| AdminController.SelectedDropsOnlyPassword | backend/src/models/User.js:25-30 | two users are shown alike if and only if they differ at most in the password, which `select: false` keeps out |
| AdminController.GetAllUsers | backend/src/controllers/adminController.js:35-65 | 403 for non-admins; a negative skip is a 500. Otherwise the page from skip = (page−1)×limit of the users with the role, newest first, each without its password, with total and ceil(total / limit) pages |
| AdminController.AllUsersMatchRole | backend/src/controllers/adminController.js:38-50 | every listed entry is a stored user, shown without its password, and has the requested role |
| AdminController.GetPendingMechanics | backend/src/controllers/adminController.js:68-82 | 403 if and only if the caller is not an admin; otherwise exactly the unverified profiles, newest first |
| AdminController.GetAdminDashboard | backend/src/controllers/adminController.js:85-109 | 403 if and only if not an admin; otherwise users and mechanics by role, profiles by verification, and all requests |
| AdminController.DashboardCountsAddUp | backend/src/controllers/adminController.js:89-94 | verified plus pending is the number of profiles; the two role counts leave out exactly the admins |
| AdminController.RoleCounts | backend/src/models/User.js:31-35 | every user has exactly one of the three roles |
| AdminController.RejectMechanic | backend/src/controllers/adminController.js:112-133 | 403 for non-admins; otherwise the profile is deleted, 200 is returned, and the users are left unchanged, because the lookup follows the delete |
| AdminController.DeleteProfile | backend/src/controllers/adminController.js:120 | `findByIdAndDelete` removes exactly that profile, keeps the store valid, and its id is then not found |
| AdminController.DeletedProfileGone | backend/src/controllers/adminController.js:120-123 | after `findByIdAndDelete`, `findById` with the same id finds nothing |
| AdminController.Deactivated | backend/src/controllers/adminController.js:126 | `{ isActive: false }` on that user only |
| AdminController.DeactivatedOk | backend/src/controllers/adminController.js:126 | deactivating keeps the users valid |
| AdminController.RejectAndDeactivate | backend/src/controllers/adminController.js:119-127 | as intended: the profile is deleted and its owner's account deactivated (`Deactivated`), every other user unchanged; an unknown id changes nothing |
| AdminController.ToggleUserBlock | backend/src/controllers/adminController.js:136-159 | 403, then 404 for an unknown user; a user whose name or phone a profile update emptied fails `save()`'s validation, a 500 that writes nothing; otherwise only that user's isActive flips |
| AdminController.ToggleTwiceRestores | backend/src/controllers/adminController.js:150 | toggling twice restores the users |
| AuthController.RegistrationRefusal | backend/src/controllers/authController.js:12-24 | refuses if and only if a field is missing (400), the confirmation differs (400), or the e-mail or phone is taken (409). The checks are in that order, and every refusal is a failure |
| AuthController.AddUser | backend/src/controllers/authController.js:27-35 | a user that passes the schema and claims no stored e-mail or phone is appended, and the store stays valid |
| AuthController.CreateAccount | backend/src/controllers/authController.js:96-104 | `User.create`: the schema's fault leaves the users unchanged; otherwise exactly the new account is appended and the store stays valid |
| AuthController.CreateProfile | backend/src/controllers/authController.js:106-116 | `Mechanic.create`: a schema fault or an already-used licence number leaves the profiles unchanged; otherwise exactly the new profile is appended |
| AuthController.RegisterUser | backend/src/controllers/authController.js:7-52 | a refusal changes nothing; a schema failure is a 500; otherwise the user (role 'user') is appended and 201 with a token for the new id |
| AuthController.RegisterMechanic | backend/src/controllers/authController.js:55-134 | as registration, also needing licence number, expiry and skills, with role 'mechanic'. An unverified profile is linked to the new account. A later failure leaves the account created |
| AuthController.AddMechanic | backend/src/controllers/authController.js:104-116 | a profile with a fresh licence and owner is appended, and the store stays valid |
| AuthController.Login | backend/src/controllers/authController.js:137-175 | 400 without e-mail or password; success if and only if the e-mail's user exists and the password matches; the same 401 'Invalid credentials' otherwise |
| AuthController.LoginIgnoresCase | backend/src/controllers/authController.js:146 | the e-mail is matched in any letter case |
| AuthController.LoginAfterRegister | backend/src/controllers/authController.js:27-166 | a just-registered account logs in with its e-mail and password |
| AuthController.GetCurrentUser | backend/src/controllers/authController.js:178-217 | 404 if and only if the user is gone; the mechanic block is present only for mechanics. A mechanic without a profile is a 500 |
| AuthController.WithProfile | backend/src/controllers/authController.js:224-235 | only the fields given change; email, password, role and flags never do |
| AuthController.EmptyUpdateKeepsUser | backend/src/controllers/authController.js:222-235 | an update with no field leaves the user unchanged |
| AuthController.ProfileUpdateOk | backend/src/controllers/authController.js:224-235 | an update whose phone is nobody else's keeps the users valid |
| AuthController.UpdateProfile | backend/src/controllers/authController.js:220-249 | a vanished caller is a 500, as is a phone another account holds; otherwise only the caller's given fields change |
| ChatController.ConversationId | backend/src/controllers/chatController.js:14 | the two user ids joined by a dash, the one that sorts first in string order first |
| ChatController.ConversationIdSymmetric | backend/src/controllers/chatController.js:14-50 | both participants compute the same conversation id |
| ChatController.ConversationIdNamesPair | backend/src/controllers/chatController.js:14 | for dash-free ids, the conversation id determines its two participants |
| ChatController.SendMessage | backend/src/controllers/chatController.js:6-41 | 400 without receiver or message. Otherwise exactly one unread message in the pair's conversation, plus one 'chat' notification to the receiver naming it, and 201 |
| ChatController.MarkedRead | backend/src/controllers/chatController.js:60-70 | the `updateMany` keeps the number of messages |
| ChatController.MarkedReadExact | backend/src/controllers/chatController.js:60-70 | only the caller's unread messages of that conversation become read at `now`; afterwards none is left, and every other message is unchanged |
| ChatController.MarkedReadIdempotent | backend/src/controllers/chatController.js:60-70 | reading the conversation again marks nothing more |
| ChatController.MarkRead | backend/src/controllers/chatController.js:60-70 | marking messages one at a time in place gives the `updateMany` result |
| ChatController.GetConversation | backend/src/controllers/chatController.js:44-82 | a negative skip is a 500 before anything is marked; otherwise marks read, and returns the requested page of the conversation reversed |
| ChatController.PageDescending | backend/src/controllers/chatController.js:55-57 | a page of a newest-first list is newest first |
| ChatController.ReversedPage | backend/src/controllers/chatController.js:55-73 | the reversed page is oldest first, element by element the page backwards |
| ChatController.ConversationPageOrdered | backend/src/controllers/chatController.js:52-73 | the page is the conversation's messages from the skip on, newest first, at most `limit`; emitted oldest first |
| ChatController.ConversationPageMembers | backend/src/controllers/chatController.js:52 | every message shown is stored and belongs to that conversation |
| ChatController.Entries | backend/src/controllers/chatController.js:109-125 | one entry per listed message |
| ChatController.GetConversations | backend/src/controllers/chatController.js:85-132 | always 200, with the conversation list |
| ChatController.LatestIsPrefixOfGroups | backend/src/controllers/chatController.js:102-105 | the second sort keeps the groups as they are; the listing is their first fifty |
| ChatController.ListedAreMine | backend/src/controllers/chatController.js:88-92 | every listed message is one the caller sent or received |
| ChatController.ListedAreLatest | backend/src/controllers/chatController.js:93-101 | every listed message is the latest of its conversation |
| ChatController.ListedOnce | backend/src/controllers/chatController.js:96-101 | each conversation is listed at most once |
| ChatController.UnlistedAreOlder | backend/src/controllers/chatController.js:102-105 | a conversation missing from the list is crowded out by fifty more recent ones |
| ChatController.ConversationsListedOnce | backend/src/controllers/chatController.js:87-106 | at most fifty entries, each conversation once, newest first |
| ChatController.ConversationsListedLatest | backend/src/controllers/chatController.js:87-106 | each entry is the caller's latest message of its conversation |
| ChatController.ConversationsListedAllRecent | backend/src/controllers/chatController.js:87-106 | a conversation of the caller's without an entry is older than all fifty entries |
| SosController.CreateSos | backend/src/controllers/sosController.js:6-38 | 400 without location or emergency type; a bad type is a 500; otherwise an active alert of the caller's with its map link is appended and 201 |
| SosController.NewAlertPoint | backend/src/controllers/sosController.js:14-28 | a new alert is active and the caller's, and stores `[longitude, latitude]`. Its link `https://maps.google.com/?q=` names the same point latitude first |
| SosController.GetUserSosAlerts | backend/src/controllers/sosController.js:41-50 | the caller's alerts, newest first |
| SosController.UserAlertsExact | backend/src/controllers/sosController.js:41-50 | an alert is listed if and only if the caller raised it |
| SosController.ResolvedBy | backend/src/controllers/sosController.js:66-68 | status resolved, responded by the caller at `now`; everything else kept |
| SosController.ResolveTwice | backend/src/controllers/sosController.js:55-68 | resolving again keeps the status resolved; only the response time moves |
| SosController.ResolveSos | backend/src/controllers/sosController.js:53-76 | 404, then 403 for a non-owner; otherwise it resolves whatever the prior status |
| SosController.GetNearbySosAlerts | backend/src/controllers/sosController.js:79-106 | 400 if and only if a coordinate is missing; otherwise what the store finds, newest first |
| SosController.NearbyAlertsExact | backend/src/controllers/sosController.js:81-97 | an alert is listed if and only if it is stored, active and within radius × 1000 m (10 km by default) of the point |

## Left out

- **Foreign code.** Socket.io broadcasts (`new-request`), the Google Maps and weather clients, and the haversine helper in `utils/apis.js` are not part of this model. So is the Express wiring in `server.js` and the route files, including the routes to `updateBookingStatus` and `getBookingById`, which the controllers do not define.
- **Geospatial queries.** `$near` and the 2dsphere indexes are the parameter `within(center, point, metres)`. The handler is given `candidates`, which stands for the store's answer: any order of the matching documents. The distance order of `$near` is not modelled.
- **Floating point.** Money is whole units. A rating is whole tenths: `Math.round(mean * 10) / 10` becomes `RoundHalfUp(10 * sum, count)`. The 5 % tax is `(amount + 10) / 20`. Float ties that round differently in IEEE arithmetic are not modelled. Coordinates are exact reals, and their text in the SOS link is the parameter `show`.
- **Password hashing and tokens.** bcrypt and JSON Web Tokens are parameters:
  - the `pre('save')` hashing hook is the `passwordHash` argument, and `matchPassword` is `matches`;
  - `generateToken` is `sign`, and `verifyToken` is `verify`, whose failure is the 'Unauthorized: Invalid token' answer;
  - token expiry is part of `verify`.
- **Population.** `populate` only adds the referenced user's fields to an answer. Answers carry the stored records, with no joined fields. The one place where population changes the outcome is `getNearbyMechanics`, where a mechanic whose user is gone makes the handler throw; that case is modelled in `Cards`.
- **Chat lookups.** In `getConversations` the answer does not depend on the unused `Chat.findOne({}).populate('senderId')` result, so that lookup is left out.
- **Invalid ObjectIds.** `findById` with a text that is not an ObjectId throws a CastError, answered with a 500 (401 in `authenticate`, whose catch answers every failure that way). The model treats every id as well-formed, so such an id is simply not found.
- **Query strings.** Query-string parsing: `page`, `limit`, `radius` and `maxDistance` arrive already as numbers.
- **Mongoose assumptions.**
  - The `lowercase` setter of `email` applies to query filters (the 409 check and `login`).
  - `findByIdAndUpdate` runs no validators.
  - A required array accepts `[]`.
  - Validation messages are represented by the field at fault, not their exact text.
  - Update keys whose value is `undefined` are dropped (the behaviour of Mongoose 6 and later), so `WithProfile`, `UpdateProfile` and `UpdateAvailability` leave such fields as they were. With Mongoose 5's `omitUndefined: false` they would be written as null.
  - `User.create` and `Mechanic.create` succeed without a `location`. Mongoose still materialises an empty `coordinates` array (backend/src/models/User.js, backend/src/models/Mechanic.js), and MongoDB may refuse such a document under the `2dsphere` index. That refusal is not modelled.
  - A sort leaves documents with equal keys in natural order (see the store above).
  - ServiceController.CreateServiceRequest: a request's `location` is assumed to carry both `latitude` and `longitude`. The handler tests only `!location`, so an object such as `{}` passes and the source writes `coordinates: [undefined, undefined]`; the `2dsphere` index then refuses the document with a 500, or a point without coordinates is stored. The model's location is a pair of numbers, so this path is not modelled.
  - SosController.CreateSos: the same assumption and the same unmodelled path, where the alert's map link also reads `?q=undefined,undefined`.
- **Unmodelled fields.** `ServiceRequest.vehicleInfo`, `Booking.location` and `Booking.notes` are written by `createServiceRequest` and `createBooking` and read by no handler. The records leave them out, so answers do not carry them.
- **Concurrency.** Each handler is one atomic step on the store. The code takes no locks, so interleavings are not modelled.
- **Sessions.** `isAuthenticated` reads the live store through `getState()`. It is modelled as the store's own predicate `IsAuthenticated`.
- **Non-core files.** The React pages, the database scripts, `config.js` and the smoke-test scripts are not part of this model. The repository's Review schema is not part of this model either; `ReviewModel.Review` holds the fields `submitReview` writes.
- **Weakened contracts.**
  - UserModel.NewUser: the store invariant `StoredUser` keeps only three facts of a created user: a non-empty password hash, a lower-case e-mail, and an e-mail that matches the pattern. `NewUser` itself states the rest (names, phone, role, defaults), but the invariant does not carry these facts across later updates.
  - ServiceController.GetNearbyMechanics: its precondition only fixes `candidates` up to order, so the contract says nothing about the distance order of the cards.
  - SosController.GetNearbySosAlerts: the same holds for SOS alerts. Their sort by `createdAt` is modelled, and it is stable over the store's order.
  - Js.Lower: only ASCII `A`–`Z` are lowered, where JavaScript's `toLowerCase` folds all of Unicode ('Ä' becomes 'ä'). The e-mail `lowercase` setter, the 409 duplicate check and `login` are therefore modelled for ASCII case differences only.
  - BookingController.Charge: one `clock` value feeds `InvoiceNumber`, `TransactionId` and `paidAt`. The source reads `Date.now()` separately in each generator, so the two numbers could carry different times. No proved property depends on the reads agreeing.

## Findings

| source | as written | input that shows it | evidently intended | confidence | as-written member | corrected member |
|---|---|---|---|---|---|---|
| backend/src/controllers/adminController.js:119-127 | the profile is deleted first, then looked up with `findById`, which finds nothing, so the owner's account is never deactivated | any stored mechanic profile id, rejected by an admin | read the profile (and its `userId`) before deleting it, then set the owner's `isActive` to false, as the comment "delete user account or deactivate" says | not executed | AdminController.RejectMechanic | AdminController.RejectAndDeactivate |
