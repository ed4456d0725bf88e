/** BookingController (src/modules/bookings/bookings.controller.ts): builds
    the service call from the request and the authenticated user, and maps
    the outcome to a reply. Every route reaches it through authMiddleware,
    so the caller is always present. */
module BookingController {
  import opened Wrappers
  import opened Schema
  import opened Http
  import BookingRules

  /** The request body: any user_id the client sends, the vehicle and the
      dates. */
  datatype BookingBody = BookingBody(userId: Option<int>, vehicleId: int, startDate: int, endDate: int)

  /** { ...req.body, user_id: req.user.userId }: the caller's id replaces
      whatever the body says. */
  function ServicePayload(caller: AuthUser, body: BookingBody): (p: BookingRules.CreateBookingPayload)
    ensures p.userId == caller.userId
    ensures p.vehicleId == body.vehicleId && p.startDate == body.startDate && p.endDate == body.endDate
  {
    BookingRules.CreateBookingPayload(caller.userId, body.vehicleId, body.startDate, body.endDate)
  }

  /** createBooking: 201 with the booking, or 400 with the error. The
      database afterwards is the one the service leaves. */
  function CreateBooking(db: Tables, caller: AuthUser, body: BookingBody): (h: Handled<(int, Booking)>)
    ensures var t := BookingRules.CreateBooking(db, ServicePayload(caller, body));
      && h.after == t.after
      && (h.reply.status == 201 <==> t.result.Ok?)
      && (t.result.Ok? ==> h.reply.data == Some(t.result.value))
      && (t.result.Err? ==> h.reply == BadRequest(t.result.error))
    ensures h.reply.status == 201 || h.reply.status == 400
    ensures h.reply.status == 201 <==> h.reply.success
    ensures h.reply.status == 201 ==>
      h.reply.data.Some? && h.reply.data.value.1.userId == caller.userId
      && h.reply.data.value.1.vehicleId == body.vehicleId
  {
    var p := ServicePayload(caller, body);
    var t := BookingRules.CreateBooking(db, p);
    match t.result
    case Ok(b) =>
      BookingRules.CreateBookingEffect(db, p);
      Handled(Reply(201, true, None, Some(b)), t.after)
    case Err(e) => Handled(BadRequest(e), t.after)
  }

  const ApprovedMessage := "Booking approved"

  /** approveBooking: 200 with the booking, or 400 with the error. */
  function ApproveBooking(db: Tables, bookingId: JsNumber): (h: Handled<(int, Booking)>)
    ensures var t := BookingRules.ApproveBooking(db, bookingId);
      && h.after == t.after
      && (t.result.Ok? ==> h.reply == Reply(200, true, Some(ApprovedMessage), Some(t.result.value)))
      && (t.result.Err? ==> h.reply == BadRequest(t.result.error))
    ensures h.reply.status == 200 || h.reply.status == 400
    ensures h.reply.status == 200 <==>
      bookingId.Int? && bookingId.n in db.bookings && db.bookings[bookingId.n].status == Pending
    ensures h.reply.status == 200 ==>
      && h.reply.data.Some? && h.reply.data.value.1.status == Confirmed
      && h.after == db.(bookings := db.bookings[bookingId.n := db.bookings[bookingId.n].(status := Confirmed)])
    ensures h.reply.status == 400 ==> h.after == db
  {
    var t := BookingRules.ApproveBooking(db, bookingId);
    BookingRules.ApproveBookingSpec(db, bookingId);
    match t.result
    case Ok(b) => Handled(Reply(200, true, Some(ApprovedMessage), Some(b)), t.after)
    case Err(e) => Handled(BadRequest(e), t.after)
  }

  /** getBookings: every booking for an admin, the caller's own otherwise. */
  function GetBookings(db: Tables, caller: AuthUser): (r: Reply<seq<(int, Booking)>>)
    ensures r.status == 200 && r.success && r.data.Some?
  {
    if caller.role == Admin then Reply(200, true, None, Some(BookingRules.GetAllBookings(db)))
    else Reply(200, true, None, Some(BookingRules.GetBookingsByUser(db, caller.userId)))
  }

  /** cancelBooking, on behalf of the caller: 200 with the service's
      message, or 400 with the error. */
  function CancelBooking(db: Tables, caller: AuthUser, bookingId: JsNumber, today: int): (h: Handled<()>)
    ensures var t := BookingRules.CancelBooking(db, bookingId, caller.userId, today);
      && h.after == t.after
      && (t.result.Ok? ==> h.reply == Reply(200, true, Some(t.result.value), None))
      && (t.result.Err? ==> h.reply == BadRequest(t.result.error))
    ensures h.reply.status == 200 || h.reply.status == 400
    ensures h.reply.status == 200 <==>
      && bookingId.Int? && bookingId.n in db.bookings
      && db.bookings[bookingId.n].userId == caller.userId && db.bookings[bookingId.n].startDate > today
    ensures h.reply.status == 200 ==>
      && h.reply.message == Some(BookingRules.CancelledMessage)
      && h.after.bookings == db.bookings[bookingId.n := db.bookings[bookingId.n].(status := Cancelled)]
    ensures h.reply.status == 400 ==> h.after == db
  {
    var t := BookingRules.CancelBooking(db, bookingId, caller.userId, today);
    match t.result
    case Ok(m) => Handled(Reply(200, true, Some(m), None), t.after)
    case Err(e) => Handled(BadRequest(e), t.after)
  }

  /** completeBooking (the return route): 200 with the service's message,
      or 400 with the error. */
  function CompleteBooking(db: Tables, bookingId: JsNumber): (h: Handled<()>)
    ensures var t := BookingRules.CompleteBooking(db, bookingId);
      && h.after == t.after
      && (t.result.Ok? ==> h.reply == Reply(200, true, Some(t.result.value), None))
      && (t.result.Err? ==> h.reply == BadRequest(t.result.error))
    ensures h.reply.status == 200 || h.reply.status == 400
    ensures h.reply.status == 200 <==> bookingId.Int? && bookingId.n in db.bookings
    ensures h.reply.status == 200 ==>
      && h.reply.message == Some(BookingRules.ReturnedMessage)
      && h.after.bookings == db.bookings[bookingId.n := db.bookings[bookingId.n].(status := Completed)]
    ensures h.reply.status == 400 ==> h.after == db
  {
    var t := BookingRules.CompleteBooking(db, bookingId);
    match t.result
    case Ok(m) => Handled(Reply(200, true, Some(m), None), t.after)
    case Err(e) => Handled(BadRequest(e), t.after)
  }

  /** On tables that meet their constraints, a booking request gets its 201
      exactly when the vehicle exists, is available and has a price, the
      dates are in order and the caller is a stored user; the reply then
      carries the caller's new pending booking, the only new row, and its
      vehicle is rented. */
  lemma CreateBookingReplies(db: Tables, caller: AuthUser, body: BookingBody)
    requires Valid(db)
    ensures var h := CreateBooking(db, caller, body);
      && (h.reply.status == 201 <==>
            && body.vehicleId in db.vehicles
            && db.vehicles[body.vehicleId].status == Available
            && db.vehicles[body.vehicleId].pricePerDay.Some?
            && body.endDate > body.startDate
            && caller.userId in db.users)
      && (h.reply.status == 201 ==>
            var (id, b) := h.reply.data.value;
            && id !in db.bookings
            && b.userId == caller.userId && b.vehicleId == body.vehicleId && b.status == Pending
            && h.after.bookings == db.bookings[id := b]
            && h.after.vehicles == db.vehicles[body.vehicleId := db.vehicles[body.vehicleId].(status := Rented)])
  {
    var p := ServicePayload(caller, body);
    BookingRules.CreateBookingSucceedsIff(db, p);
    if BookingRules.CreateBooking(db, p).result.Ok? {
      BookingRules.CreateBookingEffect(db, p);
    }
  }

  /** Whatever user_id the body carries, the booking is the caller's. */
  lemma BodyUserIdIgnored(db: Tables, caller: AuthUser, body: BookingBody, forged: int)
    ensures CreateBooking(db, caller, body.(userId := Some(forged))) == CreateBooking(db, caller, body)
  {
  }

  /** Every service error is a 400 carrying the service's message, with the
      database as the service left it. */
  lemma CreateBookingErrorsAre400(db: Tables, caller: AuthUser, body: BookingBody)
    requires BookingRules.CreateBooking(db, ServicePayload(caller, body)).result.Err?
    ensures var e := BookingRules.CreateBooking(db, ServicePayload(caller, body)).result.error;
      CreateBooking(db, caller, body).reply == Failure(400, Message(e))
      && SameRows(CreateBooking(db, caller, body).after, db)
  {
    BookingRules.CreateBookingAtomic(db, ServicePayload(caller, body));
  }

  /** A customer sees exactly their own bookings, newest first; an admin sees
      every booking. */
  lemma ListingByRole(db: Tables, caller: AuthUser)
    requires Valid(db)
    ensures var r := GetBookings(db, caller).data.value;
      && (forall i :: 0 <= i < |r| ==> r[i].0 in db.bookings && db.bookings[r[i].0] == r[i].1)
      && (forall i, j :: 0 <= i < j < |r| ==> r[i].1.createdAt > r[j].1.createdAt)
      && (caller.role != Admin ==> forall i :: 0 <= i < |r| ==> r[i].1.userId == caller.userId)
      && (forall id :: id in db.bookings && (caller.role == Admin || db.bookings[id].userId == caller.userId) ==>
            (id, db.bookings[id]) in r)
  {
    if caller.role == Admin {
      BookingRules.AllBookingsExact(db);
    } else {
      BookingRules.BookingsByUserExact(db, caller.userId);
    }
  }
}
