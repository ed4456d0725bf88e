/** BookingService's write operations, statement by statement against the
    database, each proved to have the effect its BookingRules function
    defines. */
module BookingService {
  import opened Wrappers
  import opened Schema
  import opened Store
  import BookingRules

  /** createBooking: BEGIN; SELECT the vehicle; check; INSERT the booking;
      UPDATE the vehicle to rented; COMMIT -- or ROLLBACK on any throw. */
  method CreateBooking(db: Database, p: BookingRules.CreateBookingPayload) returns (r: Result<(int, Booking), Error>)
    modifies db
    ensures r == BookingRules.CreateBooking(old(db.State()), p).result
    ensures db.State() == BookingRules.CreateBooking(old(db.State()), p).after
  {
    var saved := db.State();
    if p.vehicleId !in db.vehicles {
      db.Rollback(saved);
      return Err(VehicleNotFound);
    }
    var vehicle := db.vehicles[p.vehicleId];
    if vehicle.status != Available {
      db.Rollback(saved);
      return Err(VehicleNotAvailable);
    }
    if p.endDate <= p.startDate {
      db.Rollback(saved);
      return Err(EndNotAfterStart);
    }
    var days := p.endDate - p.startDate;
    var totalCost := days * BookingRules.PriceNumber(vehicle.pricePerDay);
    var inserted := db.InsertBooking(p.userId, p.vehicleId, p.startDate, p.endDate, totalCost);
    if inserted.Err? {
      db.Rollback(saved);
      return Err(inserted.error);
    }
    var row := db.bookings[inserted.value];
    db.SetVehicleStatus(p.vehicleId, Rented);
    r := Ok((inserted.value, row));
  }

  method ApproveBooking(db: Database, bookingId: JsNumber) returns (r: Result<(int, Booking), Error>)
    modifies db
    ensures r == BookingRules.ApproveBooking(old(db.State()), bookingId).result
    ensures db.State() == BookingRules.ApproveBooking(old(db.State()), bookingId).after
  {
    if !bookingId.Int? {
      return Err(InvalidInteger);
    }
    var id := bookingId.n;
    if id !in db.bookings {
      return Err(BookingNotFound);
    }
    if db.bookings[id].status != Pending {
      return Err(OnlyPendingApprovable);
    }
    db.SetBookingStatus(id, Confirmed);
    r := Ok((id, db.bookings[id]));
  }

  /** cancelBooking: two separate UPDATEs, booking first, then vehicle. */
  method CancelBooking(db: Database, bookingId: JsNumber, userId: int, today: int) returns (r: Result<string, Error>)
    modifies db
    ensures r == BookingRules.CancelBooking(old(db.State()), bookingId, userId, today).result
    ensures db.State() == BookingRules.CancelBooking(old(db.State()), bookingId, userId, today).after
  {
    if !bookingId.Int? {
      return Err(InvalidInteger);
    }
    var id := bookingId.n;
    if id !in db.bookings {
      return Err(BookingNotFound);
    }
    var booking := db.bookings[id];
    if booking.userId != userId {
      return Err(UnauthorizedAccess);
    }
    if booking.startDate <= today {
      return Err(CancelAfterStart);
    }
    db.SetBookingStatus(id, Cancelled);
    db.SetVehicleStatus(booking.vehicleId, Available);
    r := Ok(BookingRules.CancelledMessage);
  }

  /** completeBooking: two separate UPDATEs, booking first, then vehicle. */
  method CompleteBooking(db: Database, bookingId: JsNumber) returns (r: Result<string, Error>)
    modifies db
    ensures r == BookingRules.CompleteBooking(old(db.State()), bookingId).result
    ensures db.State() == BookingRules.CompleteBooking(old(db.State()), bookingId).after
  {
    if !bookingId.Int? {
      return Err(InvalidInteger);
    }
    var id := bookingId.n;
    if id !in db.bookings {
      return Err(BookingNotFound);
    }
    var booking := db.bookings[id];
    db.SetBookingStatus(id, Completed);
    db.SetVehicleStatus(booking.vehicleId, Available);
    r := Ok(BookingRules.ReturnedMessage);
  }
}
