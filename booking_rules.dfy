/** BookingService (src/modules/bookings/bookings.services.ts) as functions
    from the database before a call to its outcome and the database after
    it, with the properties the lifecycle promises. */
module BookingRules {
  import opened Wrappers
  import opened Schema
  import opened Statements
  import Listing

  /** CreateBookingPayload; dates are day numbers. */
  datatype CreateBookingPayload = CreateBookingPayload(userId: int, vehicleId: int, startDate: int, endDate: int)

  /** Number(vehicle.price_per_day): a NULL price reads as 0. */
  function PriceNumber(p: Option<int>): int {
    if p.Some? then p.value else 0
  }

  /** createBooking, inside BEGIN ... COMMIT / ROLLBACK. */
  function CreateBooking(db: Tables, p: CreateBookingPayload): (t: Transition<(int, Booking)>)
  {
    if p.vehicleId !in db.vehicles then Transition(Err(VehicleNotFound), db)
    else
      var v := db.vehicles[p.vehicleId];
      if v.status != Available then Transition(Err(VehicleNotAvailable), db)
      else if p.endDate <= p.startDate then Transition(Err(EndNotAfterStart), db)
      else
        var days := p.endDate - p.startDate;
        var ins := InsertBooking(db, p.userId, p.vehicleId, p.startDate, p.endDate, days * PriceNumber(v.pricePerDay));
        if ins.result.Err? then Transition(Err(ins.result.error), Rollback(db, ins.after))
        else
          var id := ins.result.value;
          Transition(Ok((id, ins.after.bookings[id])), SetVehicleStatus(ins.after, p.vehicleId, Rented))
  }

  /** approveBooking: pending -> confirmed. */
  function ApproveBooking(db: Tables, bookingId: JsNumber): (t: Transition<(int, Booking)>)
  {
    match IntegerParam(bookingId)
    case Err(e) => Transition(Err(e), db)
    case Ok(id) =>
      if id !in db.bookings then Transition(Err(BookingNotFound), db)
      else if db.bookings[id].status != Pending then Transition(Err(OnlyPendingApprovable), db)
      else
        var after := SetBookingStatus(db, id, Confirmed);
        Transition(Ok((id, after.bookings[id])), after)
  }

  const CancelledMessage := "Booking cancelled successfully"
  const ReturnedMessage := "Vehicle returned successfully"

  /** cancelBooking by the user `userId` on day `today`. */
  function CancelBooking(db: Tables, bookingId: JsNumber, userId: int, today: int): (t: Transition<string>)
  {
    match IntegerParam(bookingId)
    case Err(e) => Transition(Err(e), db)
    case Ok(id) =>
      if id !in db.bookings then Transition(Err(BookingNotFound), db)
      else
        var b := db.bookings[id];
        if b.userId != userId then Transition(Err(UnauthorizedAccess), db)
        else if b.startDate <= today then Transition(Err(CancelAfterStart), db)
        else Transition(Ok(CancelledMessage), SetVehicleStatus(SetBookingStatus(db, id, Cancelled), b.vehicleId, Available))
  }

  /** completeBooking (the /return route). */
  function CompleteBooking(db: Tables, bookingId: JsNumber): (t: Transition<string>)
  {
    match IntegerParam(bookingId)
    case Err(e) => Transition(Err(e), db)
    case Ok(id) =>
      if id !in db.bookings then Transition(Err(BookingNotFound), db)
      else
        var b := db.bookings[id];
        Transition(Ok(ReturnedMessage), SetVehicleStatus(SetBookingStatus(db, id, Completed), b.vehicleId, Available))
  }

  /** getAllBookings: the inner JOIN with users and vehicles, newest first
      (the joined display columns are not modelled). */
  function GetAllBookings(db: Tables): seq<(int, Booking)> {
    Listing.NewestFirst(db.bookings, db.bookingSeq, (b: Booking) => b.userId in db.users && b.vehicleId in db.vehicles)
  }

  /** getBookingsByUser: WHERE user_id = $1 ORDER BY created_at DESC. */
  function GetBookingsByUser(db: Tables, userId: int): seq<(int, Booking)> {
    Listing.NewestFirst(db.bookings, db.bookingSeq, (b: Booking) => b.userId == userId)
  }

  // ---------------------------------------------------------------------
  // createBooking
  // ---------------------------------------------------------------------

  /** The checks run in source order: existence, availability, then dates;
      none of them writes anything. */
  lemma CreateBookingCheckOrder(db: Tables, p: CreateBookingPayload)
    ensures p.vehicleId !in db.vehicles ==> CreateBooking(db, p) == Transition(Err(VehicleNotFound), db)
    ensures p.vehicleId in db.vehicles && db.vehicles[p.vehicleId].status != Available ==>
      CreateBooking(db, p) == Transition(Err(VehicleNotAvailable), db)
    ensures p.vehicleId in db.vehicles && db.vehicles[p.vehicleId].status == Available && p.endDate <= p.startDate ==>
      CreateBooking(db, p) == Transition(Err(EndNotAfterStart), db)
  {
  }

  /** All or nothing: whatever fails, no table changes. */
  lemma CreateBookingAtomic(db: Tables, p: CreateBookingPayload)
    ensures CreateBooking(db, p).result.Err? ==> SameRows(CreateBooking(db, p).after, db)
  {
  }

  lemma PositiveProduct(a: int, b: int)
    requires a > 0 && b > 0
    ensures a * b > 0
  {
  }

  /** On a database that satisfies its constraints, createBooking succeeds
      exactly when the vehicle exists, is available, has a price, the dates
      are in order and the booking user exists. */
  lemma CreateBookingSucceedsIff(db: Tables, p: CreateBookingPayload)
    requires Valid(db)
    ensures CreateBooking(db, p).result.Ok? <==>
      && p.vehicleId in db.vehicles
      && db.vehicles[p.vehicleId].status == Available
      && db.vehicles[p.vehicleId].pricePerDay.Some?
      && p.endDate > p.startDate
      && p.userId in db.users
  {
    if p.vehicleId in db.vehicles && p.endDate > p.startDate {
      var v := db.vehicles[p.vehicleId];
      assert db.bookingSeq !in db.bookings;
      if v.pricePerDay.Some? {
        PositiveProduct(p.endDate - p.startDate, v.pricePerDay.value);
      }
    }
  }

  /** A successful booking carries the payload's user, vehicle and dates,
      costs days x price per day, is pending, and is the only new row; the
      only other change is that its vehicle becomes rented. */
  lemma CreateBookingEffect(db: Tables, p: CreateBookingPayload)
    requires CreateBooking(db, p).result.Ok?
    ensures var t := CreateBooking(db, p);
      var (id, b) := t.result.value;
      && p.vehicleId in db.vehicles
      && id !in db.bookings
      && b == Booking(p.userId, p.vehicleId, p.startDate, p.endDate,
                      (p.endDate - p.startDate) * PriceNumber(db.vehicles[p.vehicleId].pricePerDay), Pending, db.clock)
      && t.after.bookings == db.bookings[id := b]
      && t.after.vehicles == db.vehicles[p.vehicleId := db.vehicles[p.vehicleId].(status := Rented)]
      && t.after.users == db.users
  {
  }

  /** A vehicle at 50.00 a day booked for three days costs 150.00 (amounts
      in cents). */
  lemma ThreeDaysAtFiftyCostsOneFifty(db: Tables, userId: int, vehicleId: int, start: int)
    requires Valid(db) && userId in db.users && vehicleId in db.vehicles
    requires db.vehicles[vehicleId].status == Available && db.vehicles[vehicleId].pricePerDay == Some(5000)
    ensures CreateBooking(db, CreateBookingPayload(userId, vehicleId, start, start + 3)).result.Ok?
    ensures CreateBooking(db, CreateBookingPayload(userId, vehicleId, start, start + 3)).result.value.1.totalCost == 15000
  {
    CreateBookingSucceedsIff(db, CreateBookingPayload(userId, vehicleId, start, start + 3));
  }

  /** The tables createBooking leaves: the inserted row and the rented
      vehicle, the rolled-back snapshot, or the tables untouched. */
  lemma CreateBookingAfter(db: Tables, p: CreateBookingPayload, cost: int)
    requires p.vehicleId in db.vehicles && db.vehicles[p.vehicleId].status == Available && p.endDate > p.startDate
    requires cost == (p.endDate - p.startDate) * PriceNumber(db.vehicles[p.vehicleId].pricePerDay)
    ensures var ins := InsertBooking(db, p.userId, p.vehicleId, p.startDate, p.endDate, cost);
      CreateBooking(db, p).after ==
        if ins.result.Ok? then SetVehicleStatus(ins.after, p.vehicleId, Rented) else Rollback(db, ins.after)
  {
  }

  lemma CreateBookingKeepsValid(db: Tables, p: CreateBookingPayload)
    requires Valid(db)
    ensures Valid(CreateBooking(db, p).after)
  {
    if p.vehicleId in db.vehicles && db.vehicles[p.vehicleId].status == Available && p.endDate > p.startDate {
      var cost := (p.endDate - p.startDate) * PriceNumber(db.vehicles[p.vehicleId].pricePerDay);
      var ins := InsertBooking(db, p.userId, p.vehicleId, p.startDate, p.endDate, cost);
      CreateBookingAfter(db, p, cost);
      if ins.result.Ok? {
        InsertBookingKeepsValid(db, p.userId, p.vehicleId, p.startDate, p.endDate, cost);
        SetVehicleStatusKeepsValid(ins.after, p.vehicleId, Rented);
      } else {
        RollbackKeepsValid(db, ins.after);
      }
    } else {
      assert CreateBooking(db, p).after == db;
    }
  }

  // ---------------------------------------------------------------------
  // approveBooking
  // ---------------------------------------------------------------------

  /** Only an existing pending booking is approved; it alone becomes
      confirmed and vehicles are untouched. Every failure changes nothing. */
  lemma ApproveBookingSpec(db: Tables, bookingId: JsNumber)
    ensures var t := ApproveBooking(db, bookingId);
      && (t.result.Err? ==> t.after == db)
      && (t.result.Ok? <==> bookingId.Int? && bookingId.n in db.bookings && db.bookings[bookingId.n].status == Pending)
      && (bookingId.Int? && bookingId.n !in db.bookings ==> t.result == Err(BookingNotFound))
      && (bookingId.Int? && bookingId.n in db.bookings && db.bookings[bookingId.n].status != Pending ==>
            t.result == Err(OnlyPendingApprovable))
      && (t.result.Ok? ==>
            && t.result.value == (bookingId.n, db.bookings[bookingId.n].(status := Confirmed))
            && t.after == db.(bookings := db.bookings[bookingId.n := db.bookings[bookingId.n].(status := Confirmed)]))
  {
  }

  // ---------------------------------------------------------------------
  // cancelBooking
  // ---------------------------------------------------------------------

  /** The checks run in order -- existence, ownership, then start date -- so
      a caller who does not own the booking is refused whatever its dates,
      and nothing is written on any refusal. */
  lemma CancelBookingCheckOrder(db: Tables, id: int, userId: int, today: int)
    ensures id !in db.bookings ==> CancelBooking(db, Int(id), userId, today) == Transition(Err(BookingNotFound), db)
    ensures id in db.bookings && db.bookings[id].userId != userId ==>
      CancelBooking(db, Int(id), userId, today) == Transition(Err(UnauthorizedAccess), db)
    ensures id in db.bookings && db.bookings[id].userId == userId && db.bookings[id].startDate <= today ==>
      CancelBooking(db, Int(id), userId, today) == Transition(Err(CancelAfterStart), db)
  {
  }

  /** The owner cancels before the start day, whatever the booking's status:
      the booking becomes cancelled and its vehicle available; nothing else
      changes. */
  lemma CancelBookingEffect(db: Tables, id: int, userId: int, today: int)
    requires id in db.bookings && db.bookings[id].userId == userId && db.bookings[id].startDate > today
    ensures var t := CancelBooking(db, Int(id), userId, today);
      var b := db.bookings[id];
      && t.result == Ok(CancelledMessage)
      && t.after.bookings == db.bookings[id := b.(status := Cancelled)]
      && t.after.vehicles == (if b.vehicleId in db.vehicles
                              then db.vehicles[b.vehicleId := db.vehicles[b.vehicleId].(status := Available)]
                              else db.vehicles)
      && t.after.users == db.users
  {
  }

  lemma CancelBookingKeepsValid(db: Tables, bookingId: JsNumber, userId: int, today: int)
    requires Valid(db)
    ensures Valid(CancelBooking(db, bookingId, userId, today).after)
  {
    if bookingId.Int? && bookingId.n in db.bookings {
      SetBookingStatusKeepsValid(db, bookingId.n, Cancelled);
      SetVehicleStatusKeepsValid(SetBookingStatus(db, bookingId.n, Cancelled), db.bookings[bookingId.n].vehicleId, Available);
    }
  }

  // ---------------------------------------------------------------------
  // completeBooking
  // ---------------------------------------------------------------------

  /** completeBooking only needs the booking to exist: from any status it
      becomes completed and its vehicle available. */
  lemma CompleteBookingEffect(db: Tables, id: int)
    ensures id !in db.bookings ==> CompleteBooking(db, Int(id)) == Transition(Err(BookingNotFound), db)
    ensures id in db.bookings ==>
      var t := CompleteBooking(db, Int(id));
      var b := db.bookings[id];
      && t.result == Ok(ReturnedMessage)
      && t.after.bookings == db.bookings[id := b.(status := Completed)]
      && t.after.vehicles == (if b.vehicleId in db.vehicles
                              then db.vehicles[b.vehicleId := db.vehicles[b.vehicleId].(status := Available)]
                              else db.vehicles)
      && t.after.users == db.users
  {
  }

  /** Completing twice is the same as completing once. */
  lemma CompleteBookingIdempotent(db: Tables, bookingId: JsNumber)
    ensures var once := CompleteBooking(db, bookingId);
      CompleteBooking(once.after, bookingId) == once
  {
    var once := CompleteBooking(db, bookingId);
    if bookingId.Int? && bookingId.n in db.bookings {
      var id := bookingId.n;
      var b := db.bookings[id];
      assert once.after.bookings[id] == b.(status := Completed);
      assert once.after.bookings[id := b.(status := Completed)] == once.after.bookings;
      if b.vehicleId in db.vehicles {
        var v := once.after.vehicles[b.vehicleId];
        assert once.after.vehicles[b.vehicleId := v.(status := Available)] == once.after.vehicles;
      }
    }
  }

  lemma CompleteBookingKeepsValid(db: Tables, bookingId: JsNumber)
    requires Valid(db)
    ensures Valid(CompleteBooking(db, bookingId).after)
  {
    if bookingId.Int? && bookingId.n in db.bookings {
      SetBookingStatusKeepsValid(db, bookingId.n, Completed);
      SetVehicleStatusKeepsValid(SetBookingStatus(db, bookingId.n, Completed), db.bookings[bookingId.n].vehicleId, Available);
    }
  }

  lemma ApproveBookingKeepsValid(db: Tables, bookingId: JsNumber)
    requires Valid(db)
    ensures Valid(ApproveBooking(db, bookingId).after)
  {
    if bookingId.Int? && bookingId.n in db.bookings {
      SetBookingStatusKeepsValid(db, bookingId.n, Confirmed);
    }
  }

  // ---------------------------------------------------------------------
  // Listings
  // ---------------------------------------------------------------------

  /** getBookingsByUser returns exactly the user's bookings, each once,
      newest first. */
  lemma BookingsByUserExact(db: Tables, userId: int)
    requires Valid(db)
    ensures var r := GetBookingsByUser(db, userId);
      && (forall i :: 0 <= i < |r| ==> r[i].0 in db.bookings && db.bookings[r[i].0] == r[i].1 && r[i].1.userId == userId)
      && (forall id :: id in db.bookings && db.bookings[id].userId == userId ==> (id, db.bookings[id]) in r)
      && (forall i, j :: 0 <= i < j < |r| ==> r[i].0 != r[j].0 && r[i].1.createdAt > r[j].1.createdAt)
  {
    var keep := (b: Booking) => b.userId == userId;
    Listing.NewestFirstSound(db.bookings, db.bookingSeq, keep);
    Listing.NewestFirstComplete(db.bookings, db.bookingSeq, keep);
    Listing.NewestFirstDecreasing(db.bookings, db.bookingSeq, keep);
    Listing.NewestFirstByCreation(db.bookings, db.bookingSeq, keep, (b: Booking) => b.createdAt);
  }

  /** With the foreign keys in place the JOIN drops nothing: getAllBookings
      returns every booking, each once, newest first. */
  lemma AllBookingsExact(db: Tables)
    requires Valid(db)
    ensures var r := GetAllBookings(db);
      && (forall i :: 0 <= i < |r| ==> r[i].0 in db.bookings && db.bookings[r[i].0] == r[i].1)
      && (forall id :: id in db.bookings ==> (id, db.bookings[id]) in r)
      && (forall i, j :: 0 <= i < j < |r| ==> r[i].0 != r[j].0 && r[i].1.createdAt > r[j].1.createdAt)
  {
    var keep := (b: Booking) => b.userId in db.users && b.vehicleId in db.vehicles;
    Listing.NewestFirstSound(db.bookings, db.bookingSeq, keep);
    Listing.NewestFirstComplete(db.bookings, db.bookingSeq, keep);
    Listing.NewestFirstDecreasing(db.bookings, db.bookingSeq, keep);
    Listing.NewestFirstByCreation(db.bookings, db.bookingSeq, keep, (b: Booking) => b.createdAt);
  }
}
