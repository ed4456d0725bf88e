/** The fleet invariant the booking lifecycle relies on: a vehicle is
    rented exactly when some pending or confirmed booking references it,
    and no vehicle has two such bookings. Each service operation is shown
    to keep it under the conditions the code actually checks, and each way
    the code lets it break is exhibited. */
module RentalInvariant {
  import opened Wrappers
  import opened Schema
  import opened Statements
  import BookingRules
  import VehicleRules
  import UserRules

  predicate RentedIffActive(db: Tables) {
    forall vid :: vid in db.vehicles ==> (db.vehicles[vid].status == Rented <==> ActiveOnVehicle(db, vid))
  }

  predicate AtMostOneActive(db: Tables) {
    forall a, b ::
      (&& a in db.bookings && b in db.bookings
       && Active(db.bookings[a].status) && Active(db.bookings[b].status)
       && db.bookings[a].vehicleId == db.bookings[b].vehicleId) ==> a == b
  }

  /** The table constraints together with the fleet invariant. */
  predicate Consistent(db: Tables) {
    Valid(db) && RentedIffActive(db) && AtMostOneActive(db)
  }

  /** A booking whose release (cancel or return) cannot desynchronise its
      vehicle: it is still active, or its vehicle has no active booking. */
  predicate Releasable(db: Tables, id: int) {
    id in db.bookings ==> Active(db.bookings[id].status) || !ActiveOnVehicle(db, db.bookings[id].vehicleId)
  }

  lemma EmptyTablesConsistent()
    ensures Consistent(EmptyTables())
  {
  }

  // ---------------------------------------------------------------------
  // Frames
  // ---------------------------------------------------------------------

  /** The invariant reads only vehicle statuses and, of each booking, its
      vehicle and whether it is active. */
  lemma SameFleet(db: Tables, after: Tables)
    requires Valid(after) && Consistent(db)
    requires after.bookings.Keys == db.bookings.Keys && after.vehicles.Keys == db.vehicles.Keys
    requires forall k :: k in db.bookings ==>
      after.bookings[k].vehicleId == db.bookings[k].vehicleId
      && Active(after.bookings[k].status) == Active(db.bookings[k].status)
    requires forall vid :: vid in db.vehicles ==> after.vehicles[vid].status == db.vehicles[vid].status
    ensures Consistent(after)
  {
    forall vid | vid in after.vehicles
      ensures after.vehicles[vid].status == Rented <==> ActiveOnVehicle(after, vid)
    {
      if ActiveOnVehicle(after, vid) {
        var k :| k in after.bookings && after.bookings[k].vehicleId == vid && Active(after.bookings[k].status);
        assert db.bookings[k].vehicleId == vid && Active(db.bookings[k].status);
      }
      if ActiveOnVehicle(db, vid) {
        var k :| k in db.bookings && db.bookings[k].vehicleId == vid && Active(db.bookings[k].status);
        assert after.bookings[k].vehicleId == vid && Active(after.bookings[k].status);
      }
    }
  }

  /** Releasing one booking: it leaves the active states and its vehicle
      becomes available. */
  lemma ReleaseKeepsConsistent(db: Tables, after: Tables, id: int, s: BookingStatus)
    requires Consistent(db) && Valid(after) && id in db.bookings && !Active(s) && Releasable(db, id)
    requires var vid := db.bookings[id].vehicleId;
      && after.bookings == db.bookings[id := db.bookings[id].(status := s)]
      && after.vehicles == db.vehicles[vid := db.vehicles[vid].(status := Available)]
    ensures Consistent(after)
  {
    var vid := db.bookings[id].vehicleId;
    forall w | w in after.vehicles
      ensures after.vehicles[w].status == Rented <==> ActiveOnVehicle(after, w)
    {
      if ActiveOnVehicle(after, w) {
        var k :| k in after.bookings && after.bookings[k].vehicleId == w && Active(after.bookings[k].status);
        assert k != id && db.bookings[k] == after.bookings[k];
        assert ActiveOnVehicle(db, w);
      }
      if w != vid && ActiveOnVehicle(db, w) {
        var k :| k in db.bookings && db.bookings[k].vehicleId == w && Active(db.bookings[k].status);
        assert k != id && after.bookings[k] == db.bookings[k];
      }
    }
  }

  // ---------------------------------------------------------------------
  // Operations that keep the invariant
  // ---------------------------------------------------------------------

  /** createBooking only books an available vehicle, which by the invariant
      has no active booking, and marks it rented. */
  lemma CreateBookingKeepsConsistent(db: Tables, p: BookingRules.CreateBookingPayload)
    requires Consistent(db)
    ensures Consistent(BookingRules.CreateBooking(db, p).after)
  {
    var t := BookingRules.CreateBooking(db, p);
    BookingRules.CreateBookingKeepsValid(db, p);
    if t.result.Err? {
      BookingRules.CreateBookingAtomic(db, p);
      SameFleet(db, t.after);
    } else {
      BookingRules.CreateBookingEffect(db, p);
      BookingRules.CreateBookingSucceedsIff(db, p);
      var (id, b) := t.result.value;
      var vid := p.vehicleId;
      assert !ActiveOnVehicle(db, vid);
      forall w | w in t.after.vehicles
        ensures t.after.vehicles[w].status == Rented <==> ActiveOnVehicle(t.after, w)
      {
        if w == vid {
          assert t.after.bookings[id].vehicleId == vid && Active(t.after.bookings[id].status);
        } else {
          if ActiveOnVehicle(t.after, w) {
            var k :| k in t.after.bookings && t.after.bookings[k].vehicleId == w && Active(t.after.bookings[k].status);
            assert k != id && db.bookings[k] == t.after.bookings[k];
          }
          if ActiveOnVehicle(db, w) {
            var k :| k in db.bookings && db.bookings[k].vehicleId == w && Active(db.bookings[k].status);
            assert k != id && t.after.bookings[k] == db.bookings[k];
          }
        }
      }
      forall a | a in t.after.bookings && a != id && Active(t.after.bookings[a].status)
        ensures t.after.bookings[a].vehicleId != vid
      {
        assert db.bookings[a] == t.after.bookings[a];
      }
    }
  }

  /** A status write that neither starts nor ends an activity keeps the
      invariant. */
  lemma StatusWithinActivity(db: Tables, id: int, s: BookingStatus)
    requires Consistent(db) && id in db.bookings && Active(s) == Active(db.bookings[id].status)
    ensures Consistent(SetBookingStatus(db, id, s))
  {
    SetBookingStatusKeepsValid(db, id, s);
    SameFleet(db, SetBookingStatus(db, id, s));
  }

  /** approveBooking moves pending to confirmed: both active. */
  lemma ApproveBookingKeepsConsistent(db: Tables, bookingId: JsNumber)
    requires Consistent(db)
    ensures Consistent(BookingRules.ApproveBooking(db, bookingId).after)
  {
    var t := BookingRules.ApproveBooking(db, bookingId);
    BookingRules.ApproveBookingSpec(db, bookingId);
    if t.result.Ok? {
      StatusWithinActivity(db, bookingId.n, Confirmed);
      assert t.after == SetBookingStatus(db, bookingId.n, Confirmed);
    }
  }

  /** cancelBooking keeps the invariant when the booking is releasable --
      the code itself does not check its status. */
  lemma CancelBookingKeepsConsistent(db: Tables, id: int, userId: int, today: int)
    requires Consistent(db) && Releasable(db, id)
    ensures Consistent(BookingRules.CancelBooking(db, Int(id), userId, today).after)
  {
    var t := BookingRules.CancelBooking(db, Int(id), userId, today);
    BookingRules.CancelBookingKeepsValid(db, Int(id), userId, today);
    if t.result.Ok? {
      BookingRules.CancelBookingEffect(db, id, userId, today);
      ReleaseKeepsConsistent(db, t.after, id, Cancelled);
    }
  }

  /** completeBooking keeps the invariant when the booking is releasable --
      the code accepts any status. */
  lemma CompleteBookingKeepsConsistent(db: Tables, id: int)
    requires Consistent(db) && Releasable(db, id)
    ensures Consistent(BookingRules.CompleteBooking(db, Int(id)).after)
  {
    var t := BookingRules.CompleteBooking(db, Int(id));
    BookingRules.CompleteBookingKeepsValid(db, Int(id));
    BookingRules.CompleteBookingEffect(db, id);
    if id in db.bookings {
      ReleaseKeepsConsistent(db, t.after, id, Completed);
    }
  }

  /** deleteVehicle refuses while the vehicle has an active booking, so the
      cascade removes only inactive bookings of a vehicle that goes too. */
  lemma DeleteVehicleKeepsConsistent(db: Tables, vehicleId: JsNumber)
    requires Consistent(db)
    ensures Consistent(VehicleRules.DeleteVehicle(db, vehicleId).after)
  {
    var t := VehicleRules.DeleteVehicle(db, vehicleId);
    VehicleRules.DeleteVehicleKeepsValid(db, vehicleId);
    if t.result.Ok? {
      var id := vehicleId.n;
      VehicleRules.DeleteVehicleEffect(db, id);
      forall w | w in t.after.vehicles
        ensures t.after.vehicles[w].status == Rented <==> ActiveOnVehicle(t.after, w)
      {
        if ActiveOnVehicle(db, w) {
          var k :| k in db.bookings && db.bookings[k].vehicleId == w && Active(db.bookings[k].status);
          assert k in t.after.bookings;
        }
      }
    }
  }

  /** deleteUser refuses while the user has an active booking, so the
      cascade removes only inactive bookings. */
  lemma DeleteUserKeepsConsistent(db: Tables, userId: JsNumber)
    requires Consistent(db)
    ensures Consistent(UserRules.DeleteUser(db, userId).after)
  {
    var t := UserRules.DeleteUser(db, userId);
    UserRules.DeleteUserKeepsValid(db, userId);
    if userId.Int? {
      var id := userId.n;
      UserRules.DeleteUserEffect(db, id);
      if t.result.Ok? {
        forall w | w in t.after.vehicles
          ensures t.after.vehicles[w].status == Rented <==> ActiveOnVehicle(t.after, w)
        {
          if ActiveOnVehicle(db, w) {
            var k :| k in db.bookings && db.bookings[k].vehicleId == w && Active(db.bookings[k].status);
            assert db.bookings[k].userId != id;
            assert k in t.after.bookings;
          }
        }
      } else {
        SameFleet(db, t.after);
      }
    }
  }

  /** updateUser touches no vehicle and no booking. */
  lemma UpdateUserKeepsConsistent(db: Tables, userId: JsNumber, body: map<string, Value>)
    requires Consistent(db)
    ensures Consistent(UserRules.UpdateUser(db, userId, body).after)
  {
    UserRules.UpdateUserKeepsValid(db, userId, body);
    if userId.Int? {
      UserRules.UpdateUserEffect(db, userId.n, body);
    }
    SameFleet(db, UserRules.UpdateUser(db, userId, body).after);
  }

  /** updateVehicle keeps the invariant as long as the body does not write
      the status. */
  lemma UpdateVehicleKeepsConsistent(db: Tables, vehicleId: JsNumber, body: map<string, Value>)
    requires Consistent(db) && "status" !in body
    ensures Consistent(VehicleRules.UpdateVehicle(db, vehicleId, body).after)
  {
    var t := VehicleRules.UpdateVehicle(db, vehicleId, body);
    VehicleRules.UpdateVehicleKeepsValid(db, vehicleId, body);
    if vehicleId.Int? {
      VehicleRules.UpdateVehicleEffect(db, vehicleId.n, body);
    }
    SameFleet(db, t.after);
  }

  /** createVehicle keeps the invariant unless the body creates the vehicle
      as rented: a new vehicle has no booking. */
  lemma CreateVehicleKeepsConsistent(db: Tables, body: map<string, Value>)
    requires Consistent(db) && ("status" in body ==> body["status"] != Str("rented"))
    ensures Consistent(VehicleRules.CreateVehicle(db, body).after)
  {
    var t := VehicleRules.CreateVehicle(db, body);
    VehicleRules.CreateVehicleKeepsValid(db, body);
    VehicleRules.CreateVehicleEffect(db, body);
    if t.result.Ok? {
      VehicleRules.CreateVehicleStatus(db, body);
      var (id, v) := t.result.value;
      assert v.status != Rented;
      forall w | w in t.after.vehicles
        ensures t.after.vehicles[w].status == Rented <==> ActiveOnVehicle(t.after, w)
      {
        if w == id {
          assert !ActiveOnVehicle(db, id);
        } else {
          assert t.after.vehicles[w] == db.vehicles[w];
        }
      }
    }
  }

  // ---------------------------------------------------------------------
  // Where the code lets the invariant break
  // ---------------------------------------------------------------------

  /** Cancelling a booking that is no longer active, while another booking
      holds the vehicle, marks the held vehicle available. */
  lemma StaleCancelBreaksInvariant(db: Tables, id: int, other: int, today: int)
    requires Consistent(db) && id in db.bookings && other in db.bookings
    requires !Active(db.bookings[id].status) && db.bookings[id].startDate > today
    requires Active(db.bookings[other].status) && db.bookings[other].vehicleId == db.bookings[id].vehicleId
    ensures var t := BookingRules.CancelBooking(db, Int(id), db.bookings[id].userId, today);
      t.result.Ok? && !RentedIffActive(t.after)
  {
    var b := db.bookings[id];
    var t := BookingRules.CancelBooking(db, Int(id), b.userId, today);
    BookingRules.CancelBookingEffect(db, id, b.userId, today);
    assert other != id && t.after.bookings[other] == db.bookings[other];
    assert b.vehicleId in t.after.vehicles && ActiveOnVehicle(t.after, b.vehicleId);
  }

  /** Returning a booking that is no longer active, while another booking
      holds the vehicle, marks the held vehicle available. */
  lemma StaleCompleteBreaksInvariant(db: Tables, id: int, other: int)
    requires Consistent(db) && id in db.bookings && other in db.bookings
    requires !Active(db.bookings[id].status)
    requires Active(db.bookings[other].status) && db.bookings[other].vehicleId == db.bookings[id].vehicleId
    ensures var t := BookingRules.CompleteBooking(db, Int(id));
      t.result.Ok? && !RentedIffActive(t.after)
  {
    var b := db.bookings[id];
    var t := BookingRules.CompleteBooking(db, Int(id));
    BookingRules.CompleteBookingEffect(db, id);
    assert other != id && t.after.bookings[other] == db.bookings[other];
    assert b.vehicleId in t.after.vehicles && ActiveOnVehicle(t.after, b.vehicleId);
  }

  /** The stale-cancel situation is reachable through the API alone: book,
      cancel, book again, then cancel the first booking again. */
  lemma StaleCancelReachable(db: Tables, p: BookingRules.CreateBookingPayload, today: int)
    requires Consistent(db) && p.startDate > today
    requires BookingRules.CreateBooking(db, p).result.Ok?
    ensures var t1 := BookingRules.CreateBooking(db, p);
      var first := t1.result.value.0;
      var t2 := BookingRules.CancelBooking(t1.after, Int(first), p.userId, today);
      var t3 := BookingRules.CreateBooking(t2.after, p);
      var t4 := BookingRules.CancelBooking(t3.after, Int(first), p.userId, today);
      && t2.result.Ok? && t3.result.Ok? && t4.result.Ok?
      && Consistent(t3.after) && !RentedIffActive(t4.after)
  {
    var t1 := BookingRules.CreateBooking(db, p);
    var first := t1.result.value.0;
    BookingRules.CreateBookingEffect(db, p);
    BookingRules.CreateBookingSucceedsIff(db, p);
    CreateBookingKeepsConsistent(db, p);
    var t2 := BookingRules.CancelBooking(t1.after, Int(first), p.userId, today);
    BookingRules.CancelBookingEffect(t1.after, first, p.userId, today);
    CancelBookingKeepsConsistent(t1.after, first, p.userId, today);
    var t3 := BookingRules.CreateBooking(t2.after, p);
    BookingRules.CreateBookingSucceedsIff(t2.after, p);
    BookingRules.CreateBookingEffect(t2.after, p);
    CreateBookingKeepsConsistent(t2.after, p);
    var second := t3.result.value.0;
    StaleCancelBreaksInvariant(t3.after, first, second, today);
  }

  /** An admin may write the status: marking a held vehicle available
      succeeds and breaks the invariant. */
  lemma StatusWriteBreaksInvariant(db: Tables, vid: int)
    requires Consistent(db) && ActiveOnVehicle(db, vid)
    ensures var t := VehicleRules.UpdateVehicle(db, Int(vid), map["status" := Str("available")]);
      t.result.Ok? && t.result.value.Some? && !RentedIffActive(t.after)
  {
    var body := map["status" := Str("available")];
    var t := VehicleRules.UpdateVehicle(db, Int(vid), body);
    var k :| k in db.bookings && db.bookings[k].vehicleId == vid && Active(db.bookings[k].status);
    assert vid in db.vehicles;
    assert "status" in body;
    VehicleRules.UpdateVehicleEffect(db, vid, body);
    VehicleRules.UpdateSetListIsPatch(db.vehicles[vid], body);
    assert !RegistrationTaken(db.vehicles, db.vehicles[vid].registration, vid);
    assert ActiveOnVehicle(t.after, vid);
  }

  /** After that status write the vehicle can be booked a second time: two
      active bookings on one vehicle. */
  lemma StatusWriteAllowsDoubleBooking(db: Tables, p: BookingRules.CreateBookingPayload)
    requires Consistent(db) && ActiveOnVehicle(db, p.vehicleId)
    requires db.vehicles[p.vehicleId].pricePerDay.Some? && p.userId in db.users && p.endDate > p.startDate
    ensures var u := VehicleRules.UpdateVehicle(db, Int(p.vehicleId), map["status" := Str("available")]);
      var t := BookingRules.CreateBooking(u.after, p);
      t.result.Ok? && !AtMostOneActive(t.after)
  {
    var body := map["status" := Str("available")];
    var u := VehicleRules.UpdateVehicle(db, Int(p.vehicleId), body);
    StatusWriteBreaksInvariant(db, p.vehicleId);
    VehicleRules.UpdateVehicleKeepsValid(db, Int(p.vehicleId), body);
    VehicleRules.UpdateVehicleEffect(db, p.vehicleId, body);
    VehicleRules.UpdateSetListIsPatch(db.vehicles[p.vehicleId], body);
    var t := BookingRules.CreateBooking(u.after, p);
    BookingRules.CreateBookingSucceedsIff(u.after, p);
    BookingRules.CreateBookingEffect(u.after, p);
    var k :| k in db.bookings && db.bookings[k].vehicleId == p.vehicleId && Active(db.bookings[k].status);
    var id := t.result.value.0;
    assert k != id && t.after.bookings[k] == db.bookings[k];
  }

  /** A vehicle created as rented has no booking behind it. */
  lemma RentedCreationBreaksInvariant(db: Tables, body: map<string, Value>)
    requires Consistent(db) && "status" in body && body["status"] == Str("rented")
    requires VehicleRules.CreateVehicle(db, body).result.Ok?
    ensures !RentedIffActive(VehicleRules.CreateVehicle(db, body).after)
  {
    var t := VehicleRules.CreateVehicle(db, body);
    VehicleRules.CreateVehicleEffect(db, body);
    VehicleRules.CreateVehicleStatus(db, body);
    var (id, v) := t.result.value;
    assert v.status == Rented by {
      EnumChecksAcceptExactlyTheirNames("rented", Admin, Car, v.status);
    }
    assert !ActiveOnVehicle(t.after, id);
  }
}
