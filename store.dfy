/** The database behind `pool`: a mutable store whose fields are the three
    tables, the id sequences and the clock. Each statement method changes
    the fields exactly as the statement's definition in Statements says. */
module Store {
  import opened Wrappers
  import opened Schema
  import Statements

  class Database {
    var users: map<int, User>
    var vehicles: map<int, Vehicle>
    var bookings: map<int, Booking>
    var userSeq: int
    var vehicleSeq: int
    var bookingSeq: int
    var clock: int

    /** The value of the database. */
    function State(): Tables
      reads this
    {
      Tables(users, vehicles, bookings, userSeq, vehicleSeq, bookingSeq, clock)
    }

    constructor (initial: Tables)
      ensures State() == initial
    {
      users, vehicles, bookings := initial.users, initial.vehicles, initial.bookings;
      userSeq, vehicleSeq, bookingSeq := initial.userSeq, initial.vehicleSeq, initial.bookingSeq;
      clock := initial.clock;
    }

    method InsertBooking(userId: int, vehicleId: int, startDate: int, endDate: int, totalCost: int)
      returns (r: Result<int, Error>)
      modifies this
      ensures r == Statements.InsertBooking(old(State()), userId, vehicleId, startDate, endDate, totalCost).result
      ensures State() == Statements.InsertBooking(old(State()), userId, vehicleId, startDate, endDate, totalCost).after
    {
      var id := bookingSeq;
      bookingSeq := bookingSeq + 1;
      if endDate <= startDate {
        r := Err(CheckViolation("end_date"));
      } else if totalCost <= 0 {
        r := Err(CheckViolation("total_cost"));
      } else if userId !in users {
        r := Err(ForeignKeyViolation("user_id"));
      } else if vehicleId !in vehicles {
        r := Err(ForeignKeyViolation("vehicle_id"));
      } else if id in bookings {
        r := Err(UniqueViolation("id"));
      } else {
        bookings := bookings[id := Booking(userId, vehicleId, startDate, endDate, totalCost, DefaultBookingStatus, clock)];
        clock := clock + 1;
        r := Ok(id);
      }
    }

    method InsertVehicle(name: Option<Value>, vtype: Option<Value>, registration: Option<Value>,
                         price: Option<Value>, status: Value)
      returns (r: Result<int, Error>)
      modifies this
      ensures r == Statements.InsertVehicle(old(State()), name, vtype, registration, price, status).result
      ensures State() == Statements.InsertVehicle(old(State()), name, vtype, registration, price, status).after
    {
      var id := vehicleSeq;
      vehicleSeq := vehicleSeq + 1;
      var row := Statements.NewVehicleRow(name, vtype, registration, price, status, clock);
      if row.Err? {
        r := Err(row.error);
      } else if Statements.RegistrationTaken(vehicles, row.value.registration, id) {
        r := Err(UniqueViolation("registration_number"));
      } else if id in vehicles {
        r := Err(UniqueViolation("id"));
      } else {
        vehicles := vehicles[id := row.value];
        clock := clock + 1;
        r := Ok(id);
      }
    }

    method SetVehicleStatus(id: int, s: VehicleStatus)
      modifies this
      ensures State() == Statements.SetVehicleStatus(old(State()), id, s)
    {
      if id in vehicles {
        vehicles := vehicles[id := vehicles[id].(status := s)];
      }
    }

    method SetBookingStatus(id: int, s: BookingStatus)
      modifies this
      ensures State() == Statements.SetBookingStatus(old(State()), id, s)
    {
      if id in bookings {
        bookings := bookings[id := bookings[id].(status := s)];
      }
    }

    method UpdateVehicleRow(id: int, assignments: seq<Statements.Assignment>)
      returns (r: Result<Option<Vehicle>, Error>)
      modifies this
      ensures r == Statements.UpdateVehicleRow(old(State()), id, assignments).result
      ensures State() == Statements.UpdateVehicleRow(old(State()), id, assignments).after
    {
      if Statements.BindRejects(assignments) {
        return Err(InvalidInput("price_per_day"));
      }
      if id !in vehicles {
        return Ok(None);
      }
      var updated := Statements.AssignVehicleAll(vehicles[id], assignments);
      if updated.Err? {
        r := Err(updated.error);
      } else if Statements.RegistrationTaken(vehicles, updated.value.registration, id) {
        r := Err(UniqueViolation("registration_number"));
      } else {
        vehicles := vehicles[id := updated.value];
        r := Ok(Some(updated.value));
      }
    }

    method UpdateUserRow(id: int, assignments: seq<Statements.Assignment>)
      returns (r: Result<Option<User>, Error>)
      modifies this
      ensures r == Statements.UpdateUserRow(old(State()), id, assignments).result
      ensures State() == Statements.UpdateUserRow(old(State()), id, assignments).after
    {
      if id !in users {
        return Ok(None);
      }
      var updated := Statements.AssignUserAll(users[id], assignments);
      if updated.Err? {
        r := Err(updated.error);
      } else {
        users := users[id := updated.value];
        r := Ok(Some(updated.value));
      }
    }

    method DeleteVehicleRow(id: int)
      modifies this
      ensures State() == Statements.DeleteVehicleRow(old(State()), id)
    {
      vehicles := vehicles - {id};
      bookings := Statements.Cascade(bookings, Statements.VehicleKey, id);
    }

    /** Returns the row count. */
    method DeleteUserRow(id: int) returns (count: nat)
      modifies this
      ensures Ok(count) == Statements.DeleteUserRow(old(State()), id).result
      ensures State() == Statements.DeleteUserRow(old(State()), id).after
    {
      count := if id in users then 1 else 0;
      users := users - {id};
      bookings := Statements.Cascade(bookings, Statements.UserKey, id);
    }

    method Rollback(saved: Tables)
      modifies this
      ensures State() == Statements.Rollback(saved, old(State()))
    {
      users, vehicles, bookings := saved.users, saved.vehicles, saved.bookings;
    }
  }
}
