/** What each SQL statement the services issue does to the tables,
    including the constraint checks PostgreSQL performs and the ON DELETE
    CASCADE of the two foreign keys of bookings. */
module Statements {
  import opened Wrappers
  import opened Schema

  /** One `column = $i` of an UPDATE's SET list, with its bound value. */
  datatype Assignment = Assignment(column: string, value: Value)

  /** INSERT INTO bookings (user_id, vehicle_id, start_date, end_date,
      total_cost) VALUES (...) RETURNING *. The id comes from nextval(),
      which is not undone when the statement fails. */
  function InsertBooking(db: Tables, userId: int, vehicleId: int, startDate: int, endDate: int, totalCost: int): (t: Transition<int>)
    ensures t.after.bookingSeq == db.bookingSeq + 1
    ensures t.result.Err? ==> SameRows(t.after, db) && t.after.clock == db.clock
    ensures t.result.Ok? <==>
      endDate > startDate && totalCost > 0 && userId in db.users && vehicleId in db.vehicles && db.bookingSeq !in db.bookings
    ensures t.result.Ok? ==>
      && t.result.value == db.bookingSeq
      && t.after.users == db.users && t.after.vehicles == db.vehicles
      && t.after.bookings == db.bookings[db.bookingSeq := Booking(userId, vehicleId, startDate, endDate, totalCost, Pending, db.clock)]
  {
    var id := db.bookingSeq;
    var advanced := db.(bookingSeq := id + 1);
    if endDate <= startDate then Transition(Err(CheckViolation("end_date")), advanced)
    else if totalCost <= 0 then Transition(Err(CheckViolation("total_cost")), advanced)
    else if userId !in db.users then Transition(Err(ForeignKeyViolation("user_id")), advanced)
    else if vehicleId !in db.vehicles then Transition(Err(ForeignKeyViolation("vehicle_id")), advanced)
    else if id in db.bookings then Transition(Err(UniqueViolation("id")), advanced)
    else
      var row := Booking(userId, vehicleId, startDate, endDate, totalCost, DefaultBookingStatus, db.clock);
      Transition(Ok(id), advanced.(bookings := db.bookings[id := row], clock := db.clock + 1))
  }

  predicate RegistrationTaken(vehicles: map<int, Vehicle>, registration: string, except: int) {
    exists other :: other in vehicles && other != except && vehicles[other].registration == registration
  }

  /** PostgreSQL converts each parameter to its column's type when it binds
      the statement, before any row is read or built: a string is not a
      NUMERIC price_per_day. */
  predicate PriceParamRejected(price: Value) {
    price.Str?
  }

  /** The vehicle row an INSERT would store, or the first error: a price the
      binding rejects, then NOT NULL on name, type and registration_number,
      then the CHECKs on type, price_per_day and status. A missing price
      stays NULL. */
  function NewVehicleRow(name: Option<Value>, vtype: Option<Value>, registration: Option<Value>,
                         price: Option<Value>, status: Value, createdAt: int): (r: Result<Vehicle, Error>)
    ensures r.Ok? ==> VehicleChecks(r.value) && r.value.createdAt == createdAt
    ensures r.Ok? <==>
      && name.Some? && vtype.Some? && registration.Some?
      && vtype.value.Str? && ParseVehicleType(vtype.value.s).Some?
      && (price.Some? ==> price.value.Num? && price.value.n > 0)
      && status.Str? && ParseVehicleStatus(status.s).Some?
    ensures price.Some? && PriceParamRejected(price.value) ==> r == Err(InvalidInput("price_per_day"))
  {
    if price.Some? && PriceParamRejected(price.value) then Err(InvalidInput("price_per_day"))
    else if name.None? then Err(NotNullViolation("name"))
    else if vtype.None? then Err(NotNullViolation("type"))
    else if registration.None? then Err(NotNullViolation("registration_number"))
    else
      match VehicleTypeColumn(vtype.value)
      case Err(e) => Err(e)
      case Ok(t) =>
        var p := if price.None? then Ok(None) else
          (match PriceColumn(price.value) case Ok(n) => Ok(Some(n)) case Err(e) => Err(e));
        match p
        case Err(e) => Err(e)
        case Ok(pr) =>
          match VehicleStatusColumn(status)
          case Err(e) => Err(e)
          case Ok(st) => Ok(Vehicle(TextColumn(name.value), t, TextColumn(registration.value), pr, st, createdAt))
  }

  /** INSERT INTO vehicles (name, type, registration_number, price_per_day,
      status) VALUES (...) RETURNING *. */
  function InsertVehicle(db: Tables, name: Option<Value>, vtype: Option<Value>, registration: Option<Value>,
                         price: Option<Value>, status: Value): (t: Transition<int>)
    ensures t.after.vehicleSeq == db.vehicleSeq + 1
    ensures t.result.Err? ==> SameRows(t.after, db) && t.after.clock == db.clock
    ensures t.result.Ok? <==>
      && NewVehicleRow(name, vtype, registration, price, status, db.clock).Ok?
      && !RegistrationTaken(db.vehicles, NewVehicleRow(name, vtype, registration, price, status, db.clock).value.registration, db.vehicleSeq)
      && db.vehicleSeq !in db.vehicles
    ensures t.result.Ok? ==>
      && t.result.value == db.vehicleSeq && db.vehicleSeq !in db.vehicles
      && t.after.users == db.users && t.after.bookings == db.bookings
      && NewVehicleRow(name, vtype, registration, price, status, db.clock).Ok?
      && t.after.vehicles == db.vehicles[db.vehicleSeq := NewVehicleRow(name, vtype, registration, price, status, db.clock).value]
      && !RegistrationTaken(db.vehicles, t.after.vehicles[db.vehicleSeq].registration, db.vehicleSeq)
  {
    var id := db.vehicleSeq;
    var advanced := db.(vehicleSeq := id + 1);
    match NewVehicleRow(name, vtype, registration, price, status, db.clock)
    case Err(e) => Transition(Err(e), advanced)
    case Ok(v) =>
      if RegistrationTaken(db.vehicles, v.registration, id) then Transition(Err(UniqueViolation("registration_number")), advanced)
      else if id in db.vehicles then Transition(Err(UniqueViolation("id")), advanced)
      else Transition(Ok(id), advanced.(vehicles := db.vehicles[id := v], clock := db.clock + 1))
  }

  /** UPDATE vehicles SET status = s WHERE id = $1 (no row: no change). */
  function SetVehicleStatus(db: Tables, id: int, s: VehicleStatus): (after: Tables)
    ensures after.vehicles.Keys == db.vehicles.Keys
    ensures forall k :: k in after.vehicles ==>
      after.vehicles[k] == if k == id then db.vehicles[k].(status := s) else db.vehicles[k]
    ensures after.users == db.users && after.bookings == db.bookings
  {
    if id in db.vehicles then db.(vehicles := db.vehicles[id := db.vehicles[id].(status := s)]) else db
  }

  /** UPDATE bookings SET status = s WHERE id = $1 (no row: no change). */
  function SetBookingStatus(db: Tables, id: int, s: BookingStatus): (after: Tables)
    ensures after.bookings.Keys == db.bookings.Keys
    ensures forall k :: k in after.bookings ==>
      after.bookings[k] == if k == id then db.bookings[k].(status := s) else db.bookings[k]
    ensures after.users == db.users && after.vehicles == db.vehicles
  {
    if id in db.bookings then db.(bookings := db.bookings[id := db.bookings[id].(status := s)]) else db
  }

  /** One SET assignment on a vehicle row. */
  function AssignVehicle(v: Vehicle, a: Assignment): (r: Result<Vehicle, Error>)
    ensures r.Ok? ==> r.value.createdAt == v.createdAt
    ensures r.Ok? && VehicleChecks(v) ==> VehicleChecks(r.value)
  {
    if a.column == "name" then Ok(v.(name := TextColumn(a.value)))
    else if a.column == "type" then
      (match VehicleTypeColumn(a.value) case Ok(t) => Ok(v.(vtype := t)) case Err(e) => Err(e))
    else if a.column == "registration_number" then Ok(v.(registration := TextColumn(a.value)))
    else if a.column == "price_per_day" then
      (match PriceColumn(a.value) case Ok(p) => Ok(v.(pricePerDay := Some(p))) case Err(e) => Err(e))
    else if a.column == "status" then
      (match VehicleStatusColumn(a.value) case Ok(s) => Ok(v.(status := s)) case Err(e) => Err(e))
    else Err(UndefinedColumn(a.column))
  }

  /** The whole SET list, left to right; the first rejected value aborts. */
  function AssignVehicleAll(v: Vehicle, assignments: seq<Assignment>): (r: Result<Vehicle, Error>)
    ensures r.Ok? ==> r.value.createdAt == v.createdAt
    ensures r.Ok? && VehicleChecks(v) ==> VehicleChecks(r.value)
    decreases |assignments|
  {
    if assignments == [] then Ok(v)
    else
      match AssignVehicle(v, assignments[0])
      case Err(e) => Err(e)
      case Ok(v1) => AssignVehicleAll(v1, assignments[1..])
  }

  /** A SET list whose price_per_day parameter the binding rejects. */
  predicate BindRejects(assignments: seq<Assignment>) {
    exists i :: 0 <= i < |assignments| && assignments[i].column == "price_per_day" && PriceParamRejected(assignments[i].value)
  }

  /** UPDATE vehicles SET ... WHERE id = $k RETURNING *: a parameter the
      binding rejects fails before any row is read; then no row when the id
      is absent; otherwise the updated row, unless a value is rejected or
      the new registration number belongs to another vehicle. */
  function UpdateVehicleRow(db: Tables, id: int, assignments: seq<Assignment>): (t: Transition<Option<Vehicle>>)
    ensures t.result.Err? || t.result == Ok(None) ==> t.after == db
    ensures BindRejects(assignments) ==> t.result == Err(InvalidInput("price_per_day"))
    ensures t.result == Ok(None) <==> !BindRejects(assignments) && id !in db.vehicles
    ensures t.result.Ok? && t.result.value.Some? <==>
      && !BindRejects(assignments) && id in db.vehicles
      && AssignVehicleAll(db.vehicles[id], assignments).Ok?
      && !RegistrationTaken(db.vehicles, AssignVehicleAll(db.vehicles[id], assignments).value.registration, id)
    ensures t.result.Ok? && t.result.value.Some? ==>
      && id in db.vehicles
      && Ok(t.result.value.value) == AssignVehicleAll(db.vehicles[id], assignments)
      && !RegistrationTaken(db.vehicles, t.result.value.value.registration, id)
      && t.after == db.(vehicles := db.vehicles[id := t.result.value.value])
  {
    if BindRejects(assignments) then Transition(Err(InvalidInput("price_per_day")), db)
    else if id !in db.vehicles then Transition(Ok(None), db)
    else
      match AssignVehicleAll(db.vehicles[id], assignments)
      case Err(e) => Transition(Err(e), db)
      case Ok(v) =>
        if RegistrationTaken(db.vehicles, v.registration, id) then Transition(Err(UniqueViolation("registration_number")), db)
        else Transition(Ok(Some(v)), db.(vehicles := db.vehicles[id := v]))
  }

  /** One SET assignment on a user row. */
  function AssignUser(u: User, a: Assignment): (r: Result<User, Error>)
    ensures r.Ok? ==> r.value.email == u.email && r.value.password == u.password
  {
    if a.column == "name" then Ok(u.(name := TextColumn(a.value)))
    else if a.column == "phone" then Ok(u.(phone := TextColumn(a.value)))
    else if a.column == "role" then
      (match RoleColumn(a.value) case Ok(r) => Ok(u.(role := r)) case Err(e) => Err(e))
    else Err(UndefinedColumn(a.column))
  }

  function AssignUserAll(u: User, assignments: seq<Assignment>): (r: Result<User, Error>)
    ensures r.Ok? ==> r.value.email == u.email && r.value.password == u.password
    decreases |assignments|
  {
    if assignments == [] then Ok(u)
    else
      match AssignUser(u, assignments[0])
      case Err(e) => Err(e)
      case Ok(u1) => AssignUserAll(u1, assignments[1..])
  }

  /** UPDATE users SET ... WHERE id = $k RETURNING ...: no row when the id is
      absent, otherwise the updated row unless a value is rejected. */
  function UpdateUserRow(db: Tables, id: int, assignments: seq<Assignment>): (t: Transition<Option<User>>)
    ensures t.result.Err? || t.result == Ok(None) ==> t.after == db
    ensures t.result == Ok(None) <==> id !in db.users
    ensures t.result.Ok? && t.result.value.Some? <==> id in db.users && AssignUserAll(db.users[id], assignments).Ok?
    ensures t.result.Ok? && t.result.value.Some? ==>
      && id in db.users
      && Ok(t.result.value.value) == AssignUserAll(db.users[id], assignments)
      && t.after == db.(users := db.users[id := t.result.value.value])
  {
    if id !in db.users then Transition(Ok(None), db)
    else
      match AssignUserAll(db.users[id], assignments)
      case Err(e) => Transition(Err(e), db)
      case Ok(u) => Transition(Ok(Some(u)), db.(users := db.users[id := u]))
  }

  /** The two foreign keys of bookings, both ON DELETE CASCADE. */
  datatype ForeignKey = UserKey | VehicleKey

  function Referenced(b: Booking, fk: ForeignKey): int {
    match fk
    case UserKey => b.userId
    case VehicleKey => b.vehicleId
  }

  /** The bookings that survive deleting row `id` of the table `fk`
      references: ON DELETE CASCADE removes exactly those that point at it. */
  function Cascade(bookings: map<int, Booking>, fk: ForeignKey, id: int): (r: map<int, Booking>)
    ensures forall b :: b in r <==> b in bookings && Referenced(bookings[b], fk) != id
    ensures forall b :: b in r ==> r[b] == bookings[b]
  {
    map b | b in bookings && Referenced(bookings[b], fk) != id :: bookings[b]
  }

  /** DELETE FROM vehicles WHERE id = $1, with the cascade to bookings. */
  function DeleteVehicleRow(db: Tables, id: int): (after: Tables)
    ensures after.vehicles.Keys == db.vehicles.Keys - {id}
    ensures forall k :: k in after.vehicles ==> after.vehicles[k] == db.vehicles[k]
    ensures after.bookings == Cascade(db.bookings, VehicleKey, id)
    ensures after.users == db.users
  {
    db.(vehicles := db.vehicles - {id}, bookings := Cascade(db.bookings, VehicleKey, id))
  }

  /** DELETE FROM users WHERE id = $1, with the cascade to bookings; the
      result is the row count. */
  function DeleteUserRow(db: Tables, id: int): (t: Transition<nat>)
    ensures t.result.Ok? && (t.result.value == 1 <==> id in db.users) && t.result.value <= 1
    ensures t.after.users.Keys == db.users.Keys - {id}
    ensures forall k :: k in t.after.users ==> t.after.users[k] == db.users[k]
    ensures t.after.bookings == Cascade(db.bookings, UserKey, id)
    ensures t.after.vehicles == db.vehicles
  {
    Transition(Ok(if id in db.users then 1 else 0),
               db.(users := db.users - {id}, bookings := Cascade(db.bookings, UserKey, id)))
  }

  /** ROLLBACK: every row back to the snapshot taken at BEGIN; sequences and
      the clock keep their current values. */
  function Rollback(saved: Tables, current: Tables): (after: Tables)
    ensures SameRows(after, saved)
    ensures after.userSeq == current.userSeq && after.vehicleSeq == current.vehicleSeq
    ensures after.bookingSeq == current.bookingSeq && after.clock == current.clock
  {
    current.(users := saved.users, vehicles := saved.vehicles, bookings := saved.bookings)
  }

  // ---------------------------------------------------------------------
  // Every statement keeps every table constraint.
  // ---------------------------------------------------------------------

  lemma InsertBookingKeepsValid(db: Tables, userId: int, vehicleId: int, startDate: int, endDate: int, totalCost: int)
    requires Valid(db)
    ensures Valid(InsertBooking(db, userId, vehicleId, startDate, endDate, totalCost).after)
  {
  }

  lemma InsertVehicleKeepsValid(db: Tables, name: Option<Value>, vtype: Option<Value>, registration: Option<Value>,
                                price: Option<Value>, status: Value)
    requires Valid(db)
    ensures Valid(InsertVehicle(db, name, vtype, registration, price, status).after)
  {
  }

  /** `after` differs from `db` at most in the status columns. */
  predicate StatusesOnly(db: Tables, after: Tables) {
    && after.users == db.users
    && after.userSeq == db.userSeq && after.vehicleSeq == db.vehicleSeq
    && after.bookingSeq == db.bookingSeq && after.clock == db.clock
    && after.vehicles.Keys == db.vehicles.Keys
    && (forall k :: k in after.vehicles ==> after.vehicles[k] == db.vehicles[k].(status := after.vehicles[k].status))
    && after.bookings.Keys == db.bookings.Keys
    && (forall k :: k in after.bookings ==> after.bookings[k] == db.bookings[k].(status := after.bookings[k].status))
  }

  /** No constraint but the enumerated status CHECKs (which the types keep)
      reads a status column. */
  lemma StatusesOnlyKeepsValid(db: Tables, after: Tables)
    requires Valid(db) && StatusesOnly(db, after)
    ensures Valid(after)
  {
    forall a, b | a in after.vehicles && b in after.vehicles && after.vehicles[a].registration == after.vehicles[b].registration
      ensures a == b
    {
      assert db.vehicles[a].registration == db.vehicles[b].registration;
    }
    forall a, b | a in after.vehicles && b in after.vehicles && a < b
      ensures after.vehicles[a].createdAt < after.vehicles[b].createdAt
    {
      assert db.vehicles[a].createdAt < db.vehicles[b].createdAt;
    }
    forall a, b | a in after.bookings && b in after.bookings && a < b
      ensures after.bookings[a].createdAt < after.bookings[b].createdAt
    {
      assert db.bookings[a].createdAt < db.bookings[b].createdAt;
    }
    forall k | k in after.vehicles ensures VehicleChecks(after.vehicles[k]) && after.vehicles[k].createdAt < after.clock {
      assert VehicleChecks(db.vehicles[k]);
    }
    forall k | k in after.bookings
      ensures BookingChecks(after.bookings[k]) && after.bookings[k].createdAt < after.clock
      ensures after.bookings[k].userId in after.users && after.bookings[k].vehicleId in after.vehicles
    {
      assert BookingChecks(db.bookings[k]);
    }
  }

  lemma SetVehicleStatusKeepsValid(db: Tables, id: int, s: VehicleStatus)
    requires Valid(db)
    ensures Valid(SetVehicleStatus(db, id, s))
  {
    StatusesOnlyKeepsValid(db, SetVehicleStatus(db, id, s));
  }

  lemma SetBookingStatusKeepsValid(db: Tables, id: int, s: BookingStatus)
    requires Valid(db)
    ensures Valid(SetBookingStatus(db, id, s))
  {
    StatusesOnlyKeepsValid(db, SetBookingStatus(db, id, s));
  }

  /** A rollback restores rows that satisfied every constraint; sequences
      and the clock only moved forward since. */
  lemma RollbackKeepsValid(saved: Tables, current: Tables)
    requires Valid(saved)
    requires current.userSeq >= saved.userSeq && current.vehicleSeq >= saved.vehicleSeq
    requires current.bookingSeq >= saved.bookingSeq && current.clock >= saved.clock
    ensures Valid(Rollback(saved, current))
  {
  }

  lemma UpdateVehicleRowKeepsValid(db: Tables, id: int, assignments: seq<Assignment>)
    requires Valid(db)
    ensures Valid(UpdateVehicleRow(db, id, assignments).after)
  {
  }

  lemma UpdateUserRowKeepsValid(db: Tables, id: int, assignments: seq<Assignment>)
    requires Valid(db)
    ensures Valid(UpdateUserRow(db, id, assignments).after)
  {
  }

  lemma DeleteVehicleRowKeepsValid(db: Tables, id: int)
    requires Valid(db)
    ensures Valid(DeleteVehicleRow(db, id))
  {
  }

  lemma DeleteUserRowKeepsValid(db: Tables, id: int)
    requires Valid(db)
    ensures Valid(DeleteUserRow(db, id).after)
  {
  }
}
