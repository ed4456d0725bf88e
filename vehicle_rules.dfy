/** VehicleService (src/modules/vehicles/vehicles.service.ts) as functions
    from the database before a call to its outcome and the database after
    it, with the properties its operations promise. */
module VehicleRules {
  import opened Wrappers
  import opened Schema
  import opened Statements
  import opened SetClauses
  import Listing

  /** The allow-list of updateVehicle, in its order. */
  const VehicleColumns: seq<string> := ["name", "type", "registration_number", "price_per_day", "status"]

  const DeletedMessage := "Vehicle deleted successfully"

  /** A body field, None when undefined. */
  function Field(body: map<string, Value>, key: string): Option<Value> {
    if key in body then Some(body[key]) else None
  }

  /** createVehicle: status defaults to "available" when the body omits it. */
  function CreateVehicle(db: Tables, body: map<string, Value>): (t: Transition<(int, Vehicle)>)
  {
    var status := if "status" in body then body["status"] else Str("available");
    var ins := InsertVehicle(db, Field(body, "name"), Field(body, "type"), Field(body, "registration_number"),
                             Field(body, "price_per_day"), status);
    match ins.result
    case Err(e) => Transition(Err(e), ins.after)
    case Ok(id) => Transition(Ok((id, ins.after.vehicles[id])), ins.after)
  }

  /** getAllVehicles: ORDER BY created_at DESC. */
  function GetAllVehicles(db: Tables): seq<(int, Vehicle)> {
    Listing.NewestFirst(db.vehicles, db.vehicleSeq, (v: Vehicle) => true)
  }

  /** getVehicleById: the row, or None (undefined) when there is none. */
  function GetVehicleById(db: Tables, vehicleId: JsNumber): (r: Result<Option<Vehicle>, Error>)
    ensures r.Ok? <==> vehicleId.Int?
    ensures r.Ok? ==> (r.value.Some? <==> vehicleId.n in db.vehicles)
    ensures r.Ok? && r.value.Some? ==> r.value.value == db.vehicles[vehicleId.n]
  {
    match IntegerParam(vehicleId)
    case Err(e) => Err(e)
    case Ok(id) => Ok(if id in db.vehicles then Some(db.vehicles[id]) else None)
  }

  /** updateVehicle: null when no allowed field is defined (no query at
      all), otherwise the UPDATE built by the allow-list loop. Its
      parameters are bound in placeholder order: the SET values, then the
      id. */
  function UpdateVehicle(db: Tables, vehicleId: JsNumber, body: map<string, Value>): (t: Transition<Option<Vehicle>>)
  {
    var assignments := Assignments(VehicleColumns, body);
    if assignments == [] then Transition(Ok(None), db)
    else if BindRejects(assignments) then Transition(Err(InvalidInput("price_per_day")), db)
    else
      match IntegerParam(vehicleId)
      case Err(e) => Transition(Err(e), db)
      case Ok(id) => UpdateVehicleRow(db, id, assignments)
  }

  /** deleteVehicle: refused while an active booking references the
      vehicle; otherwise DELETE, which reports success even when no row
      matched. */
  function DeleteVehicle(db: Tables, vehicleId: JsNumber): (t: Transition<string>)
  {
    match IntegerParam(vehicleId)
    case Err(e) => Transition(Err(e), db)
    case Ok(id) =>
      if ActiveOnVehicle(db, id) then Transition(Err(VehicleHasActiveBookings), db)
      else Transition(Ok(DeletedMessage), DeleteVehicleRow(db, id))
  }

  /** The effect of a body on a vehicle, field by field: each of the five
      allowed fields the body defines takes the body's value, every other
      field keeps its value; a value the column rejects is an error (the
      first such, in allow-list order). */
  function PatchVehicle(v: Vehicle, body: map<string, Value>): Result<Vehicle, Error> {
    if "type" in body && VehicleTypeColumn(body["type"]).Err? then Err(VehicleTypeColumn(body["type"]).error)
    else if "price_per_day" in body && PriceColumn(body["price_per_day"]).Err? then Err(PriceColumn(body["price_per_day"]).error)
    else if "status" in body && VehicleStatusColumn(body["status"]).Err? then Err(VehicleStatusColumn(body["status"]).error)
    else
      Ok(Vehicle(
        if "name" in body then TextColumn(body["name"]) else v.name,
        if "type" in body then VehicleTypeColumn(body["type"]).value else v.vtype,
        if "registration_number" in body then TextColumn(body["registration_number"]) else v.registration,
        if "price_per_day" in body then Some(PriceColumn(body["price_per_day"]).value) else v.pricePerDay,
        if "status" in body then VehicleStatusColumn(body["status"]).value else v.status,
        v.createdAt))
  }

  // ---------------------------------------------------------------------
  // The SET list and the field-by-field patch agree.
  // ---------------------------------------------------------------------

  lemma {:induction false} AssignVehicleAllAppend(v: Vehicle, xs: seq<Assignment>, ys: seq<Assignment>)
    ensures AssignVehicleAll(v, xs + ys) ==
      match AssignVehicleAll(v, xs) case Err(e) => Err(e) case Ok(v1) => AssignVehicleAll(v1, ys)
    decreases |xs|
  {
    if xs == [] {
      assert xs + ys == ys;
    } else {
      assert (xs + ys)[0] == xs[0];
      assert (xs + ys)[1..] == xs[1..] + ys;
      match AssignVehicle(v, xs[0])
      case Err(e) =>
      case Ok(v1) => AssignVehicleAllAppend(v1, xs[1..], ys);
    }
  }

  lemma VehicleAssignmentsUnfold(body: map<string, Value>)
    ensures Assignments(VehicleColumns, body) ==
      Single(body, "name") + Single(body, "type") + Single(body, "registration_number")
      + Single(body, "price_per_day") + Single(body, "status")
  {
    var c1: seq<string> := ["name"];
    var c2 := c1 + ["type"];
    var c3 := c2 + ["registration_number"];
    var c4 := c3 + ["price_per_day"];
    var c5 := c4 + ["status"];
    assert c5 == VehicleColumns;
    assert c1 == [] + ["name"];
    AssignmentsSnoc([], "name", body);
    AssignmentsSnoc(c1, "type", body);
    AssignmentsSnoc(c2, "registration_number", body);
    AssignmentsSnoc(c3, "price_per_day", body);
    AssignmentsSnoc(c4, "status", body);
  }

  lemma SingleAssignment(v: Vehicle, body: map<string, Value>, key: string)
    ensures AssignVehicleAll(v, Single(body, key)) ==
      if key in body then AssignVehicle(v, Assignment(key, body[key])) else Ok(v)
  {
    if key in body {
      assert Single(body, key)[1..] == [];
    }
  }

  /** One allowed key's assignment, after the previous ones. */
  function ApplyKey(r: Result<Vehicle, Error>, body: map<string, Value>, key: string): Result<Vehicle, Error> {
    match r
    case Err(e) => Err(e)
    case Ok(u) => AssignVehicleAll(u, Single(body, key))
  }

  /** The SET list runs the five allowed keys one after the other. */
  lemma VehicleSetListSteps(v: Vehicle, body: map<string, Value>)
    ensures AssignVehicleAll(v, Assignments(VehicleColumns, body)) ==
      ApplyKey(ApplyKey(ApplyKey(ApplyKey(ApplyKey(Ok(v), body, "name"), body, "type"),
        body, "registration_number"), body, "price_per_day"), body, "status")
  {
    VehicleAssignmentsUnfold(body);
    var a, b, c, d, e := Single(body, "name"), Single(body, "type"), Single(body, "registration_number"),
                         Single(body, "price_per_day"), Single(body, "status");
    AssignVehicleAllAppend(v, a + b + c + d, e);
    AssignVehicleAllAppend(v, a + b + c, d);
    AssignVehicleAllAppend(v, a + b, c);
    AssignVehicleAllAppend(v, a, b);
  }

  /** What each step does to a vehicle. */
  lemma VehicleKeySteps(u: Vehicle, body: map<string, Value>)
    ensures ApplyKey(Ok(u), body, "name") == Ok(u.(name := if "name" in body then TextColumn(body["name"]) else u.name))
    ensures ApplyKey(Ok(u), body, "type") ==
      if "type" !in body then Ok(u)
      else match VehicleTypeColumn(body["type"]) case Ok(t) => Ok(u.(vtype := t)) case Err(e) => Err(e)
    ensures ApplyKey(Ok(u), body, "registration_number") ==
      Ok(u.(registration := if "registration_number" in body then TextColumn(body["registration_number"]) else u.registration))
    ensures ApplyKey(Ok(u), body, "price_per_day") ==
      if "price_per_day" !in body then Ok(u)
      else match PriceColumn(body["price_per_day"]) case Ok(p) => Ok(u.(pricePerDay := Some(p))) case Err(e) => Err(e)
    ensures ApplyKey(Ok(u), body, "status") ==
      if "status" !in body then Ok(u)
      else match VehicleStatusColumn(body["status"]) case Ok(st) => Ok(u.(status := st)) case Err(e) => Err(e)
  {
    SingleAssignment(u, body, "name");
    SingleAssignment(u, body, "type");
    SingleAssignment(u, body, "registration_number");
    SingleAssignment(u, body, "price_per_day");
    SingleAssignment(u, body, "status");
  }

  /** Running the UPDATE's SET list on a row gives exactly the field-by-field
      patch: the allowed fields the body defines take its values, the others
      keep theirs. */
  lemma UpdateSetListIsPatch(v: Vehicle, body: map<string, Value>)
    ensures AssignVehicleAll(v, Assignments(VehicleColumns, body)) == PatchVehicle(v, body)
  {
    VehicleSetListSteps(v, body);
    VehicleKeySteps(v, body);
    var v1 := v.(name := if "name" in body then TextColumn(body["name"]) else v.name);
    VehicleKeySteps(v1, body);
    if "type" in body && VehicleTypeColumn(body["type"]).Err? {
      return;
    }
    var v2 := v1.(vtype := if "type" in body then VehicleTypeColumn(body["type"]).value else v.vtype);
    VehicleKeySteps(v2, body);
    var v3 := v2.(registration := if "registration_number" in body then TextColumn(body["registration_number"]) else v.registration);
    VehicleKeySteps(v3, body);
    if "price_per_day" in body && PriceColumn(body["price_per_day"]).Err? {
      return;
    }
    var v4 := v3.(pricePerDay := if "price_per_day" in body then Some(PriceColumn(body["price_per_day"]).value) else v.pricePerDay);
    VehicleKeySteps(v4, body);
  }

  // ---------------------------------------------------------------------
  // createVehicle
  // ---------------------------------------------------------------------

  /** A vehicle created without a status is available; with one, it has the
      status the body names. */
  lemma CreateVehicleStatus(db: Tables, body: map<string, Value>)
    requires CreateVehicle(db, body).result.Ok?
    ensures var v := CreateVehicle(db, body).result.value.1;
      && ("status" !in body ==> v.status == Available)
      && ("status" in body ==> body["status"] == Str(VehicleStatusName(v.status)))
  {
    var v := CreateVehicle(db, body).result.value.1;
    EnumChecksAcceptExactlyTheirNames(if "status" in body && body["status"].Str? then body["status"].s else "", Admin, Car, v.status);
  }

  /** createVehicle succeeds exactly when name, type and registration number
      are given, every given value passes its column's check and the
      registration number is not in use. A created vehicle takes a fresh id
      and carries the body's fields; nothing else changes. On failure no
      row changes. */
  lemma CreateVehicleEffect(db: Tables, body: map<string, Value>)
    ensures var t := CreateVehicle(db, body);
      && (t.result.Err? ==> SameRows(t.after, db))
      && (t.result.Ok? <==>
            && "name" in body && "type" in body && "registration_number" in body
            && VehicleTypeColumn(body["type"]).Ok?
            && ("price_per_day" in body ==> PriceColumn(body["price_per_day"]).Ok?)
            && ("status" in body ==> VehicleStatusColumn(body["status"]).Ok?)
            && !RegistrationTaken(db.vehicles, TextColumn(body["registration_number"]), db.vehicleSeq)
            && db.vehicleSeq !in db.vehicles)
      && (t.result.Ok? ==>
            var (id, v) := t.result.value;
            && id !in db.vehicles
            && "name" in body && v.name == TextColumn(body["name"])
            && "type" in body && body["type"] == Str(VehicleTypeName(v.vtype))
            && "registration_number" in body && v.registration == TextColumn(body["registration_number"])
            && (forall other :: other in db.vehicles ==> db.vehicles[other].registration != v.registration)
            && (v.pricePerDay.Some? <==> "price_per_day" in body)
            && ("price_per_day" in body ==> body["price_per_day"] == Num(v.pricePerDay.value) && v.pricePerDay.value > 0)
            && t.after.vehicles == db.vehicles[id := v]
            && t.after.bookings == db.bookings && t.after.users == db.users)
  {
    var t := CreateVehicle(db, body);
    if t.result.Ok? {
      var v := t.result.value.1;
      EnumChecksAcceptExactlyTheirNames(if body["type"].Str? then body["type"].s else "", Admin, v.vtype, Available);
    }
  }

  lemma CreateVehicleKeepsValid(db: Tables, body: map<string, Value>)
    requires Valid(db)
    ensures Valid(CreateVehicle(db, body).after)
  {
    var status := if "status" in body then body["status"] else Str("available");
    InsertVehicleKeepsValid(db, Field(body, "name"), Field(body, "type"), Field(body, "registration_number"),
                            Field(body, "price_per_day"), status);
  }

  // ---------------------------------------------------------------------
  // updateVehicle
  // ---------------------------------------------------------------------

  /** Only the allow-list matters: two bodies that agree on those five keys
      update identically. */
  lemma UpdateVehicleIgnoresOtherKeys(db: Tables, vehicleId: JsNumber, body: map<string, Value>, body': map<string, Value>)
    requires forall k :: k in VehicleColumns ==> (k in body <==> k in body') && (k in body ==> body[k] == body'[k])
    ensures UpdateVehicle(db, vehicleId, body) == UpdateVehicle(db, vehicleId, body')
  {
    AssignmentsIgnoreOtherKeys(VehicleColumns, body, body');
  }

  /** With no allowed field defined, updateVehicle returns null and writes
      nothing, whatever the id. */
  lemma UpdateVehicleNoFields(db: Tables, vehicleId: JsNumber, body: map<string, Value>)
    requires forall k :: k in VehicleColumns ==> k !in body
    ensures UpdateVehicle(db, vehicleId, body) == Transition(Ok(None), db)
  {
    AssignmentsEmpty(VehicleColumns, body);
  }

  /** The body defines a price the binding rejects. */
  predicate PriceRejected(body: map<string, Value>) {
    "price_per_day" in body && PriceParamRejected(body["price_per_day"])
  }

  /** The SET list carries a rejected price exactly when the body does. */
  lemma VehicleBindRejects(body: map<string, Value>)
    ensures BindRejects(Assignments(VehicleColumns, body)) <==> PriceRejected(body)
  {
    var a := Assignments(VehicleColumns, body);
    if PriceRejected(body) {
      AssignmentsComplete(VehicleColumns, body, "price_per_day");
      var i :| 0 <= i < |a| && a[i] == Assignment("price_per_day", body["price_per_day"]);
    }
  }

  /** The outcomes of updateVehicle on an integer id. Null exactly when the
      body defines no allowed field, or when the id is absent and every
      parameter binds; a rejected price fails before any row is read. A row
      is returned exactly when the vehicle exists, the field-by-field patch
      is accepted and its registration number is not another vehicle's; it
      is then the patched row and the only change. A null result or an
      error writes nothing. */
  lemma UpdateVehicleEffect(db: Tables, id: int, body: map<string, Value>)
    ensures var t := UpdateVehicle(db, Int(id), body);
      var defined := exists k :: k in VehicleColumns && k in body;
      && (t.result.Err? || t.result == Ok(None) ==> t.after == db)
      && (t.result == Ok(None) <==> !defined || (id !in db.vehicles && !PriceRejected(body)))
      && (defined && PriceRejected(body) ==> t.result == Err(InvalidInput("price_per_day")))
      && (t.result.Ok? && t.result.value.Some? <==>
            && defined && id in db.vehicles && PatchVehicle(db.vehicles[id], body).Ok?
            && !RegistrationTaken(db.vehicles, PatchVehicle(db.vehicles[id], body).value.registration, id))
      && (t.result.Ok? && t.result.value.Some? ==>
            && id in db.vehicles
            && PatchVehicle(db.vehicles[id], body) == Ok(t.result.value.value)
            && t.after == db.(vehicles := db.vehicles[id := t.result.value.value]))
  {
    AssignmentsEmpty(VehicleColumns, body);
    VehicleBindRejects(body);
    if id in db.vehicles {
      UpdateSetListIsPatch(db.vehicles[id], body);
    }
  }

  lemma UpdateVehicleKeepsValid(db: Tables, vehicleId: JsNumber, body: map<string, Value>)
    requires Valid(db)
    ensures Valid(UpdateVehicle(db, vehicleId, body).after)
  {
    if vehicleId.Int? {
      UpdateVehicleRowKeepsValid(db, vehicleId.n, Assignments(VehicleColumns, body));
    }
  }

  // ---------------------------------------------------------------------
  // deleteVehicle and the readers
  // ---------------------------------------------------------------------

  /** Refused, with nothing deleted, while a pending or confirmed booking
      references the vehicle; otherwise the vehicle and (by the cascade) its
      bookings go, and a missing id still reports success. */
  lemma DeleteVehicleEffect(db: Tables, id: int)
    ensures var t := DeleteVehicle(db, Int(id));
      && (ActiveOnVehicle(db, id) ==> t == Transition(Err(VehicleHasActiveBookings), db))
      && (!ActiveOnVehicle(db, id) ==>
            && t.result == Ok(DeletedMessage)
            && t.after.vehicles.Keys == db.vehicles.Keys - {id}
            && (forall k :: k in t.after.vehicles ==> t.after.vehicles[k] == db.vehicles[k])
            && (forall b :: b in t.after.bookings <==> b in db.bookings && db.bookings[b].vehicleId != id)
            && (forall b :: b in t.after.bookings ==> t.after.bookings[b] == db.bookings[b])
            && t.after.users == db.users)
  {
  }

  lemma DeleteVehicleKeepsValid(db: Tables, vehicleId: JsNumber)
    requires Valid(db)
    ensures Valid(DeleteVehicle(db, vehicleId).after)
  {
    if vehicleId.Int? {
      DeleteVehicleRowKeepsValid(db, vehicleId.n);
    }
  }

  /** getAllVehicles lists every vehicle once, newest first. */
  lemma AllVehiclesExact(db: Tables)
    requires Valid(db)
    ensures var r := GetAllVehicles(db);
      && (forall i :: 0 <= i < |r| ==> r[i].0 in db.vehicles && db.vehicles[r[i].0] == r[i].1)
      && (forall id :: id in db.vehicles ==> (id, db.vehicles[id]) in r)
      && (forall i, j :: 0 <= i < j < |r| ==> r[i].0 != r[j].0 && r[i].1.createdAt > r[j].1.createdAt)
  {
    var keep := (v: Vehicle) => true;
    Listing.NewestFirstSound(db.vehicles, db.vehicleSeq, keep);
    Listing.NewestFirstComplete(db.vehicles, db.vehicleSeq, keep);
    Listing.NewestFirstDecreasing(db.vehicles, db.vehicleSeq, keep);
    Listing.NewestFirstByCreation(db.vehicles, db.vehicleSeq, keep, (v: Vehicle) => v.createdAt);
  }
}
