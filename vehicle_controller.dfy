/** VehicleController (src/modules/vehicles/vehicles.controller.ts): an
    admin check in front of every write, and the mapping of service
    outcomes to 201/200, 404, 400 and 500 replies. */
module VehicleController {
  import opened Wrappers
  import opened Schema
  import opened Http
  import VehicleRules

  const CreateForbidden := "Only admin can create vehicles"
  const UpdateForbidden := "Only admin can update vehicles"
  const DeleteForbidden := "Only admin can delete vehicles"
  const NotFoundMessage := "Vehicle not found"
  const NothingUpdatedMessage := "Vehicle not found or no data to update"

  predicate IsAdmin(user: Option<AuthUser>) {
    user.Some? && user.value.role == Admin
  }

  /** createVehicle: 403 for anyone but an admin, without touching the
      service; then 201 with the new vehicle, or 400. */
  function CreateVehicle(db: Tables, user: Option<AuthUser>, body: map<string, Value>): (h: Handled<(int, Vehicle)>)
    ensures !IsAdmin(user) ==> h == Handled(Failure(403, CreateForbidden), db)
    ensures IsAdmin(user) ==>
      var t := VehicleRules.CreateVehicle(db, body);
      && h.after == t.after
      && (h.reply.status == 201 <==> t.result.Ok?)
      && (t.result.Ok? ==> h.reply.data == Some(t.result.value))
      && (t.result.Err? ==> h.reply == BadRequest(t.result.error))
    ensures h.reply.status in {201, 400, 403}
    ensures h.reply.status == 201 ==>
      && h.reply.data.Some? && h.reply.data.value.0 !in db.vehicles
      && h.after.vehicles == db.vehicles[h.reply.data.value.0 := h.reply.data.value.1]
    ensures h.reply.status == 400 ==> SameRows(h.after, db)
  {
    if !IsAdmin(user) then Handled(Failure(403, CreateForbidden), db)
    else
      var t := VehicleRules.CreateVehicle(db, body);
      VehicleRules.CreateVehicleEffect(db, body);
      match t.result
      case Ok(v) => Handled(Reply(201, true, None, Some(v)), t.after)
      case Err(e) => Handled(BadRequest(e), t.after)
  }

  /** getAllVehicles (public): always 200; its 500 branch needs a failing
      query, which this model does not have. */
  function GetAllVehicles(db: Tables): (r: Reply<seq<(int, Vehicle)>>)
    ensures r.status == 200 && r.data == Some(VehicleRules.GetAllVehicles(db))
  {
    Reply(200, true, None, Some(VehicleRules.GetAllVehicles(db)))
  }

  /** getVehicle (public): 404 for no row, 500 when the query fails (an id
      that is not an integer), 200 with the vehicle otherwise. */
  function GetVehicle(db: Tables, vehicleId: JsNumber): (r: Reply<Vehicle>)
    ensures r.status in {200, 404, 500}
    ensures r.status == 200 <==> vehicleId.Int? && vehicleId.n in db.vehicles
    ensures r.status == 200 ==> r.data == Some(db.vehicles[vehicleId.n])
    ensures r.status == 404 <==> vehicleId.Int? && vehicleId.n !in db.vehicles
  {
    match VehicleRules.GetVehicleById(db, vehicleId)
    case Err(e) => Failure(500, Message(e))
    case Ok(None) => Failure(404, NotFoundMessage)
    case Ok(Some(v)) => Reply(200, true, None, Some(v))
  }

  /** updateVehicle: 403 for non-admins, 404 when the service returns null
      (no allowed field, or no such vehicle), 400 on an error, 200 with the
      updated vehicle. */
  function UpdateVehicle(db: Tables, user: Option<AuthUser>, vehicleId: JsNumber, body: map<string, Value>)
    : (h: Handled<Vehicle>)
    ensures !IsAdmin(user) ==> h == Handled(Failure(403, UpdateForbidden), db)
    ensures IsAdmin(user) ==>
      var t := VehicleRules.UpdateVehicle(db, vehicleId, body);
      && h.after == t.after
      && (h.reply.status == 200 <==> t.result.Ok? && t.result.value.Some?)
      && (t.result.Ok? && t.result.value.Some? ==> h.reply.data == t.result.value)
      && (h.reply.status == 404 <==> t.result == Ok(None))
      && (t.result.Err? ==> h.reply == BadRequest(t.result.error))
    ensures h.reply.status in {200, 400, 403, 404}
    ensures h.reply.status != 200 ==> h.after == db
    ensures h.reply.status == 200 ==>
      && vehicleId.Int? && vehicleId.n in db.vehicles && h.reply.data.Some?
      && VehicleRules.PatchVehicle(db.vehicles[vehicleId.n], body) == Ok(h.reply.data.value)
      && h.after == db.(vehicles := db.vehicles[vehicleId.n := h.reply.data.value])
  {
    if !IsAdmin(user) then Handled(Failure(403, UpdateForbidden), db)
    else
      var t := VehicleRules.UpdateVehicle(db, vehicleId, body);
      UpdateOutcome(db, vehicleId, body);
      match t.result
      case Ok(None) => Handled(Failure(404, NothingUpdatedMessage), t.after)
      case Ok(Some(v)) => Handled(Reply(200, true, None, Some(v)), t.after)
      case Err(e) => Handled(BadRequest(e), t.after)
  }

  /** deleteVehicle: 403 for non-admins, 400 on an error, 200 otherwise. */
  function DeleteVehicle(db: Tables, user: Option<AuthUser>, vehicleId: JsNumber): (h: Handled<()>)
    ensures !IsAdmin(user) ==> h == Handled(Failure(403, DeleteForbidden), db)
    ensures IsAdmin(user) ==>
      var t := VehicleRules.DeleteVehicle(db, vehicleId);
      && h.after == t.after
      && (t.result.Ok? ==> h.reply == Reply(200, true, Some(VehicleRules.DeletedMessage), None))
      && (t.result.Err? ==> h.reply == BadRequest(t.result.error))
    ensures h.reply.status in {200, 400, 403}
    ensures h.reply.status != 200 ==> h.after == db
    ensures h.reply.status == 200 <==> IsAdmin(user) && vehicleId.Int? && !ActiveOnVehicle(db, vehicleId.n)
    ensures h.reply.status == 200 ==>
      && h.after.vehicles.Keys == db.vehicles.Keys - {vehicleId.n}
      && (forall b :: b in h.after.bookings <==> b in db.bookings && db.bookings[b].vehicleId != vehicleId.n)
  {
    if !IsAdmin(user) then Handled(Failure(403, DeleteForbidden), db)
    else
      var t := VehicleRules.DeleteVehicle(db, vehicleId);
      match t.result
      case Ok(m) => Handled(Reply(200, true, Some(m), None), t.after)
      case Err(e) => Handled(BadRequest(e), t.after)
  }

  /** What updateVehicle's handler relies on from the service. */
  lemma UpdateOutcome(db: Tables, vehicleId: JsNumber, body: map<string, Value>)
    ensures var t := VehicleRules.UpdateVehicle(db, vehicleId, body);
      && (t.result.Err? || t.result == Ok(None) ==> t.after == db)
      && (t.result.Ok? && t.result.value.Some? ==>
            vehicleId.Int? && vehicleId.n in db.vehicles
            && VehicleRules.PatchVehicle(db.vehicles[vehicleId.n], body) == Ok(t.result.value.value)
            && t.after == db.(vehicles := db.vehicles[vehicleId.n := t.result.value.value]))
  {
    if vehicleId.Int? {
      VehicleRules.UpdateVehicleEffect(db, vehicleId.n, body);
    }
  }

  /** A body without any allowed field gets the 404, whatever the id. */
  lemma UpdateWithoutFieldsIs404(db: Tables, admin: AuthUser, vehicleId: JsNumber, body: map<string, Value>)
    requires admin.role == Admin
    requires forall k :: k in VehicleRules.VehicleColumns ==> k !in body
    ensures UpdateVehicle(db, Some(admin), vehicleId, body) == Handled(Failure(404, NothingUpdatedMessage), db)
  {
    VehicleRules.UpdateVehicleNoFields(db, vehicleId, body);
  }
}
