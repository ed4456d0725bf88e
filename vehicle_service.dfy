/** VehicleService's operations that run statements against the database,
    each proved to have the effect its VehicleRules function defines. */
module VehicleService {
  import opened Wrappers
  import opened Schema
  import opened Store
  import opened SetClauses
  import Statements
  import VehicleRules

  /** createVehicle: one INSERT ... RETURNING *, status defaulting to
      "available". */
  method CreateVehicle(db: Database, body: map<string, Value>) returns (r: Result<(int, Vehicle), Error>)
    modifies db
    ensures r == VehicleRules.CreateVehicle(old(db.State()), body).result
    ensures db.State() == VehicleRules.CreateVehicle(old(db.State()), body).after
  {
    var status := if "status" in body then body["status"] else Str("available");
    var inserted := db.InsertVehicle(VehicleRules.Field(body, "name"), VehicleRules.Field(body, "type"),
                                     VehicleRules.Field(body, "registration_number"),
                                     VehicleRules.Field(body, "price_per_day"), status);
    if inserted.Err? {
      return Err(inserted.error);
    }
    r := Ok((inserted.value, db.vehicles[inserted.value]));
  }

  /** updateVehicle: the allow-list loop builds the SET list; with no field
      the result is null and no statement runs; otherwise the UPDATE binds
      the collected values, then the id as the last placeholder. */
  method UpdateVehicle(db: Database, vehicleId: JsNumber, body: map<string, Value>) returns (r: Result<Option<Vehicle>, Error>)
    modifies db
    ensures r == VehicleRules.UpdateVehicle(old(db.State()), vehicleId, body).result
    ensures db.State() == VehicleRules.UpdateVehicle(old(db.State()), vehicleId, body).after
  {
    var fields, values, index := BuildSetClauses(VehicleRules.VehicleColumns, body);
    if |fields| == 0 {
      return Ok(None);
    }
    BindBuiltClauses(VehicleRules.VehicleColumns, body, fields, values);
    var assignments := Bind(fields, values);
    if Statements.BindRejects(assignments) {
      return Err(InvalidInput("price_per_day"));
    }
    if !vehicleId.Int? {
      return Err(InvalidInteger);
    }
    r := db.UpdateVehicleRow(vehicleId.n, assignments);
  }

  /** deleteVehicle: look for a pending or confirmed booking first; throw if
      there is one, otherwise DELETE. */
  method DeleteVehicle(db: Database, vehicleId: JsNumber) returns (r: Result<string, Error>)
    modifies db
    ensures r == VehicleRules.DeleteVehicle(old(db.State()), vehicleId).result
    ensures db.State() == VehicleRules.DeleteVehicle(old(db.State()), vehicleId).after
  {
    if !vehicleId.Int? {
      return Err(InvalidInteger);
    }
    if ActiveOnVehicle(db.State(), vehicleId.n) {
      return Err(VehicleHasActiveBookings);
    }
    db.DeleteVehicleRow(vehicleId.n);
    r := Ok(VehicleRules.DeletedMessage);
  }
}
