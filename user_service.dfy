/** UserService's operations that run statements against the database,
    each proved to have the effect its UserRules function defines. */
module UserService {
  import opened Wrappers
  import opened Schema
  import opened Store
  import opened SetClauses
  import UserRules

  /** updateUser: the allow-list loop builds the SET list; with no field it
      throws before any statement runs; otherwise the UPDATE binds the
      collected values and the id as the last placeholder, and no returned
      row means "User not found". */
  method UpdateUser(db: Database, userId: JsNumber, body: map<string, Value>) returns (r: Result<UserRules.PublicUser, Error>)
    modifies db
    ensures r == UserRules.UpdateUser(old(db.State()), userId, body).result
    ensures db.State() == UserRules.UpdateUser(old(db.State()), userId, body).after
  {
    var fields, values, index := BuildSetClauses(UserRules.UserColumns, body);
    if |fields| == 0 {
      return Err(NoValidFields);
    }
    if !userId.Int? {
      return Err(InvalidInteger);
    }
    BindBuiltClauses(UserRules.UserColumns, body, fields, values);
    var row := db.UpdateUserRow(userId.n, Bind(fields, values));
    match row {
      case Err(e) => r := Err(e);
      case Ok(None) => r := Err(UserNotFound);
      case Ok(Some(u)) => r := Ok(UserRules.Public(userId.n, u));
    }
  }

  /** deleteUser: BEGIN; look for an active booking; DELETE; a row count of
      zero throws; COMMIT -- or ROLLBACK on any throw. */
  method DeleteUser(db: Database, userId: JsNumber) returns (r: Result<(), Error>)
    modifies db
    ensures r == UserRules.DeleteUser(old(db.State()), userId).result
    ensures db.State() == UserRules.DeleteUser(old(db.State()), userId).after
  {
    var saved := db.State();
    if !userId.Int? {
      db.Rollback(saved);
      return Err(InvalidInteger);
    }
    if ActiveForUser(db.State(), userId.n) {
      db.Rollback(saved);
      return Err(UserHasActiveBookings);
    }
    var count := db.DeleteUserRow(userId.n);
    if count == 0 {
      db.Rollback(saved);
      return Err(UserNotFound);
    }
    r := Ok(());
  }
}
