/** UserController (src/modules/users/user.controller.ts): the guards each
    handler checks, in order, before it calls UserService. The user routes
    attach only authMiddleware, so req.user may still be absent here in
    the model's terms and the handlers check it themselves. */
module UserController {
  import opened Wrappers
  import opened Schema
  import opened Http
  import UserRules

  const ForbiddenMessage := "Forbidden"
  const UnauthorizedMessage := "Unauthorized"
  const InvalidIdMessage := "Invalid user id"
  const OwnProfileMessage := "You can update only your own profile"
  const RoleChangeMessage := "Role change not allowed"
  const UserDeletedMessage := "User deleted successfully"

  predicate IsAdmin(user: Option<AuthUser>) {
    user.Some? && user.value.role == Admin
  }

  /** getAllUsers: admins only. */
  function GetAllUsers(db: Tables, user: Option<AuthUser>): (r: Reply<map<int, UserRules.PublicUser>>)
    ensures r.status == 200 <==> IsAdmin(user)
    ensures r.status != 200 ==> r == Failure(403, ForbiddenMessage)
    ensures r.status == 200 ==> r.data == Some(UserRules.GetAllUsers(db))
  {
    if !IsAdmin(user) then Failure(403, ForbiddenMessage)
    else Reply(200, true, None, Some(UserRules.GetAllUsers(db)))
  }

  /** updateUser: 401 without a user; 400 when the id is NaN; a customer
      may only target their own id and may not send a role; then the
      service, 200 or 400. */
  function UpdateUser(db: Tables, user: Option<AuthUser>, userId: JsNumber, body: map<string, Value>)
    : (h: Handled<UserRules.PublicUser>)
    ensures (&& user.Some? && !userId.NaN?
             && (user.value.role == Admin || (userId == Int(user.value.userId) && "role" !in body))) ==>
      var t := UserRules.UpdateUser(db, userId, body);
      && h.after == t.after
      && (t.result.Ok? ==> h.reply == Reply(200, true, None, Some(t.result.value)))
      && (t.result.Err? ==> h.reply == BadRequest(t.result.error))
    ensures h.reply.status in {200, 400, 401, 403}
    ensures h.reply.status != 200 ==> h.after == db
    ensures h.reply.status == 200 ==>
      && user.Some? && userId.Int? && userId.n in db.users
      && (user.value.role == Customer ==> userId.n == user.value.userId && "role" !in body)
      && h.reply.data.Some? && h.reply.data.value.id == userId.n
      && userId.n in h.after.users
      && UserRules.PatchUser(db.users[userId.n], body) == Ok(h.after.users[userId.n])
      && h.after == db.(users := db.users[userId.n := h.after.users[userId.n]])
  {
    if user.None? then Handled(Failure(401, UnauthorizedMessage), db)
    else if userId.NaN? then Handled(Failure(400, InvalidIdMessage), db)
    else
      var caller := user.value;
      if caller.role == Customer && Int(caller.userId) != userId then Handled(Failure(403, OwnProfileMessage), db)
      else if caller.role == Customer && "role" in body then Handled(Failure(403, RoleChangeMessage), db)
      else
        var t := UserRules.UpdateUser(db, userId, body);
        UpdateOutcome(db, userId, body);
        match t.result
        case Ok(u) => Handled(Reply(200, true, None, Some(u)), t.after)
        case Err(e) => Handled(BadRequest(e), t.after)
  }

  /** deleteUser: admins only, then a NaN id is 400, then the service. */
  function DeleteUser(db: Tables, user: Option<AuthUser>, userId: JsNumber): (h: Handled<()>)
    ensures IsAdmin(user) && !userId.NaN? ==>
      var t := UserRules.DeleteUser(db, userId);
      && h.after == t.after
      && (t.result.Ok? ==> h.reply == Reply(200, true, Some(UserDeletedMessage), None))
      && (t.result.Err? ==> h.reply == BadRequest(t.result.error))
    ensures h.reply.status in {200, 400, 403}
    ensures h.reply.status == 403 <==> !IsAdmin(user)
    ensures h.reply.status != 200 ==> SameRows(h.after, db)
    ensures h.reply.status == 200 <==>
      IsAdmin(user) && userId.Int? && userId.n in db.users && !ActiveForUser(db, userId.n)
    ensures h.reply.status == 200 ==>
      && h.after.users == db.users - {userId.n}
      && (forall b :: b in h.after.bookings <==> b in db.bookings && db.bookings[b].userId != userId.n)
  {
    if !IsAdmin(user) then Handled(Failure(403, ForbiddenMessage), db)
    else if userId.NaN? then Handled(Failure(400, InvalidIdMessage), db)
    else
      var t := UserRules.DeleteUser(db, userId);
      DeleteOutcome(db, userId);
      match t.result
      case Ok(_) => Handled(Reply(200, true, Some(UserDeletedMessage), None), t.after)
      case Err(e) => Handled(BadRequest(e), t.after)
  }

  /** What the handlers rely on from the service: only success writes. */
  lemma UpdateOutcome(db: Tables, userId: JsNumber, body: map<string, Value>)
    ensures var t := UserRules.UpdateUser(db, userId, body);
      && (t.result.Err? ==> t.after == db)
      && (t.result.Ok? ==>
            && userId.Int? && userId.n in db.users && t.result.value.id == userId.n
            && userId.n in t.after.users
            && UserRules.PatchUser(db.users[userId.n], body) == Ok(t.after.users[userId.n])
            && t.after == db.(users := db.users[userId.n := t.after.users[userId.n]]))
  {
    if userId.Int? {
      UserRules.UpdateUserEffect(db, userId.n, body);
    }
  }

  lemma DeleteOutcome(db: Tables, userId: JsNumber)
    ensures var t := UserRules.DeleteUser(db, userId);
      && (t.result.Err? ==> SameRows(t.after, db))
      && (t.result.Ok? <==> userId.Int? && userId.n in db.users && !ActiveForUser(db, userId.n))
      && (t.result.Ok? ==>
            && t.after.users == db.users - {userId.n}
            && (forall b :: b in t.after.bookings <==> b in db.bookings && db.bookings[b].userId != userId.n))
  {
    if userId.Int? {
      UserRules.DeleteUserEffect(db, userId.n);
    }
  }

  /** The order of updateUser's refusals: missing user, then id, then
      ownership, then role change -- so a customer's own profile update that
      names a role is refused even though the id matches. */
  lemma UpdateUserCheckOrder(db: Tables, user: Option<AuthUser>, userId: JsNumber, body: map<string, Value>)
    ensures user.None? ==> UpdateUser(db, user, userId, body).reply == Failure(401, UnauthorizedMessage)
    ensures user.Some? && userId.NaN? ==> UpdateUser(db, user, userId, body).reply == Failure(400, InvalidIdMessage)
    ensures user.Some? && user.value.role == Customer && userId == Int(user.value.userId) && "role" in body ==>
      UpdateUser(db, user, userId, body) == Handled(Failure(403, RoleChangeMessage), db)
    ensures user.Some? && user.value.role == Customer && userId.Int? && userId.n != user.value.userId ==>
      UpdateUser(db, user, userId, body) == Handled(Failure(403, OwnProfileMessage), db)
  {
  }

  /** An admin is not restricted: the reply is the service's outcome. */
  lemma AdminUpdatesAnyUser(db: Tables, adminId: int, userId: int, body: map<string, Value>)
    ensures var h := UpdateUser(db, Some(AuthUser(adminId, Admin)), Int(userId), body);
      var t := UserRules.UpdateUser(db, Int(userId), body);
      && h.after == t.after
      && (t.result.Ok? ==> h.reply == Reply(200, true, None, Some(t.result.value)))
      && (t.result.Err? ==> h.reply == Failure(400, Message(t.result.error)))
  {
  }

  /** deleteUser checks the role before the id. */
  lemma DeleteUserCheckOrder(db: Tables, user: Option<AuthUser>)
    ensures IsAdmin(user) ==> DeleteUser(db, user, NaN).reply == Failure(400, InvalidIdMessage)
    ensures !IsAdmin(user) ==> DeleteUser(db, user, NaN).reply == Failure(403, ForbiddenMessage)
  {
  }
}
