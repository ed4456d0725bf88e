/** UserService (src/modules/users/user.service.ts) as functions from the
    database before a call to its outcome and the database after it, with
    the properties its operations promise. */
module UserRules {
  import opened Wrappers
  import opened Schema
  import opened Statements
  import opened SetClauses

  /** The allow-list of updateUser, in its order: email, password and
      created_at are never written. */
  const UserColumns: seq<string> := ["name", "phone", "role"]

  /** The columns the service selects or returns: never the password. */
  datatype PublicUser = PublicUser(id: int, name: string, email: string, phone: string, role: Role)

  function Public(id: int, u: User): (p: PublicUser)
    ensures p.id == id && p.email == u.email && p.role == u.role
  {
    PublicUser(id, u.name, u.email, u.phone, u.role)
  }

  /** getAllUsers: every user, without password; the statement has no
      ORDER BY, so the rows are keyed by id rather than ordered. */
  function GetAllUsers(db: Tables): (r: map<int, PublicUser>)
    ensures r.Keys == db.users.Keys
    ensures forall id :: id in r ==> r[id] == Public(id, db.users[id])
  {
    map id | id in db.users :: Public(id, db.users[id])
  }

  /** getUserById: the user without password, or "User not found". */
  function GetUserById(db: Tables, userId: JsNumber): (r: Result<PublicUser, Error>)
  {
    match IntegerParam(userId)
    case Err(e) => Err(e)
    case Ok(id) => if id in db.users then Ok(Public(id, db.users[id])) else Err(UserNotFound)
  }

  /** updateUser: "No valid fields to update" before any statement, then the
      UPDATE built by the allow-list loop, then "User not found" when it
      touched no row. */
  function UpdateUser(db: Tables, userId: JsNumber, body: map<string, Value>): (t: Transition<PublicUser>)
  {
    var assignments := Assignments(UserColumns, body);
    if assignments == [] then Transition(Err(NoValidFields), db)
    else
      match IntegerParam(userId)
      case Err(e) => Transition(Err(e), db)
      case Ok(id) =>
        var u := UpdateUserRow(db, id, assignments);
        match u.result
        case Err(e) => Transition(Err(e), u.after)
        case Ok(None) => Transition(Err(UserNotFound), u.after)
        case Ok(Some(row)) => Transition(Ok(Public(id, row)), u.after)
  }

  /** deleteUser, one transaction: refused while the user has a pending or
      confirmed booking; "User not found" when the DELETE removed no row;
      every error rolls back. */
  function DeleteUser(db: Tables, userId: JsNumber): (t: Transition<()>)
  {
    match IntegerParam(userId)
    case Err(e) => Transition(Err(e), db)
    case Ok(id) =>
      if ActiveForUser(db, id) then Transition(Err(UserHasActiveBookings), db)
      else
        var d := DeleteUserRow(db, id);
        if d.result == Ok(0) then Transition(Err(UserNotFound), Rollback(db, d.after))
        else Transition(Ok(()), d.after)
  }

  /** The effect of a body on a user, field by field: name, phone and role
      take the body's values when it defines them; a role the column
      rejects is an error; email and password never change. */
  function PatchUser(u: User, body: map<string, Value>): Result<User, Error> {
    if "role" in body && RoleColumn(body["role"]).Err? then Err(RoleColumn(body["role"]).error)
    else
      Ok(User(
        if "name" in body then TextColumn(body["name"]) else u.name,
        u.email,
        u.password,
        if "phone" in body then TextColumn(body["phone"]) else u.phone,
        if "role" in body then RoleColumn(body["role"]).value else u.role))
  }

  // ---------------------------------------------------------------------
  // The SET list and the field-by-field patch agree.
  // ---------------------------------------------------------------------

  lemma {:induction false} AssignUserAllAppend(u: User, xs: seq<Assignment>, ys: seq<Assignment>)
    ensures AssignUserAll(u, xs + ys) ==
      match AssignUserAll(u, xs) case Err(e) => Err(e) case Ok(u1) => AssignUserAll(u1, ys)
    decreases |xs|
  {
    if xs == [] {
      assert xs + ys == ys;
    } else {
      assert (xs + ys)[0] == xs[0];
      assert (xs + ys)[1..] == xs[1..] + ys;
      match AssignUser(u, xs[0])
      case Err(e) =>
      case Ok(u1) => AssignUserAllAppend(u1, xs[1..], ys);
    }
  }

  lemma SingleUserAssignment(u: User, body: map<string, Value>, key: string)
    ensures AssignUserAll(u, Single(body, key)) ==
      if key in body then AssignUser(u, Assignment(key, body[key])) else Ok(u)
  {
    if key in body {
      assert Single(body, key)[1..] == [];
    }
  }

  lemma UserAssignmentsUnfold(body: map<string, Value>)
    ensures Assignments(UserColumns, body) == Single(body, "name") + Single(body, "phone") + Single(body, "role")
  {
    assert UserColumns == [] + ["name"] + ["phone"] + ["role"];
    AssignmentsSnoc([], "name", body);
    AssignmentsSnoc(["name"], "phone", body);
    assert ["name"] + ["phone"] == ["name", "phone"];
    AssignmentsSnoc(["name", "phone"], "role", body);
    assert ["name", "phone"] + ["role"] == UserColumns;
  }

  /** Running the UPDATE's SET list on a row gives exactly the field-by-field
      patch. */
  lemma UpdateSetListIsPatch(u: User, body: map<string, Value>)
    ensures AssignUserAll(u, Assignments(UserColumns, body)) == PatchUser(u, body)
  {
    UserAssignmentsUnfold(body);
    var a, b, c := Single(body, "name"), Single(body, "phone"), Single(body, "role");
    AssignUserAllAppend(u, a + b, c);
    AssignUserAllAppend(u, a, b);
    SingleUserAssignment(u, body, "name");
    var u1 := AssignUserAll(u, a).value;
    SingleUserAssignment(u1, body, "phone");
    var u2 := AssignUserAll(u1, b).value;
    SingleUserAssignment(u2, body, "role");
  }

  // ---------------------------------------------------------------------
  // updateUser
  // ---------------------------------------------------------------------

  /** Only name, phone and role matter: two bodies that agree on them update
      identically, so an email or password in the body has no effect. */
  lemma UpdateUserIgnoresOtherKeys(db: Tables, userId: JsNumber, body: map<string, Value>, body': map<string, Value>)
    requires forall k :: k in UserColumns ==> (k in body <==> k in body') && (k in body ==> body[k] == body'[k])
    ensures UpdateUser(db, userId, body) == UpdateUser(db, userId, body')
  {
    AssignmentsIgnoreOtherKeys(UserColumns, body, body');
  }

  /** updateUser never changes any user's email or password. */
  lemma UpdateUserKeepsCredentials(db: Tables, userId: JsNumber, body: map<string, Value>)
    ensures var after := UpdateUser(db, userId, body).after;
      && after.users.Keys == db.users.Keys
      && forall id :: id in db.users ==>
           after.users[id].email == db.users[id].email && after.users[id].password == db.users[id].password
  {
  }

  /** The outcomes of updateUser, in the order the service checks them. It
      succeeds exactly when the body defines an allowed field, the user
      exists and the field-by-field patch is accepted; only a successful
      call writes, and it patches exactly that user. */
  lemma UpdateUserEffect(db: Tables, id: int, body: map<string, Value>)
    ensures var t := UpdateUser(db, Int(id), body);
      && (t.result.Err? ==> t.after == db)
      && ((forall k :: k in UserColumns ==> k !in body) ==> t.result == Err(NoValidFields))
      && ((exists k :: k in UserColumns && k in body) && id !in db.users ==> t.result == Err(UserNotFound))
      && (t.result.Ok? <==>
            (exists k :: k in UserColumns && k in body) && id in db.users && PatchUser(db.users[id], body).Ok?)
      && (t.result.Ok? ==>
            && id in db.users
            && id in t.after.users && PatchUser(db.users[id], body) == Ok(t.after.users[id])
            && t.after == db.(users := db.users[id := t.after.users[id]])
            && t.result.value == Public(id, t.after.users[id]))
  {
    AssignmentsEmpty(UserColumns, body);
    if id in db.users {
      UpdateSetListIsPatch(db.users[id], body);
    }
  }

  lemma UpdateUserKeepsValid(db: Tables, userId: JsNumber, body: map<string, Value>)
    requires Valid(db)
    ensures Valid(UpdateUser(db, userId, body).after)
  {
    if userId.Int? {
      UpdateUserRowKeepsValid(db, userId.n, Assignments(UserColumns, body));
    }
  }

  // ---------------------------------------------------------------------
  // deleteUser and getUserById
  // ---------------------------------------------------------------------

  /** The outcomes of deleteUser: refused with nothing changed while the
      user has an active booking; "User not found" with nothing changed when
      there is no such user; otherwise the user and (by the cascade) all of
      their bookings are gone, and nothing else changes. */
  lemma DeleteUserEffect(db: Tables, id: int)
    ensures var t := DeleteUser(db, Int(id));
      && (ActiveForUser(db, id) ==> t == Transition(Err(UserHasActiveBookings), db))
      && (!ActiveForUser(db, id) && id !in db.users ==> t == Transition(Err(UserNotFound), db))
      && (t.result.Ok? <==> !ActiveForUser(db, id) && id in db.users)
      && (t.result.Ok? ==>
            && t.after.users == db.users - {id}
            && (forall b :: b in t.after.bookings <==> b in db.bookings && db.bookings[b].userId != id)
            && (forall b :: b in t.after.bookings ==> t.after.bookings[b] == db.bookings[b])
            && t.after.vehicles == db.vehicles)
  {
  }

  lemma DeleteUserKeepsValid(db: Tables, userId: JsNumber)
    requires Valid(db)
    ensures Valid(DeleteUser(db, userId).after)
  {
    if userId.Int? {
      DeleteUserRowKeepsValid(db, userId.n);
    }
  }

  /** getAllUsers and getUserById agree: a user is listed exactly when the
      lookup finds it, with the same columns. */
  lemma AllUsersMatchLookup(db: Tables, id: int)
    ensures id in GetAllUsers(db) <==> GetUserById(db, Int(id)).Ok?
    ensures id in GetAllUsers(db) ==> GetAllUsers(db)[id] == GetUserById(db, Int(id)).value
  {
  }

  /** getUserById finds exactly the stored users. */
  lemma GetUserByIdSpec(db: Tables, id: int)
    ensures GetUserById(db, Int(id)).Ok? <==> id in db.users
    ensures GetUserById(db, Int(id)).Err? ==> GetUserById(db, Int(id)).error == UserNotFound
    ensures id in db.users ==> GetUserById(db, Int(id)) == Ok(Public(id, db.users[id]))
  {
  }
}
