/** The three tables created by initDB (src/db/index.ts): their rows, the
    CHECK, UNIQUE, NOT NULL, DEFAULT and REFERENCES constraints on them, and
    the errors a statement or a service can raise. */
module Schema {
  import opened Wrappers

  datatype Role = Admin | Customer
  datatype VehicleType = Car | Bike | Truck
  datatype VehicleStatus = Available | Rented | Maintenance
  datatype BookingStatus = Pending | Confirmed | Completed | Cancelled

  // Column defaults.
  const DefaultRole: Role := Customer
  const DefaultVehicleStatus: VehicleStatus := Available
  const DefaultBookingStatus: BookingStatus := Pending

  /** A booking that still holds its vehicle. */
  predicate Active(s: BookingStatus) {
    s == Pending || s == Confirmed
  }

  function RoleName(r: Role): string {
    match r
    case Admin => "admin"
    case Customer => "customer"
  }

  /** CHECK (role IN ('admin', 'customer')). */
  function ParseRole(s: string): Option<Role> {
    if s == "admin" then Some(Admin)
    else if s == "customer" then Some(Customer)
    else None
  }

  function VehicleTypeName(t: VehicleType): string {
    match t
    case Car => "car"
    case Bike => "bike"
    case Truck => "truck"
  }

  /** CHECK (type IN ('car', 'bike', 'truck')). */
  function ParseVehicleType(s: string): Option<VehicleType> {
    if s == "car" then Some(Car)
    else if s == "bike" then Some(Bike)
    else if s == "truck" then Some(Truck)
    else None
  }

  function VehicleStatusName(s: VehicleStatus): string {
    match s
    case Available => "available"
    case Rented => "rented"
    case Maintenance => "maintenance"
  }

  /** CHECK (status IN ('available', 'rented', 'maintenance')). */
  function ParseVehicleStatus(s: string): Option<VehicleStatus> {
    if s == "available" then Some(Available)
    else if s == "rented" then Some(Rented)
    else if s == "maintenance" then Some(Maintenance)
    else None
  }

  /** Each CHECK on an enumerated column accepts exactly the names of its
      values. */
  lemma EnumChecksAcceptExactlyTheirNames(s: string, r: Role, t: VehicleType, st: VehicleStatus)
    ensures ParseRole(s) == Some(r) <==> s == RoleName(r)
    ensures ParseVehicleType(s) == Some(t) <==> s == VehicleTypeName(t)
    ensures ParseVehicleStatus(s) == Some(st) <==> s == VehicleStatusName(st)
  {
  }

  /** A JSON value of a request body (strings and numbers only). */
  datatype Value = Str(s: string) | Num(n: int)

  /** What `Number(req.params.x)` yields for a path segment, as far as the
      database cares: NaN, a number that is not an integer, or an integer. */
  datatype JsNumber = NaN | NonInteger | Int(n: int)

  datatype User = User(name: string, email: string, password: string, phone: string, role: Role)

  /** pricePerDay is None for a NULL price: CHECK (price_per_day > 0) lets
      NULL through. */
  datatype Vehicle = Vehicle(name: string, vtype: VehicleType, registration: string,
                             pricePerDay: Option<int>, status: VehicleStatus, createdAt: int)

  /** Dates are day numbers; totalCost is in the unit of pricePerDay. */
  datatype Booking = Booking(userId: int, vehicleId: int, startDate: int, endDate: int,
                             totalCost: int, status: BookingStatus, createdAt: int)

  /** The database: three tables keyed by their SERIAL id, the next value of
      each id sequence, and the clock that CURRENT_TIMESTAMP reads (every
      insert takes the current value and advances it). */
  datatype Tables = Tables(users: map<int, User>, vehicles: map<int, Vehicle>, bookings: map<int, Booking>,
                           userSeq: int, vehicleSeq: int, bookingSeq: int, clock: int)

  /** Same rows in every table (sequences and clock may differ). */
  predicate SameRows(a: Tables, b: Tables) {
    a.users == b.users && a.vehicles == b.vehicles && a.bookings == b.bookings
  }

  datatype Error =
    // thrown by the services
    | VehicleNotFound | VehicleNotAvailable | EndNotAfterStart
    | BookingNotFound | OnlyPendingApprovable | UnauthorizedAccess | CancelAfterStart
    | VehicleHasActiveBookings | UserHasActiveBookings | UserNotFound | NoValidFields
    // raised by PostgreSQL
    | InvalidInteger
    | InvalidInput(column: string)
    | NotNullViolation(column: string)
    | CheckViolation(column: string)
    | UniqueViolation(column: string)
    | ForeignKeyViolation(column: string)
    | UndefinedColumn(column: string)

  /** `error.message` as the controllers send it back. */
  function Message(e: Error): string {
    match e
    case VehicleNotFound => "Vehicle not found"
    case VehicleNotAvailable => "Vehicle not available"
    case EndNotAfterStart => "End date must be after start date"
    case BookingNotFound => "Booking not found"
    case OnlyPendingApprovable => "Only pending bookings can be approved"
    case UnauthorizedAccess => "Unauthorized access"
    case CancelAfterStart => "Cannot cancel after rental start"
    case VehicleHasActiveBookings => "Vehicle has active bookings"
    case UserHasActiveBookings => "User has active bookings"
    case UserNotFound => "User not found"
    case NoValidFields => "No valid fields to update"
    case InvalidInteger => "invalid input syntax for type integer"
    case InvalidInput(c) => "invalid input syntax for column \"" + c + "\""
    case NotNullViolation(c) => "null value in column \"" + c + "\" violates not-null constraint"
    case CheckViolation(c) => "new row violates check constraint on \"" + c + "\""
    case UniqueViolation(c) => "duplicate key value violates unique constraint on \"" + c + "\""
    case ForeignKeyViolation(c) => "insert violates foreign key constraint on \"" + c + "\""
    case UndefinedColumn(c) => "column \"" + c + "\" does not exist"
  }

  /** The outcome of a statement or service call and the database after it. */
  datatype Transition<T> = Transition(result: Result<T, Error>, after: Tables)

  /** PostgreSQL's reading of a JS number bound to an INTEGER parameter. */
  function IntegerParam(n: JsNumber): (r: Result<int, Error>)
    ensures r.Ok? <==> n.Int?
    ensures r.Ok? ==> r.value == n.n
  {
    match n
    case Int(k) => Ok(k)
    case _ => Err(InvalidInteger)
  }

  function Digit(d: nat): char
    requires d < 10
  {
    "0123456789"[d]
  }

  function DigitsText(n: nat): (s: string)
    ensures |s| >= 1
    decreases n
  {
    if n < 10 then [Digit(n)] else DigitsText(n / 10) + [Digit(n % 10)]
  }

  /** The text node-postgres sends for a number bound to a text column. */
  function NumberText(n: int): string {
    if n < 0 then "-" + DigitsText(-n) else DigitsText(n)
  }

  /** A VARCHAR/TEXT column accepts any value; numbers arrive as their text. */
  function TextColumn(v: Value): string {
    match v
    case Str(s) => s
    case Num(n) => NumberText(n)
  }

  function RoleColumn(v: Value): (r: Result<Role, Error>)
    ensures r.Ok? <==> v.Str? && ParseRole(v.s).Some?
  {
    if v.Str? && ParseRole(v.s).Some? then Ok(ParseRole(v.s).value) else Err(CheckViolation("role"))
  }

  function VehicleTypeColumn(v: Value): (r: Result<VehicleType, Error>)
    ensures r.Ok? <==> v.Str? && ParseVehicleType(v.s).Some?
  {
    if v.Str? && ParseVehicleType(v.s).Some? then Ok(ParseVehicleType(v.s).value) else Err(CheckViolation("type"))
  }

  function VehicleStatusColumn(v: Value): (r: Result<VehicleStatus, Error>)
    ensures r.Ok? <==> v.Str? && ParseVehicleStatus(v.s).Some?
  {
    if v.Str? && ParseVehicleStatus(v.s).Some? then Ok(ParseVehicleStatus(v.s).value) else Err(CheckViolation("status"))
  }

  /** NUMERIC(10,2) CHECK (price_per_day > 0), for a non-NULL value. */
  function PriceColumn(v: Value): (r: Result<int, Error>)
    ensures r.Ok? <==> v.Num? && v.n > 0
    ensures r.Ok? ==> r.value == v.n
  {
    match v
    case Num(n) => if n > 0 then Ok(n) else Err(CheckViolation("price_per_day"))
    case Str(_) => Err(InvalidInput("price_per_day"))
  }

  // ---------------------------------------------------------------------
  // Table constraints
  // ---------------------------------------------------------------------

  /** SERIAL keys: every key lies between 1 and the sequence's next value. */
  predicate KeysBelow<T>(m: map<int, T>, next: int) {
    next >= 1 && forall id :: id in m ==> 1 <= id < next
  }

  /** email VARCHAR(100) UNIQUE. */
  predicate UniqueEmails(users: map<int, User>) {
    forall a, b :: a in users && b in users && users[a].email == users[b].email ==> a == b
  }

  /** registration_number VARCHAR(50) UNIQUE. */
  predicate UniqueRegistrations(vehicles: map<int, Vehicle>) {
    forall a, b :: a in vehicles && b in vehicles && vehicles[a].registration == vehicles[b].registration ==> a == b
  }

  predicate VehicleChecks(v: Vehicle) {
    v.pricePerDay.Some? ==> v.pricePerDay.value > 0
  }

  /** CHECK (end_date > start_date) and CHECK (total_cost > 0). */
  predicate BookingChecks(b: Booking) {
    b.endDate > b.startDate && b.totalCost > 0
  }

  /** REFERENCES users(id), REFERENCES vehicles(id). */
  predicate References(db: Tables) {
    forall id :: id in db.bookings ==> db.bookings[id].userId in db.users && db.bookings[id].vehicleId in db.vehicles
  }

  /** created_at is taken from the clock at insertion, so it grows with the
      id and stays below the clock. */
  predicate VehicleCreationOrder(db: Tables) {
    && (forall id :: id in db.vehicles ==> db.vehicles[id].createdAt < db.clock)
    && (forall a, b :: a in db.vehicles && b in db.vehicles && a < b ==> db.vehicles[a].createdAt < db.vehicles[b].createdAt)
  }

  predicate BookingCreationOrder(db: Tables) {
    && (forall id :: id in db.bookings ==> db.bookings[id].createdAt < db.clock)
    && (forall a, b :: a in db.bookings && b in db.bookings && a < b ==> db.bookings[a].createdAt < db.bookings[b].createdAt)
  }

  /** Every constraint of initDB holds. */
  predicate Valid(db: Tables) {
    && KeysBelow(db.users, db.userSeq)
    && KeysBelow(db.vehicles, db.vehicleSeq)
    && KeysBelow(db.bookings, db.bookingSeq)
    && UniqueEmails(db.users)
    && UniqueRegistrations(db.vehicles)
    && (forall id :: id in db.vehicles ==> VehicleChecks(db.vehicles[id]))
    && (forall id :: id in db.bookings ==> BookingChecks(db.bookings[id]))
    && References(db)
    && VehicleCreationOrder(db)
    && BookingCreationOrder(db)
  }

  /** Some pending or confirmed booking references the vehicle. */
  predicate ActiveOnVehicle(db: Tables, vehicleId: int) {
    exists b :: b in db.bookings && db.bookings[b].vehicleId == vehicleId && Active(db.bookings[b].status)
  }

  /** Some pending or confirmed booking belongs to the user. */
  predicate ActiveForUser(db: Tables, userId: int) {
    exists b :: b in db.bookings && db.bookings[b].userId == userId && Active(db.bookings[b].status)
  }

  /** A freshly initialised database satisfies every constraint. */
  function EmptyTables(): (db: Tables)
    ensures Valid(db) && db.users == map[] && db.vehicles == map[] && db.bookings == map[]
  {
    Tables(map[], map[], map[], 1, 1, 1, 0)
  }
}
