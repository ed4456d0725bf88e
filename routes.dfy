/** The booking and vehicle route tables (src/modules/bookings/bookings.routes.ts,
    src/modules/vehicles/vehicles.routes.ts): which guards run before each
    controller, checked against an independent access policy. */
module Routes {
  import opened Wrappers
  import opened Schema
  import opened Http
  import opened RoleMiddleware

  datatype Verb = Get | Post | Put | Delete

  /** authMiddleware, or roleMiddleware(role). */
  datatype Guard = Authenticate | RequireRole(role: Role)

  datatype Endpoint =
    | CreateBooking | ListBookings | CancelBooking | ReturnBooking | ApproveBooking
    | ListVehicles | GetVehicle | CreateVehicle | UpdateVehicle | DeleteVehicle

  datatype Route = Route(verb: Verb, path: string, guards: seq<Guard>, endpoint: Endpoint)

  /** A router: guards attached with router.use run before every route's own. */
  datatype Router = Router(common: seq<Guard>, routes: seq<Route>)

  const BookingRouter := Router([Authenticate], [
    Route(Post, "/", [], CreateBooking),
    Route(Get, "/", [], ListBookings),
    Route(Put, "/:bookingId/cancel", [], CancelBooking),
    Route(Put, "/:bookingId/return", [RequireRole(Admin)], ReturnBooking),
    Route(Put, "/:bookingId/approve", [RequireRole(Admin)], ApproveBooking)])

  const VehicleRouter := Router([], [
    Route(Get, "/", [], ListVehicles),
    Route(Get, "/:vehicleId", [], GetVehicle),
    Route(Post, "/", [Authenticate, RequireRole(Admin)], CreateVehicle),
    Route(Put, "/:vehicleId", [Authenticate, RequireRole(Admin)], UpdateVehicle),
    Route(Delete, "/:vehicleId", [Authenticate, RequireRole(Admin)], DeleteVehicle)])

  /** The controller runs with req.user, or a guard ends the request:
      authMiddleware's own rejection (its reply is not part of this model)
      or a roleMiddleware stop. */
  datatype Decision = Proceed(user: Option<AuthUser>) | AuthRejected | Rejected(status: int, message: string)

  /** Runs a guard chain left to right. `credentials` is the user a valid
      token identifies (None: no valid token); `user` is req.user so far. */
  function RunGuards(guards: seq<Guard>, credentials: Option<AuthUser>, user: Option<AuthUser>): Decision
    decreases |guards|
  {
    if guards == [] then Proceed(user)
    else
      match guards[0]
      case Authenticate =>
        if credentials.None? then AuthRejected else RunGuards(guards[1..], credentials, credentials)
      case RequireRole(r) =>
        match RoleGate(r, user)
        case Next => RunGuards(guards[1..], credentials, user)
        case Stop(s, m) => Rejected(s, m)
  }

  /** The first route at or after position `from` that serves the
      endpoint: Express tries the routes in the order they were registered. */
  function LookupFrom(routes: seq<Route>, e: Endpoint, from: nat): (r: Option<Route>)
    requires from <= |routes|
    ensures r.Some? ==> r.value in routes[from..] && r.value.endpoint == e
    ensures r.None? ==> forall i :: from <= i < |routes| ==> routes[i].endpoint != e
    decreases |routes| - from
  {
    if from == |routes| then None
    else if routes[from].endpoint == e then Some(routes[from])
    else LookupFrom(routes, e, from + 1)
  }

  /** The first route for an endpoint. */
  function Lookup(routes: seq<Route>, e: Endpoint): (r: Option<Route>)
    ensures r.Some? ==> r.value in routes && r.value.endpoint == e
    ensures r.None? ==> forall i :: 0 <= i < |routes| ==> routes[i].endpoint != e
  {
    assert routes[0..] == routes;
    LookupFrom(routes, e, 0)
  }

  /** What a request to the endpoint through the router meets. */
  function Dispatch(router: Router, e: Endpoint, credentials: Option<AuthUser>): Option<Decision> {
    match Lookup(router.routes, e)
    case None => None
    case Some(r) => Some(RunGuards(router.common + r.guards, credentials, None))
  }

  // ---------------------------------------------------------------------
  // The access policy the tables implement.
  // ---------------------------------------------------------------------

  datatype Access = Public | SignedIn | AdminOnly

  /** Vehicles are readable by anyone and writable by admins; bookings need
      a signed-in user, and returning and approving need an admin. */
  function Policy(e: Endpoint): Access {
    match e
    case CreateBooking | ListBookings | CancelBooking => SignedIn
    case ReturnBooking | ApproveBooking => AdminOnly
    case ListVehicles | GetVehicle => Public
    case CreateVehicle | UpdateVehicle | DeleteVehicle => AdminOnly
  }

  predicate IsBookingEndpoint(e: Endpoint) {
    e.CreateBooking? || e.ListBookings? || e.CancelBooking? || e.ReturnBooking? || e.ApproveBooking?
  }

  /** Lookup finds the first route for an endpoint. */
  lemma {:induction false} LookupFirst(routes: seq<Route>, from: nat, i: nat, e: Endpoint)
    requires from <= i < |routes| && routes[i].endpoint == e
    requires forall j :: from <= j < i ==> routes[j].endpoint != e
    ensures LookupFrom(routes, e, from) == Some(routes[i])
    decreases i - from
  {
    if from < i {
      LookupFirst(routes, from + 1, i, e);
    }
  }

  /** The guards a request to a booking endpoint runs through: the
      router's authMiddleware, then the route's own. */
  lemma BookingGuardsOf(e: Endpoint)
    requires IsBookingEndpoint(e)
    ensures Lookup(BookingRouter.routes, e).Some?
    ensures Lookup(BookingRouter.routes, e).value.guards ==
      if e.ReturnBooking? || e.ApproveBooking? then [RequireRole(Admin)] else []
  {
    var routes := BookingRouter.routes;
    match e {
      case CreateBooking => LookupFirst(routes, 0, 0, e);
      case ListBookings => LookupFirst(routes, 0, 1, e);
      case CancelBooking => LookupFirst(routes, 0, 2, e);
      case ReturnBooking => LookupFirst(routes, 0, 3, e);
      case ApproveBooking => LookupFirst(routes, 0, 4, e);
    }
  }

  /** The guards a request to a vehicle endpoint runs through: none on the
      reads, authMiddleware then the admin gate on the writes. */
  lemma VehicleGuardsOf(e: Endpoint)
    requires !IsBookingEndpoint(e)
    ensures Lookup(VehicleRouter.routes, e).Some?
    ensures Lookup(VehicleRouter.routes, e).value.guards ==
      if e.ListVehicles? || e.GetVehicle? then [] else [Authenticate, RequireRole(Admin)]
  {
    var routes := VehicleRouter.routes;
    match e {
      case ListVehicles => LookupFirst(routes, 0, 0, e);
      case GetVehicle => LookupFirst(routes, 0, 1, e);
      case CreateVehicle => LookupFirst(routes, 0, 2, e);
      case UpdateVehicle => LookupFirst(routes, 0, 3, e);
      case DeleteVehicle => LookupFirst(routes, 0, 4, e);
    }
  }

  /** Every booking endpoint has a route, and the guards in front of it
      admit a request exactly when the policy does: none is public,
      authMiddleware ends any request without a valid token, the caller
      reaches the controller as req.user, and on the return and approve
      routes a customer gets roleMiddleware's 403. */
  lemma BookingRoutesFollowPolicy(e: Endpoint, credentials: Option<AuthUser>)
    requires IsBookingEndpoint(e)
    ensures Policy(e) != Public
    ensures Dispatch(BookingRouter, e, credentials).Some?
    ensures credentials.None? ==> Dispatch(BookingRouter, e, credentials) == Some(AuthRejected)
    ensures Policy(e) == SignedIn && credentials.Some? ==>
      Dispatch(BookingRouter, e, credentials) == Some(Proceed(credentials))
    ensures Policy(e) == AdminOnly && credentials.Some? ==>
      Dispatch(BookingRouter, e, credentials) ==
        Some(if credentials.value.role == Admin then Proceed(credentials) else Rejected(403, ForbiddenMessage))
  {
    BookingGuardsOf(e);
    var guards := BookingRouter.common + Lookup(BookingRouter.routes, e).value.guards;
    assert Dispatch(BookingRouter, e, credentials) == Some(RunGuards(guards, credentials, None));
    if e.ReturnBooking? || e.ApproveBooking? {
      assert guards == [Authenticate, RequireRole(Admin)];
      assert guards[1..] == [RequireRole(Admin)] && guards[1..][1..] == [];
      if credentials.Some? {
        assert RunGuards(guards[1..], credentials, credentials) ==
          if credentials.value.role == Admin then Proceed(credentials) else Rejected(403, ForbiddenMessage);
      }
    } else {
      assert guards == [Authenticate];
      assert guards[1..] == [];
    }
  }

  /** Every vehicle endpoint has a route, and the guards in front of it
      admit a request exactly when the policy does: the two reads run
      without any user, and every write needs a valid token and then the
      admin role. */
  lemma VehicleRoutesFollowPolicy(e: Endpoint, credentials: Option<AuthUser>)
    requires !IsBookingEndpoint(e)
    ensures Policy(e) != SignedIn
    ensures Dispatch(VehicleRouter, e, credentials).Some?
    ensures Policy(e) == Public ==> Dispatch(VehicleRouter, e, credentials) == Some(Proceed(None))
    ensures Policy(e) == AdminOnly ==>
      Dispatch(VehicleRouter, e, credentials) ==
        Some(if credentials.None? then AuthRejected
             else if credentials.value.role == Admin then Proceed(credentials)
             else Rejected(403, ForbiddenMessage))
  {
    VehicleGuardsOf(e);
    var guards := VehicleRouter.common + Lookup(VehicleRouter.routes, e).value.guards;
    assert Dispatch(VehicleRouter, e, credentials) == Some(RunGuards(guards, credentials, None));
    if e.ListVehicles? || e.GetVehicle? {
      assert guards == [];
    } else {
      assert guards == [Authenticate, RequireRole(Admin)];
      assert guards[1..] == [RequireRole(Admin)] && guards[1..][1..] == [];
      if credentials.Some? {
        assert RunGuards(guards[1..], credentials, credentials) ==
          if credentials.value.role == Admin then Proceed(credentials) else Rejected(403, ForbiddenMessage);
      }
    }
  }
}
