# Vehicle rental backend — a verified Dafny model

This project models the core of an Express/PostgreSQL vehicle-rental backend.

- **Customers** book vehicles. They can cancel a booking before its start date.
- **Admins** approve bookings, take vehicles back, and manage the fleet and the users.

The model covers:

- the three tables and their constraints (`src/db/index.ts`);
- every SQL statement the services issue;
- the booking, vehicle and user services;
- the role middleware;
- the booking and vehicle route tables;
- the three controllers.

## Layout

| module | file | what it holds |
|---|---|---|
| `Wrappers` | `wrappers.dfy` | `Option`, `Result` |
| `Schema` | `schema.dfy` | enums, rows, the `Tables` database value, column checks, table constraints (`Valid`), errors |
| `Statements` | `statements.dfy` | each INSERT / UPDATE / DELETE / ROLLBACK as a function on `Tables`, with the constraint checks and cascades PostgreSQL applies |
| `Store` | `store.dfy` | class `Database` holding the tables as fields; one method per statement, proved equal to the `Statements` function |
| `Listing` | `listing.dfy` | `ORDER BY created_at DESC` over a table |
| `SetClauses` | `set_clauses.dfy` | the allow-list loop shared by `updateVehicle` and `updateUser` |
| `BookingRules`, `BookingService` | `booking_rules.dfy`, `booking_service.dfy` | booking lifecycle: specification functions and lemmas; imperative methods on `Database` |
| `VehicleRules`, `VehicleService` | `vehicle_rules.dfy`, `vehicle_service.dfy` | the same, for vehicles |
| `UserRules`, `UserService` | `user_rules.dfy`, `user_service.dfy` | the same, for users |
| `RentalInvariant` | `rental_invariant.dfy` | "a vehicle is rented iff it has an active booking", per operation |
| `Http`, `RoleMiddleware`, `Routes` | `http.dfy`, `role_middleware.dfy`, `routes.dfy` | replies, the role gate, the route tables |
| `BookingController`, `UserController`, `VehicleController` | `*_controller.dfy` | request → service call → status code |

### How the database is modelled

- **Ids.** Each table is a map keyed by its `SERIAL` id. The next value of each sequence is kept too. It advances even when the INSERT fails or is rolled back, as `nextval` does.
- **`created_at`.** It is read from a logical clock that every insert advances. So "newest first" is a well-defined order.
- **Transactions.** A transaction is a snapshot (`BEGIN`) and `Rollback`. Rollback restores every row but keeps the sequences and the clock.
- **Id parameters.** An id taken from a URL parameter is a `JsNumber`: `NaN`, a non-integer, or an integer. PostgreSQL rejects the first two when they are bound to an `INTEGER` parameter.
- **Body values.** A vehicle or user request body maps keys to strings or numbers. A key that is absent is `undefined`. A booking request body has an integer vehicle id and integer day numbers.
- **Binding.** PostgreSQL converts every parameter to its column's type when it binds a statement, before any row is read. A string bound to `price_per_day` fails there, whether or not the row exists.
- **Dates** are day numbers. The current day is a parameter of `cancelBooking`.
- **Money** is an integer number of cents (`NUMERIC(10,2)` keeps two decimals), so 50.00 per day is 5000.

**Permissive behaviour is kept.**

- `cancelBooking` and `completeBooking` do not look at the booking's status.
- An admin may write a vehicle's `status` directly.
- `RentalInvariant` proves which preconditions keep "vehicle rented ⇔ a pending/confirmed booking references it" (with "at most one active booking per vehicle").
- It also proves, for each of these paths, that the invariant breaks there.

## Model

| member | source | states |
|---|---|---|
| Schema.Valid | src/db/index.ts:13-49 | every constraint of the three tables: SERIAL keys, unique email and registration number, positive price, end after start and positive cost, both foreign keys, created_at order |
| Listing.NewestFirst | src/modules/vehicles/vehicles.service.ts:41-44 | `ORDER BY created_at DESC`: the selected rows from the highest id down; its contract is given by NewestFirstSound, NewestFirstComplete and NewestFirstDecreasing |
| BookingRules.CreateBooking | src/modules/bookings/bookings.services.ts:14-68 | createBooking's transaction: lookup, availability, dates, cost, insert, vehicle rented, rollback on error; proved by the CreateBooking* lemmas |
| BookingRules.ApproveBooking | src/modules/bookings/bookings.services.ts:73-88 | approveBooking: pending to confirmed; proved by ApproveBookingSpec |
| BookingRules.CancelBooking | src/modules/bookings/bookings.services.ts:123-141 | cancelBooking: existence, owner, start date, then cancelled and available; proved by CancelBookingCheckOrder and CancelBookingEffect |
| BookingRules.CompleteBooking | src/modules/bookings/bookings.services.ts:146-161 | completeBooking: existence, then completed and available; proved by CompleteBookingEffect |
| BookingRules.GetAllBookings | src/modules/bookings/bookings.services.ts:93-107 | the joined bookings, newest first; proved by AllBookingsExact |
| BookingRules.GetBookingsByUser | src/modules/bookings/bookings.services.ts:112-118 | the user's bookings, newest first; proved by BookingsByUserExact |
| VehicleRules.CreateVehicle | src/modules/vehicles/vehicles.service.ts:15-35 | the INSERT with status defaulting to available; proved by CreateVehicleStatus and CreateVehicleEffect |
| VehicleRules.GetAllVehicles | src/modules/vehicles/vehicles.service.ts:40-45 | every vehicle, newest first; proved by AllVehiclesExact |
| VehicleRules.GetVehicleById | src/modules/vehicles/vehicles.service.ts:50-55 | found iff an integer id names a stored vehicle; undefined for an absent one; a database error for NaN or a fraction |
| VehicleRules.UpdateVehicle | src/modules/vehicles/vehicles.service.ts:60-97 | null without allowed fields, otherwise the loop-built UPDATE; proved by UpdateVehicleEffect |
| VehicleRules.DeleteVehicle | src/modules/vehicles/vehicles.service.ts:102-119 | the active-booking guard, then DELETE; proved by DeleteVehicleEffect |
| VehicleRules.PatchVehicle | src/modules/vehicles/vehicles.service.ts:64-96 | the independent field-by-field reading of the update: each allowed field the body defines takes its value, the others keep theirs |
| UserRules.AllUsersMatchLookup | src/modules/users/user.service.ts:10-28 | getAllUsers lists a user iff getUserById finds it, with the same columns (no password) |
| UserRules.GetUserById | src/modules/users/user.service.ts:17-28 | the user without password, or "User not found"; proved by GetUserByIdSpec |
| UserRules.UpdateUser | src/modules/users/user.service.ts:30-68 | "No valid fields", then the loop-built UPDATE, then "User not found"; proved by UpdateUserEffect |
| UserRules.DeleteUser | src/modules/users/user.service.ts:70-105 | the transaction: active-booking guard, DELETE, rollback on no row; proved by DeleteUserEffect |
| UserRules.PatchUser | src/modules/users/user.service.ts:31-61 | the independent field-by-field reading of the update: name, phone and role from the body, email and password kept |
| Routes.RunGuards | src/modules/bookings/bookings.routes.ts:7-21 | the guard chain runs left to right: authentication sets the user, a role gate stops or passes |
| Routes.Dispatch | src/modules/vehicles/vehicles.routes.ts:9-32 | a request meets the router's common guards, then its route's own |
| Routes.Policy | src/modules/bookings/bookings.routes.ts:7-21 | the access policy the tables are checked against: vehicle reads public, booking operations signed in, return, approve and vehicle writes admin-only |
| Schema.IntegerParam | src/modules/bookings/bookings.services.ts:74-77 | an id reaches the table only when it is an integer; NaN and fractions are a database error |
| Schema.PriceColumn | src/db/index.ts:29 | a (non-NULL) price is accepted iff it is a positive number, and is stored unchanged |
| Schema.EnumChecksAcceptExactlyTheirNames | src/db/index.ts:20-32 | each enumerated CHECK accepts a string iff it is the name of a value |
| Schema.EmptyTables | src/db/index.ts:13-49 | freshly created tables satisfy every constraint |
| Statements.InsertBooking | src/modules/bookings/bookings.services.ts:40-52 | the insert succeeds iff end > start, cost > 0 and both foreign keys exist; the new row is pending, takes the next id and the current clock; the sequence advances even on failure, rows do not change |
| Statements.NewVehicleRow | src/db/index.ts:24-34 | a vehicle row is built iff name, type and registration are present, type and status name enum values and a given price is a positive number; it satisfies the vehicle CHECKs; a string price fails at binding first |
| Statements.InsertVehicle | src/modules/vehicles/vehicles.service.ts:24-32 | succeeds iff the row can be built and its registration number is free; a new vehicle takes the next id; nothing else changes; failures change no row |
| Statements.SetVehicleStatus | src/modules/bookings/bookings.services.ts:55-58 | only that vehicle's status changes; a missing id changes nothing |
| Statements.SetBookingStatus | src/modules/bookings/bookings.services.ts:83-86 | only that booking's status changes; a missing id changes nothing |
| Statements.AssignVehicle | src/modules/vehicles/vehicles.service.ts:86-93 | one SET assignment keeps created_at and the vehicle CHECKs |
| Statements.AssignVehicleAll | src/modules/vehicles/vehicles.service.ts:86-93 | the whole SET list keeps created_at and the vehicle CHECKs |
| Statements.UpdateVehicleRow | src/modules/vehicles/vehicles.service.ts:86-96 | a string price fails at binding, before the row lookup; then no row iff the id is missing; a row iff the SET list is accepted and the registration is not another vehicle's; only that row changes |
| Statements.AssignUser | src/modules/users/user.service.ts:53-61 | a SET assignment never changes email or password |
| Statements.AssignUserAll | src/modules/users/user.service.ts:53-61 | a SET list never changes email or password |
| Statements.UpdateUserRow | src/modules/users/user.service.ts:53-61 | no row iff the id is missing; a row iff the user exists and the SET list is accepted; only that user changes |
| Statements.Cascade | src/db/index.ts:38-39 | deleting a user or a vehicle removes exactly the bookings that reference it and keeps the others unchanged |
| Statements.DeleteVehicleRow | src/modules/vehicles/vehicles.service.ts:116 | the vehicle is gone, the other vehicles and the users are untouched, and the bookings are the ON DELETE CASCADE survivors |
| Statements.DeleteUserRow | src/modules/users/user.service.ts:89-92 | the row count is 1 iff the user existed; the user is gone, the other users and the vehicles are untouched, and the bookings are the ON DELETE CASCADE survivors |
| Statements.Rollback | src/modules/bookings/bookings.services.ts:62-64 | every row returns to the snapshot; sequences and clock keep their current values |
| Statements.InsertBookingKeepsValid | src/db/index.ts:36-48 | inserting a booking keeps every table constraint |
| Statements.InsertVehicleKeepsValid | src/db/index.ts:24-34 | inserting a vehicle keeps every table constraint |
| Statements.SetVehicleStatusKeepsValid | src/db/index.ts:30-32 | a status write keeps every table constraint |
| Statements.SetBookingStatusKeepsValid | src/db/index.ts:43-45 | a status write keeps every table constraint |
| Statements.StatusesOnlyKeepsValid | src/db/index.ts:13-49 | a change confined to status columns keeps every table constraint |
| Statements.UpdateVehicleRowKeepsValid | src/db/index.ts:24-34 | a vehicle UPDATE keeps every table constraint |
| Statements.UpdateUserRowKeepsValid | src/db/index.ts:14-22 | a user UPDATE keeps every table constraint |
| Statements.DeleteVehicleRowKeepsValid | src/db/index.ts:39 | the cascade keeps every foreign key valid |
| Statements.DeleteUserRowKeepsValid | src/db/index.ts:38 | the cascade keeps every foreign key valid |
| Statements.RollbackKeepsValid | src/modules/bookings/bookings.services.ts:62-64 | rolling back to a snapshot that met every constraint meets them again, although sequences and clock moved on |
| Store.Database.InsertBooking | src/modules/bookings/bookings.services.ts:40-52 | the method's result and new state are those of Statements.InsertBooking |
| Store.Database.InsertVehicle | src/modules/vehicles/vehicles.service.ts:24-32 | the result and new state are those of Statements.InsertVehicle |
| Store.Database.SetVehicleStatus | src/modules/bookings/bookings.services.ts:55-58 | the new state is Statements.SetVehicleStatus |
| Store.Database.SetBookingStatus | src/modules/bookings/bookings.services.ts:83-86 | the new state is Statements.SetBookingStatus |
| Store.Database.UpdateVehicleRow | src/modules/vehicles/vehicles.service.ts:86-96 | the result and new state are Statements.UpdateVehicleRow |
| Store.Database.UpdateUserRow | src/modules/users/user.service.ts:53-61 | the result and new state are Statements.UpdateUserRow |
| Store.Database.DeleteVehicleRow | src/modules/vehicles/vehicles.service.ts:116 | the new state is Statements.DeleteVehicleRow |
| Store.Database.DeleteUserRow | src/modules/users/user.service.ts:89-92 | the row count and new state are Statements.DeleteUserRow |
| Store.Database.Rollback | src/modules/bookings/bookings.services.ts:62-64 | the new state is Statements.Rollback of the snapshot |
| Listing.NewestFirstSound | src/modules/bookings/bookings.services.ts:112-118 | every listed entry is a stored row that passes the filter |
| Listing.NewestFirstComplete | src/modules/bookings/bookings.services.ts:112-118 | every stored row that passes the filter is listed |
| Listing.NewestFirstDecreasing | src/modules/bookings/bookings.services.ts:112-118 | ids strictly decrease along the listing, so none repeats |
| Listing.NewestFirstByCreation | src/modules/bookings/bookings.services.ts:114 | created_at strictly decreases along the listing |
| SetClauses.Assignments | src/modules/vehicles/vehicles.service.ts:76-82 | each assignment is an allowed key the body defines, with the body's value |
| SetClauses.AssignmentsComplete | src/modules/vehicles/vehicles.service.ts:76-82 | every allowed key the body defines is assigned |
| SetClauses.AssignmentsIgnoreOtherKeys | src/modules/vehicles/vehicles.service.ts:64-82 | keys outside the allow-list have no effect |
| SetClauses.AssignmentsEmpty | src/modules/vehicles/vehicles.service.ts:84 | no assignment iff the body defines no allowed key |
| SetClauses.BuildSetClauses | src/modules/vehicles/vehicles.service.ts:72-82 | the loop emits `$1..$k` consecutively with the matching values, and index ends at k + 1, the id's placeholder |
| SetClauses.BindBuiltClauses | src/modules/vehicles/vehicles.service.ts:86-93 | binding the loop's output executes exactly the body's allowed assignments |
| BookingRules.CreateBookingCheckOrder | src/modules/bookings/bookings.services.ts:25-33 | missing vehicle, then unavailable vehicle, then end <= start; each fails with its message and no change |
| BookingRules.CreateBookingAtomic | src/modules/bookings/bookings.services.ts:62-64 | any failure leaves every table unchanged |
| BookingRules.CreateBookingSucceedsIff | src/modules/bookings/bookings.services.ts:21-58 | on valid tables, success iff the vehicle exists, is available, has a price, end > start and the user exists |
| BookingRules.CreateBookingEffect | src/modules/bookings/bookings.services.ts:36-58 | the new pending booking carries the payload, costs days × price, is the only new row, and only its vehicle becomes rented |
| BookingRules.ThreeDaysAtFiftyCostsOneFifty | src/modules/bookings/bookings.services.ts:36-37 | a three-day booking at 5000 per day succeeds and costs 15000 |
| BookingRules.CreateBookingKeepsValid | src/modules/bookings/bookings.services.ts:14-68 | createBooking keeps every table constraint |
| BookingRules.ApproveBookingSpec | src/modules/bookings/bookings.services.ts:73-88 | success iff the booking exists and is pending; only it becomes confirmed; refusals change nothing |
| BookingRules.ApproveBookingKeepsValid | src/modules/bookings/bookings.services.ts:73-88 | approveBooking keeps every table constraint |
| BookingRules.CancelBookingCheckOrder | src/modules/bookings/bookings.services.ts:128-132 | missing, then not the owner, then started: each refused with no change |
| BookingRules.CancelBookingEffect | src/modules/bookings/bookings.services.ts:134-140 | the owner cancels before the start whatever the status; the booking becomes cancelled, its vehicle available, nothing else changes |
| BookingRules.CancelBookingKeepsValid | src/modules/bookings/bookings.services.ts:123-141 | cancelBooking keeps every table constraint |
| BookingRules.CompleteBookingEffect | src/modules/bookings/bookings.services.ts:146-161 | only existence is checked; from any status the booking becomes completed and its vehicle available |
| BookingRules.CompleteBookingIdempotent | src/modules/bookings/bookings.services.ts:154-159 | completing twice equals completing once |
| BookingRules.CompleteBookingKeepsValid | src/modules/bookings/bookings.services.ts:146-161 | completeBooking keeps every table constraint |
| BookingRules.BookingsByUserExact | src/modules/bookings/bookings.services.ts:112-118 | exactly the user's bookings, each once, newest first |
| BookingRules.AllBookingsExact | src/modules/bookings/bookings.services.ts:93-107 | with the foreign keys in place the join drops nothing: every booking once, newest first |
| BookingService.CreateBooking | src/modules/bookings/bookings.services.ts:14-68 | the transaction's result and final state are BookingRules.CreateBooking |
| BookingService.ApproveBooking | src/modules/bookings/bookings.services.ts:73-88 | result and state are BookingRules.ApproveBooking |
| BookingService.CancelBooking | src/modules/bookings/bookings.services.ts:123-141 | result and state are BookingRules.CancelBooking |
| BookingService.CompleteBooking | src/modules/bookings/bookings.services.ts:146-161 | result and state are BookingRules.CompleteBooking |
| VehicleRules.UpdateSetListIsPatch | src/modules/vehicles/vehicles.service.ts:86-96 | the built SET list changes exactly the allowed fields the body defines, to the body's values |
| VehicleRules.CreateVehicleStatus | src/modules/vehicles/vehicles.service.ts:16-22 | a vehicle created without a status is available; otherwise it has the named status |
| VehicleRules.CreateVehicleEffect | src/modules/vehicles/vehicles.service.ts:15-35 | succeeds iff name, type and registration are given, every given value passes its check and the registration is unused; a fresh id, the body's fields, a NULL price only when omitted; nothing else changes; failure changes no row |
| VehicleRules.CreateVehicleKeepsValid | src/modules/vehicles/vehicles.service.ts:15-35 | createVehicle keeps every table constraint |
| VehicleRules.UpdateVehicleIgnoresOtherKeys | src/modules/vehicles/vehicles.service.ts:64-82 | bodies that agree on the five allowed keys update identically |
| VehicleRules.VehicleBindRejects | src/modules/vehicles/vehicles.service.ts:76-93 | the SET list carries a price the binding rejects exactly when the body does |
| VehicleRules.UpdateVehicleNoFields | src/modules/vehicles/vehicles.service.ts:84 | with no allowed field the result is null and nothing is written, whatever the id |
| VehicleRules.UpdateVehicleEffect | src/modules/vehicles/vehicles.service.ts:60-97 | null iff no field, or no such vehicle and a bindable price; a string price fails first; a row iff the vehicle exists, the patch is accepted and the registration is free; a returned row is the field-by-field patch and the only change |
| VehicleRules.UpdateVehicleKeepsValid | src/modules/vehicles/vehicles.service.ts:60-97 | updateVehicle keeps every table constraint |
| VehicleRules.DeleteVehicleEffect | src/modules/vehicles/vehicles.service.ts:102-119 | refused with no change while an active booking references it; otherwise the vehicle and its bookings go, every other row keeps its contents, and an absent id still succeeds |
| VehicleRules.DeleteVehicleKeepsValid | src/modules/vehicles/vehicles.service.ts:102-119 | deleteVehicle keeps every table constraint |
| VehicleRules.AllVehiclesExact | src/modules/vehicles/vehicles.service.ts:40-45 | every vehicle once, newest first |
| VehicleService.CreateVehicle | src/modules/vehicles/vehicles.service.ts:15-35 | result and state are VehicleRules.CreateVehicle |
| VehicleService.UpdateVehicle | src/modules/vehicles/vehicles.service.ts:60-97 | the loop-built UPDATE has the result and state of VehicleRules.UpdateVehicle |
| VehicleService.DeleteVehicle | src/modules/vehicles/vehicles.service.ts:102-119 | result and state are VehicleRules.DeleteVehicle |
| UserRules.UpdateSetListIsPatch | src/modules/users/user.service.ts:53-61 | the built SET list changes exactly name, phone and role as the body defines them |
| UserRules.UpdateUserIgnoresOtherKeys | src/modules/users/user.service.ts:31-47 | bodies that agree on name, phone and role update identically |
| UserRules.UpdateUserKeepsCredentials | src/modules/users/user.service.ts:31-47 | no user's email or password ever changes |
| UserRules.UpdateUserEffect | src/modules/users/user.service.ts:30-68 | "No valid fields" with no allowed field, "User not found" for a missing id; success iff a field is defined, the user exists and the patch is accepted; success patches only that user |
| UserRules.UpdateUserKeepsValid | src/modules/users/user.service.ts:30-68 | updateUser keeps every table constraint |
| UserRules.DeleteUserEffect | src/modules/users/user.service.ts:70-105 | refused with no change while the user has an active booking; "User not found" with no change; otherwise the user and their bookings go and every other row keeps its contents |
| UserRules.DeleteUserKeepsValid | src/modules/users/user.service.ts:70-105 | deleteUser keeps every table constraint |
| UserRules.GetUserByIdSpec | src/modules/users/user.service.ts:17-28 | found iff the user exists; otherwise "User not found" |
| UserService.UpdateUser | src/modules/users/user.service.ts:30-68 | the loop-built UPDATE has the result and state of UserRules.UpdateUser |
| UserService.DeleteUser | src/modules/users/user.service.ts:70-105 | the transaction's result and state are UserRules.DeleteUser |
| RentalInvariant.EmptyTablesConsistent | src/db/index.ts:13-49 | empty tables satisfy the invariant |
| RentalInvariant.ReleaseKeepsConsistent | src/modules/bookings/bookings.services.ts:134-139 | releasing an active booking, or one whose vehicle has no active booking, keeps the invariant |
| RentalInvariant.CreateBookingKeepsConsistent | src/modules/bookings/bookings.services.ts:14-68 | createBooking always keeps it |
| RentalInvariant.ApproveBookingKeepsConsistent | src/modules/bookings/bookings.services.ts:73-88 | approveBooking always keeps it |
| RentalInvariant.StatusWithinActivity | src/modules/bookings/bookings.services.ts:83-86 | a booking status write that keeps the booking active (or inactive) keeps the invariant |
| RentalInvariant.CancelBookingKeepsConsistent | src/modules/bookings/bookings.services.ts:123-141 | cancelBooking keeps it when the booking is still active or its vehicle has no active booking |
| RentalInvariant.CompleteBookingKeepsConsistent | src/modules/bookings/bookings.services.ts:146-161 | completeBooking keeps it under the same condition |
| RentalInvariant.DeleteVehicleKeepsConsistent | src/modules/vehicles/vehicles.service.ts:102-119 | deleteVehicle always keeps it |
| RentalInvariant.DeleteUserKeepsConsistent | src/modules/users/user.service.ts:70-105 | deleteUser always keeps it |
| RentalInvariant.UpdateUserKeepsConsistent | src/modules/users/user.service.ts:30-68 | updateUser always keeps it |
| RentalInvariant.UpdateVehicleKeepsConsistent | src/modules/vehicles/vehicles.service.ts:60-97 | updateVehicle keeps it when the body has no status |
| RentalInvariant.CreateVehicleKeepsConsistent | src/modules/vehicles/vehicles.service.ts:15-35 | createVehicle keeps it unless the body says "rented" |
| RentalInvariant.StaleCancelBreaksInvariant | src/modules/bookings/bookings.services.ts:128-139 | cancelling an inactive booking while another holds the vehicle succeeds and breaks the invariant |
| RentalInvariant.StaleCompleteBreaksInvariant | src/modules/bookings/bookings.services.ts:152-159 | returning an inactive booking while another holds the vehicle does the same |
| RentalInvariant.StaleCancelReachable | src/modules/bookings/bookings.services.ts:123-141 | book, cancel, book again, cancel the first again: every step succeeds and the last breaks the invariant |
| RentalInvariant.StatusWriteBreaksInvariant | src/modules/vehicles/vehicles.service.ts:64-96 | an admin writing "available" on a held vehicle succeeds and breaks the invariant |
| RentalInvariant.StatusWriteAllowsDoubleBooking | src/modules/bookings/bookings.services.ts:25-58 | after that write the vehicle can be booked again: two active bookings on one vehicle |
| RentalInvariant.RentedCreationBreaksInvariant | src/modules/vehicles/vehicles.service.ts:16-32 | a vehicle created as rented has no booking behind it |
| RoleMiddleware.RoleGate | src/middlewares/role.middleware.ts:5-27 | next() iff a user is present with exactly the allowed role; 401 without a user, checked first; 403 otherwise |
| RoleMiddleware.NoRoleHierarchy | src/middlewares/role.middleware.ts:18-23 | an admin is stopped by a customer gate, and the reverse |
| Routes.Lookup | src/modules/vehicles/vehicles.routes.ts:9-32 | a found route is in the table and serves the endpoint; none found means no route serves it |
| Routes.LookupFirst | src/modules/bookings/bookings.routes.ts:9-21 | lookup returns the first route for the endpoint |
| Routes.BookingGuardsOf | src/modules/bookings/bookings.routes.ts:9-21 | create, list and cancel carry no guard of their own; return and approve carry the admin role gate |
| Routes.VehicleGuardsOf | src/modules/vehicles/vehicles.routes.ts:9-32 | the two reads carry no guard; create, update and delete carry authentication then the admin role gate |
| Routes.BookingRoutesFollowPolicy | src/modules/bookings/bookings.routes.ts:7-21 | every booking route requires authentication; create, list and cancel have no role gate; return and approve are admin-only |
| Routes.VehicleRoutesFollowPolicy | src/modules/vehicles/vehicles.routes.ts:9-32 | listing and reading vehicles are public; create, update and delete need authentication and then admin |
| BookingController.ServicePayload | src/modules/bookings/bookings.controller.ts:11-14 | the booking's user_id is the caller's, whatever the body says |
| BookingController.CreateBooking | src/modules/bookings/bookings.controller.ts:9-19 | the state is the service's; 201 with the service's booking iff it succeeds; each service error is a 400 with its message |
| BookingController.CreateBookingReplies | src/modules/bookings/bookings.controller.ts:9-19 | on valid tables, 201 iff the vehicle exists, is available and priced, end > start and the caller exists; the 201 carries the caller's pending booking, the only new row, and its vehicle is rented |
| BookingController.ApproveBooking | src/modules/bookings/bookings.controller.ts:21-30 | the state is the service's; 200 "Booking approved" with the booking iff it existed and was pending, and only it became confirmed; otherwise 400 with the service's message and nothing changed |
| BookingController.GetBookings | src/modules/bookings/bookings.controller.ts:32-42 | always 200 with a listing |
| BookingController.CancelBooking | src/modules/bookings/bookings.controller.ts:44-54 | the state is the service's; 200 iff the caller owns the existing booking and it has not started, with the service's message and the booking cancelled; otherwise 400 with the error and nothing changed |
| BookingController.CompleteBooking | src/modules/bookings/bookings.controller.ts:56-65 | the state is the service's; 200 iff the booking exists, with the service's message and the booking completed; otherwise 400 with the error and nothing changed |
| BookingController.BodyUserIdIgnored | src/modules/bookings/bookings.controller.ts:11-14 | a forged user_id in the body changes nothing |
| BookingController.CreateBookingErrorsAre400 | src/modules/bookings/bookings.controller.ts:16-18 | each service error is a 400 with its message, and no row changes |
| BookingController.ListingByRole | src/modules/bookings/bookings.controller.ts:34-37 | an admin gets every booking; anyone else gets exactly their own; newest first |
| UserController.GetAllUsers | src/modules/users/user.controller.ts:12-22 | 200 with all users iff the caller is an admin, else 403 "Forbidden" |
| UserController.UpdateUser | src/modules/users/user.controller.ts:24-76 | an admin, or a customer on their own id without a role field, reaches the service: the state is its state, 200 with its user or 400 with its error; a 200 is the field-by-field patch of that user only; every refusal changes nothing |
| UserController.UpdateUserCheckOrder | src/modules/users/user.controller.ts:25-61 | 401, then 400 "Invalid user id" for NaN, then 403 for another user's id, then 403 "Role change not allowed" even on one's own id |
| UserController.AdminUpdatesAnyUser | src/modules/users/user.controller.ts:43-75 | an admin's request goes straight to the service; its error is a 400 |
| UserController.DeleteUser | src/modules/users/user.controller.ts:78-107 | 403 iff not admin; an admin with a non-NaN id reaches the service and gets its state, 200 or 400 with its error; 200 iff the user existed without active bookings, and then the user and their bookings are gone |
| UserController.DeleteUserCheckOrder | src/modules/users/user.controller.ts:79-93 | the role check comes before the id check |
| VehicleController.CreateVehicle | src/modules/vehicles/vehicles.controller.ts:16-36 | non-admins get 403 and the service is not called; for an admin the state is the service's, 201 with its vehicle iff it succeeds, otherwise 400 with its error and rows unchanged |
| VehicleController.GetAllVehicles | src/modules/vehicles/vehicles.controller.ts:41-54 | 200 with exactly the service's listing (every vehicle once, newest first by AllVehiclesExact) |
| VehicleController.GetVehicle | src/modules/vehicles/vehicles.controller.ts:59-82 | 200 iff the vehicle exists; 404 for an absent integer id; 500 for an id the database rejects |
| VehicleController.UpdateVehicle | src/modules/vehicles/vehicles.controller.ts:87-118 | non-admins get 403 and no call; for an admin the state is the service's, 200 iff it returns a row, 404 iff it returns null, 400 with its error otherwise; a 200 carries the field-by-field patch, the only change |
| VehicleController.UpdateWithoutFieldsIs404 | src/modules/vehicles/vehicles.controller.ts:101-106 | an admin's body without allowed fields gets the 404 |
| VehicleController.DeleteVehicle | src/modules/vehicles/vehicles.controller.ts:123-143 | non-admins get 403 and no call; for an admin the state is the service's, 200 iff the id is an integer with no active booking on it, then the vehicle and its bookings are gone; otherwise 400 with the error and nothing changed |

## Left out

- The PostgreSQL pool, connections, `client.release`, `initDB`'s logging and `process.exit` are I/O. The tables are in-memory maps.
- Concurrency and isolation are not modelled. Two `createBooking` calls cannot interleave here. The two UPDATEs of `cancelBooking`/`completeBooking` run as sequential steps.
- JavaScript `Date` parsing and `NUMERIC(10,2)` rounding are not modelled. Dates are whole day numbers and prices integers, so `days` is always whole.
- `cancelBooking`'s `new Date()` becomes a `today` parameter.
- The authentication service and controller (bcrypt, JWT) are not part of this model.
- `authMiddleware` is not part of this model. Its outcome is an input: the authenticated user, or a rejection whose reply is not modelled.
- Express wiring (`src/app.ts`, `src/server.ts`) is not modelled. Neither is `src/modules/users/user.routes.ts`: it only attaches authentication. Express path matching is replaced by looking a route up by its endpoint.
- The joined display columns of `getAllBookings` (user_name, email, vehicle_name, type) are projection only. The listing returns the booking rows.
- `created_at` is a logical clock. Equal timestamps are not modelled, and the users table's `created_at` is not kept.
- Request bodies hold strings and numbers only. JSON `null`, booleans and objects are not modelled.
- Schema.PriceColumn: a string price is always rejected as invalid input when the statement binds it, before any row is read. PostgreSQL would parse a string that spells a number.
- BookingController.CreateBooking: the body's `vehicle_id` is an integer and its dates are day numbers. A missing, non-numeric or fractional `vehicle_id` is not modelled; PostgreSQL would reject it when binding the lookup, with its own message instead of "Vehicle not found" (still a 400). Unparseable dates are not modelled either.
- VARCHAR length limits and the 32-bit range of `INTEGER`/`SERIAL` are not modelled.
- When several constraints fail at once, the model reports the first one in column order. PostgreSQL's own choice and its exact error texts are not modelled.
- VehicleController.GetAllVehicles: the 500 branch needs a failing query and is not reachable in this model.
- BookingController.GetBookings: likewise, its 400 branch is not reachable.
- `getVehicleById` and `getUserById` are pure lookups, so they have no imperative counterpart.
