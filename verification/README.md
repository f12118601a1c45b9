# Hotel booking service — a Dafny model

This project models the REST back end of a small hotel booking application
(Express handlers over a MySQL database) and the pure part of its admin
dashboard page, and proves properties of that model.

The model covers:

- user signup and login;
- the `protect` / `admin` guards in front of the routes;
- the room catalogue, including how its JSON list columns are written and
  read back;
- bookings: creation, reads, listings, admin status and payment updates,
  and cancellation;
- the user profile and the admin user list;
- the route tables of the three routers;
- the booking filter, the counters and the "Approve Payment" action of the
  admin page.

How the model is built:

- Every handler is a pure function. It takes the database state (`Store`),
  the caller, and the request fields, and returns the reply (`Ok(code, body)`
  or `Err(code, message)`) together with the next `Store`.
- The `Store` holds the `users`, `rooms` and `bookings` tables as maps from
  primary key to row, plus each table's AUTO_INCREMENT counter.
- The `ORDER BY` listings are methods. Each one picks the top-ranked
  remaining row in every round.
- `App.Serve` composes the guards with the handlers, following the route
  tables.

Units: money is in integer cents, star ratings are in tenths (45 is 4.5),
and instants are integer milliseconds. bcrypt and JWT are parameters
(`Store.Env`): `hash`, `matches`, `sign` and `verify`. The clock is a `now`
argument.

The modules are:

| module | what it covers |
|---|---|
| `Js` | JavaScript truthiness, `||` defaults, `split`/`join` |
| `JsonList` | `JSON.stringify`/`JSON.parse` for the list columns |
| `Store` | the tables and the reply types |
| `Listing` | ordering by rank |
| `AuthMiddleware` | `protect` and `admin` |
| `RoomController`, `BookingController`, `UserController`, `AuthController` | the handlers |
| `Routes` | the route tables |
| `App` | guarded dispatch |
| `AdminDashboard` | the admin page |

Behaviour of the code worth noting:

- `createBooking` does not check that check-out comes after check-in, so a
  reversed stay is booked for zero or fewer nights
  (`BookingController.ReversedStayAccepted`).
- `updateBookingStatus` writes any non-empty text into either status column
  (`BookingController.StatusUpdateLeavesLifecycle`).
- `cancelBooking` cancels a booking in any state, and refuses everyone but
  the booking's owner, admins included.
- The admin booking list uses inner joins, so a booking whose user or room
  has been deleted is not listed. The caller's own list uses a left join and
  still shows it.

## Model

| member | source | states |
|---|---|---|
| Js.Split | hotel-booking-backend/middleware/authMiddleware.js:13 | `split(' ')` yields at least one piece and no piece contains the separator |
| JsonList.ParseStringify | hotel-booking-backend/controllers/roomController.js:74-75 | a list of strings written with `JSON.stringify` parses back to exactly that list |
| JsonList.ParseQuote | hotel-booking-backend/controllers/roomController.js:8 | a stringified string parses back to that string |
| Listing.Ordered | hotel-booking-backend/controllers/roomController.js:22 | an `ORDER BY` result: every selected key exactly once, in non-increasing rank order |
| Listing.Least | hotel-booking-backend/controllers/authController.js:63 | the row taken first from an unordered result is a member of it and below every other key |
| AuthMiddleware.JoinSplit | hotel-booking-backend/middleware/authMiddleware.js:13 | splitting the header at spaces loses nothing: joining the pieces restores it |
| AuthMiddleware.BearerToken | hotel-booking-backend/middleware/authMiddleware.js:13 | there is a second piece iff the header contains a space, and that piece contains none |
| AuthMiddleware.Protect | hotel-booking-backend/middleware/authMiddleware.js:4-37 | 401 "no token" iff the header is missing, empty or does not start with "Bearer"; 401 "token failed" iff it does but the second piece is absent, empty or does not verify; 401 "User not found" iff the verified id names no user; otherwise passes, attaching that user without password |
| AuthMiddleware.AdminGuard | hotel-booking-backend/middleware/authMiddleware.js:39-45 | passes iff a principal with role "admin" is attached, otherwise 403 |
| AuthMiddleware.ProtectAcceptsBearer | hotel-booking-backend/middleware/authMiddleware.js:7-27 | "Bearer <token>", with or without trailing text, admits the user the token names |
| AuthMiddleware.SchemeWithoutSpaceFails | hotel-booking-backend/middleware/authMiddleware.js:9-13 | a header starting with "Bearer" and containing no space is refused as a failed token, not as a missing one |
| RoomController.SafeJsonParse | hotel-booking-backend/controllers/roomController.js:3-18 | a falsy cell gives the default; a decoded array passes through; parsable text gives its value; otherwise the quote/backslash cleanup is parsed, falling back to the default |
| RoomController.StripQuotes | hotel-booking-backend/controllers/roomController.js:11 | a leading and a trailing double quote are each removed on their own; a lone quote is removed once; text without either is unchanged |
| RoomController.RemoveBackslashes | hotel-booking-backend/controllers/roomController.js:11 | no backslash remains, every other character keeps its count, and a single non-backslash character is kept |
| RoomController.RemoveBackslashesConcat | hotel-booking-backend/controllers/roomController.js:11 | removing backslashes works piecewise, so the remaining characters keep their order |
| RoomController.StoredListReadsBack | hotel-booking-backend/controllers/roomController.js:3-18 | a list column written by the service reads back as that list |
| RoomController.DoubleEncodedListIsString | hotel-booking-backend/controllers/roomController.js:7-8 | a list stringified twice parses on the first attempt, as a string and not as a list |
| RoomController.QuotedListUnreadable | hotel-booking-backend/controllers/roomController.js:7-9 | a non-empty list wrapped in bare quotes is not valid JSON |
| RoomController.QuotedListRecovered | hotel-booking-backend/controllers/roomController.js:10-12 | the cleanup pass recovers such a quoted list of plain strings |
| RoomController.CreateRoom | hotel-booking-backend/controllers/roomController.js:60-95 | 201 with the new row under the next id; no other row or table changes |
| RoomController.CreateRoomDefaults | hotel-booking-backend/controllers/roomController.js:68-79 | name and type are stored as sent; missing description, size and rating take 'Comfortable and spacious room', 25 and 4.5, and a truthy rating is kept; an explicit `available: false` is kept; `featured` is true only when sent truthy |
| RoomController.CreateRoomLists | hotel-booking-backend/controllers/roomController.js:74-75 | sent amenities and images read back exactly; omitted ones read back as the default lists |
| RoomController.RoomListsStoredAsText | hotel-booking-backend/controllers/roomController.js:74-75 | create and update store each list column as the `JSON.stringify` text of the list, the default list when a create omits it |
| RoomController.CreateRoomKeepsWellKeyed | hotel-booking-backend/controllers/roomController.js:64-82 | the insert keeps every row under its own key below the counter and touches no stored room |
| RoomController.GetRoomById | hotel-booking-backend/controllers/roomController.js:38-58 | 404 for an unknown id; otherwise the row with parsed lists; nothing changes |
| RoomController.UpdateRoom | hotel-booking-backend/controllers/roomController.js:97-176 | 400 when nothing is to be written (checked before the lookup), then 404; on success only that row changes: a truthy name, type, description, capacity or size is written as sent, a falsy one leaves the column as it was, and the other supplied columns take their values |
| RoomController.UpdateRoomGuards | hotel-booking-backend/controllers/roomController.js:104-147 | truthiness guards drop an empty name or a zero capacity or size; presence guards keep a zero price, a zero rating and `false` |
| RoomController.UpdateRoomIdempotent | hotel-booking-backend/controllers/roomController.js:97-176 | repeating an update leaves the store as the first one did |
| RoomController.DeleteRoom | hotel-booking-backend/controllers/roomController.js:178-191 | the row is removed; 404 when no row was removed |
| RoomController.GetRooms | hotel-booking-backend/controllers/roomController.js:20-36 | every room exactly once, featured first, newest first within each group |
| BookingController.Nights | hotel-booking-backend/controllers/bookingController.js:25-27 | the ceiling of the stay over a day: (n-1) days < stay <= n days; at least 1 for a forward stay, at most 0 otherwise |
| BookingController.NightsOfWholeDays | hotel-booking-backend/controllers/bookingController.js:27 | k whole days are k nights, and one more millisecond is k+1 |
| BookingController.CreateBooking | hotel-booking-backend/controllers/bookingController.js:3-61 | 404 for a missing room, 400 for an unavailable one, otherwise 201 with a booking owned by the caller, Pending on both axes, priced nights × room price |
| BookingController.CreateBookingKeepsInvariants | hotel-booking-backend/controllers/bookingController.js:30-45 | the insert keeps the store well keyed and every booking in a lifecycle state |
| BookingController.ReversedStayAccepted | hotel-booking-backend/controllers/bookingController.js:25-43 | a stay ending before it starts is accepted with zero or fewer nights and a total of zero or less |
| BookingController.ListImages | hotel-booking-backend/controllers/bookingController.js:94-107 | a falsy column gives [], parsable text gives its value, unparsable text gives [] |
| BookingController.BookingImages | hotel-booking-backend/controllers/bookingController.js:186-195 | as for the list, except unparsable text becomes a one-element list holding the text |
| BookingController.StoredImagesReadBack | hotel-booking-backend/controllers/bookingController.js:98 | images stored by the room handlers read back as stored on both read paths |
| BookingController.RoomImagesOnBookings | hotel-booking-backend/controllers/bookingController.js:98 | the images a room create or update writes are exactly what both booking reads show for that room |
| BookingController.BareUrlImages | hotel-booking-backend/controllers/bookingController.js:98 | a bare URL is kept by the single read and dropped by the user listing |
| BookingController.GetBookingById | hotel-booking-backend/controllers/bookingController.js:137-212 | 404 for an unknown id; 403 unless the caller owns the booking or is an admin; otherwise the booking and its images |
| BookingController.CreatedBookingReadable | hotel-booking-backend/controllers/bookingController.js:137-212 | the creator can read back the booking just created |
| BookingController.GetUserBookings | hotel-booking-backend/controllers/bookingController.js:63-118 | exactly the caller's bookings, each once, newest first, including bookings whose room is gone |
| BookingController.GetAllBookings | hotel-booking-backend/controllers/bookingController.js:120-135 | exactly the bookings whose user and room both exist, each once, newest first |
| BookingController.UpdateBookingStatus | hotel-booking-backend/controllers/bookingController.js:214-255 | 400 when neither field is truthy, then 404; on success only the truthy fields of that booking change |
| BookingController.UpdateBookingStatusIdempotent | hotel-booking-backend/controllers/bookingController.js:214-255 | repeating the update changes nothing more |
| BookingController.StatusUpdateLeavesLifecycle | hotel-booking-backend/controllers/bookingController.js:221-224 | any text is accepted as a status, so a booking can leave the lifecycle's states |
| BookingController.CancelBooking | hotel-booking-backend/controllers/bookingController.js:257-284 | 404, then 403 for anyone but the owner; otherwise only the status becomes Cancelled, whatever it was |
| BookingController.CancelBookingIdempotent | hotel-booking-backend/controllers/bookingController.js:257-284 | cancelling twice is cancelling once, and both store invariants are kept |
| BookingController.UpdatePayment | hotel-booking-backend/controllers/bookingController.js:286-325 | 400 unless the value is Pending, Paid or Refunded (checked before the lookup), then 404; the payment takes the value, and the status changes iff it was Pending and the value is Paid, to Confirmed |
| BookingController.UpdatePaymentKeepsLifecycle | hotel-booking-backend/controllers/bookingController.js:293-316 | every booking stays in a lifecycle state, and repeating the call changes nothing more |
| BookingController.PaymentDrivesStatus | hotel-booking-backend/controllers/bookingController.js:311-316 | paying a Pending booking confirms it; a refund never touches the status |
| UserController.GetProfile | hotel-booking-backend/controllers/userController.js:17-27 | the caller's row without password, or nothing once the row is gone |
| UserController.UpdateProfile | hotel-booking-backend/controllers/userController.js:29-80 | 400 when no field is truthy; only the caller's row changes, a new password stored as its hash, the role never |
| UserController.UpdateProfileIsSelfOnly | hotel-booking-backend/controllers/userController.js:63-75 | no other user, room or booking changes, and the answer equals what the profile read then returns |
| UserController.DeleteUser | hotel-booking-backend/controllers/userController.js:82-95 | the row is removed and 404 when none was; bookings stay |
| UserController.ListingHidesPassword | hotel-booking-backend/controllers/userController.js:7 | two users list identically iff they differ at most in the password |
| UserController.GetUsers | hotel-booking-backend/controllers/userController.js:4-15 | every user exactly once, without password, newest first |
| AuthController.Signup | hotel-booking-backend/controllers/authController.js:5-44 | 400 for a missing field or a taken email; otherwise 201 and a new row with the hashed password, role "user", and a session token for its id |
| AuthController.SignupKeepsInvariants | hotel-booking-backend/controllers/authController.js:13-28 | the store stays well keyed and emails stay unique |
| AuthController.Login | hotel-booking-backend/controllers/authController.js:46-83 | never changes the store; 400 for a missing field; the same 401 for an unknown email and a wrong password; otherwise the stored row's session |
| AuthController.SignupThenLogin | hotel-booking-backend/controllers/authController.js:5-83 | whoever signs up can log in with the same credentials as the same user |
| AuthController.LoginAnswersStoredRow | hotel-booking-backend/controllers/authController.js:71-78 | the role and token id come from the stored row |
| AuthController.GetMe | hotel-booking-backend/controllers/authController.js:85-101 | the caller's row without password, 404 once it is gone |
| Routes.Dispatch | hotel-booking-backend/routes/bookingRoutes.js:15-26 | a request reaches a registration iff one handles it, and then the first that does |
| Routes.GuardOf | hotel-booking-backend/routes/roomRoutes.js:13-20 | the guard registered for each endpoint is the one the access policy asks for |
| Routes.TableFollowsPolicy | hotel-booking-backend/routes/userRoutes.js:7-11 | every registration on every router carries its endpoint's policy guard |
| Routes.DispatchFollowsPolicy | hotel-booking-backend/routes/bookingRoutes.js:15-26 | whichever registration a request reaches runs the policy's guard |
| Routes.ListingsBeforeId | hotel-booking-backend/routes/bookingRoutes.js:18-22 | GET /user and GET /admin reach the listings, never the single read |
| Routes.OtherSegmentIsBookingId | hotel-booking-backend/routes/bookingRoutes.js:21-22 | any other one-segment GET is the protected single read |
| Routes.PaymentRouteIsAdminOnly | hotel-booking-backend/routes/bookingRoutes.js:26 | PUT /:id/payment reaches the payment update behind the admin guard |
| App.Serve | hotel-booking-backend/routes/bookingRoutes.js:15-26 | a guarded call without a caller is 401 and changes nothing; an admin call from a non-admin changes nothing and is 403 for a known caller; otherwise the handler runs for the caller; listing rooms answers 200 and reading a room answers as `getRoomById`, with or without a caller |
| App.Handle | hotel-booking-backend/routes/bookingRoutes.js:15-26 | each endpoint runs the handler its registration names (the room and user routers are built the same way); the read endpoints leave the store as it is, and the list and profile reads answer 200 |
| App.PublicIgnoresHeader | hotel-booking-backend/routes/roomRoutes.js:13-17 | room reads answer alike whatever header is sent, as their handler answers any signed-in caller, and change nothing |
| App.RoomsNeedAdmin | hotel-booking-backend/routes/roomRoutes.js:13-20 | only an admin changes a room |
| App.BookingWritesOfNonAdmin | hotel-booking-backend/routes/bookingRoutes.js:15-26 | a non-admin changes no stored booking except by cancelling their own |
| App.PaymentNeedsAdmin | hotel-booking-backend/routes/bookingRoutes.js:23-26 | a payment status changes only at an admin's call |
| App.UsersOfNonAdmin | hotel-booking-backend/routes/userRoutes.js:7-11 | a non-admin changes only their own user row and removes no user |
| App.RolesNeverChange | hotel-booking-backend/controllers/userController.js:36-57 | no call changes anyone's role: the profile update has no role field |
| App.HandleKeepsWellKeyed | hotel-booking-backend/controllers/bookingController.js:30-45 | every handler keeps each row under its own key below the table's counter |
| App.ServeKeepsWellKeyed | hotel-booking-backend/routes/bookingRoutes.js:15-26 | every call keeps the store well keyed |
| App.NonAdminKeepsLifecycle | hotel-booking-backend/routes/bookingRoutes.js:23-26 | without an admin every booking stays in the lifecycle's states |
| AdminDashboard.Where | src/pages/AdminDashboard.jsx:48-62 | the filter keeps exactly the passing bookings, each result element passes, and the result is a sub-multiset of the input |
| AdminDashboard.WhereCounts | src/pages/AdminDashboard.jsx:48-54 | a passing booking occurs in the result as often as in the input, a failing one not at all |
| AdminDashboard.WhereSize | src/pages/AdminDashboard.jsx:56-62 | the filter's length is the number of positions whose booking passes |
| AdminDashboard.WhereSingleton | src/pages/AdminDashboard.jsx:48-54 | a one-booking list is kept iff the booking passes |
| AdminDashboard.WhereConcat | src/pages/AdminDashboard.jsx:48-54 | filtering distributes over concatenation |
| AdminDashboard.Filtered | src/pages/AdminDashboard.jsx:48-54 | the three status keys show exactly the bookings in that state, each as often as in the list; "all" and any other key show the whole list |
| AdminDashboard.StatsOf | src/pages/AdminDashboard.jsx:56-62 | the total is the list length; the pending, confirmed and cancelled cards count the positions holding a booking in that status, and the pending-payment card those awaiting payment; each counter lies between 0 and the total, and is 0 iff no booking qualifies |
| AdminDashboard.StatsAddUp | src/pages/AdminDashboard.jsx:56-62 | pending + confirmed + cancelled + uncounted = total, and the pending-payment count is at most the total |
| AdminDashboard.CompletedUncounted | src/pages/AdminDashboard.jsx:56-62 | a Completed booking is on no status card |
| AdminDashboard.ApproveConfirms | src/pages/AdminDashboard.jsx:36-46 | approving a pending, unpaid booking marks it Paid and Confirmed, and the button disappears |
| AdminDashboard.Approve | src/pages/AdminDashboard.jsx:36-46 | the request names the row's booking id and the value "Paid" |
| AdminDashboard.ApproveOfferedUntilPaid | src/pages/AdminDashboard.jsx:207-214 | after any accepted payment update the button is offered again iff the value written was "Pending" |
| AdminDashboard.ApproveKeepsOtherStatus | src/pages/AdminDashboard.jsx:207-214 | approving a booking in another state only sets its payment |

## Left out

- Explicit JSON `null` in a request body is not modelled. A field is either absent or present.
- JSON values other than a string or an array of strings (numbers, objects, nested arrays) are read as unparsable. The request's list fields are typed as arrays of strings, so a client that sends another shape is not modelled.
- Strings are sequences of Unicode scalar values, not UTF-16 code units, so lone surrogates are not modelled: `JSON.parse` accepts `"\uD800"` but `JsonList.Parse` rejects it, and `RoomController.SafeJsonParse` then returns the default.
- `new Date` parsing is not modelled: dates arrive as integer milliseconds, and an invalid date (NaN) is not modelled.
- Floating point is not modelled. `DECIMAL` prices are integer cents and ratings are integer tenths.
- Concurrency is not modelled. Every handler runs atomically; interleavings between the two updates of `updatePayment` are not modelled.
- MySQL collation is not modelled. String comparisons in `WHERE` clauses are exact, not case-insensitive. This covers the email lookup, and also the `status = 'Pending'` test of `updatePayment` (bookingController.js:311-314). Under a case-insensitive collation that test would confirm a booking whose status was written as "pending"; `BookingController.UpdatePayment` does not.
- Express path matching is exact. Case-insensitive matching and trailing slashes are not modelled.
- The joined display columns (room name, user name, email, phone, room type and price) and `updated_at` are not modelled. Only the booking row and the room images are.
- The database schema is not part of this model. The column defaults (status and payment Pending, role "user", active) are assumed. No enum or unique constraint is assumed.
- No foreign key from bookings to users or rooms is assumed. Deleting a user or a room therefore leaves that user's or room's bookings stored. A cascading key would remove them, and a restricting key would make the delete fail with 500.
- The `amenities` and `images` columns are taken to be text columns that hold the `JSON.stringify` output, and the write handlers store that text. With a JSON column the driver returns the array already decoded (`Cell.Decoded`). The booking reads then parse the array's `toString()`, which fails for URLs, so both show an empty list. `BookingController.StoredImagesReadBack` therefore holds only for text columns.
- Path ids are taken to be decimal integers. A `:id` segment reaches `WHERE ... = ?` as text, and MySQL's lenient cast of other text (`12abc` as 12, `abc` as 0) is not modelled.
- hotel-booking-backend/routes/authRoutes.js is not part of this model, so the guards of signup, login and `/me` are not modelled. `AuthController.GetMe` is modelled for the caller the guard attached.
- Database and driver errors are not modelled, and neither is logging. Most handlers answer those with 500. Some answer 400 with the driver's message instead: bookingController.js:59 and 253, roomController.js:93 and 174, userController.js:78.
- BookingController.CreateBooking: an absent `roomId` is treated as matching no room (404). A `userId` body field is not kept.
- AuthController.Login: of several rows with the same email, the one with the lowest key is taken. MySQL does not promise an order without `ORDER BY`.
- Store.Env: bcrypt's random salt is not modelled. `hash` is a function of the password, and `matches` is an arbitrary predicate.
- App.Handle: the list endpoints answer 200 and leave the store unchanged. Their contents are stated by the listing methods, which cannot be called from a function.
- The client pages other than the admin dashboard's filter, counters and approve action are not modelled. Neither are the network calls, `window.confirm` and the refetch after approving.
