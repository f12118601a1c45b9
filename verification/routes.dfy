/** The route tables of routes/bookingRoutes.js, routes/roomRoutes.js and
    routes/userRoutes.js, mounted under /api/bookings, /api/rooms and
    /api/users.

    A router tries its registrations in the order they were made and hands
    a request to the first whose verb and path pattern match; the
    registration names the guard chain that runs before the handler. */
module Routes {
  import opened Js

  datatype Verb = Get | Post | Put | Delete

  /** A path pattern segment: a literal, or a `:id` parameter, which
      matches any one non-empty segment. */
  datatype Segment = Lit(text: string) | Param

  /** The middleware chain in front of a handler: none, `protect`, or
      `protect` then `admin`. */
  datatype Guard = Public | Protected | AdminOnly

  datatype Endpoint =
    | CreateBooking | GetUserBookings | GetAllBookings | GetBookingById
    | UpdateBookingStatus | CancelBooking | UpdatePayment
    | GetRooms | CreateRoom | GetRoomById | UpdateRoom | DeleteRoom
    | GetProfile | UpdateProfile | GetUsers | DeleteUser

  datatype Route = Route(verb: Verb, pattern: seq<Segment>, guard: Guard, endpoint: Endpoint)

  datatype Router = Bookings | Rooms | Users

  const BookingRoutes: seq<Route> := [
    Route(Post, [], Protected, CreateBooking),
    Route(Get, [Lit("user")], Protected, GetUserBookings),
    Route(Get, [Lit("admin")], AdminOnly, GetAllBookings),
    Route(Get, [Param], Protected, GetBookingById),
    Route(Put, [Param], AdminOnly, UpdateBookingStatus),
    Route(Delete, [Param], Protected, CancelBooking),
    Route(Put, [Param, Lit("payment")], AdminOnly, UpdatePayment)
  ]

  const RoomRoutes: seq<Route> := [
    Route(Get, [], Public, GetRooms),
    Route(Post, [], AdminOnly, CreateRoom),
    Route(Get, [Param], Public, GetRoomById),
    Route(Put, [Param], AdminOnly, UpdateRoom),
    Route(Delete, [Param], AdminOnly, DeleteRoom)
  ]

  const UserRoutes: seq<Route> := [
    Route(Get, [Lit("profile")], Protected, GetProfile),
    Route(Put, [Lit("profile")], Protected, UpdateProfile),
    Route(Get, [], AdminOnly, GetUsers),
    Route(Delete, [Param], AdminOnly, DeleteUser)
  ]

  function Table(r: Router): seq<Route> {
    match r
    case Bookings => BookingRoutes
    case Rooms => RoomRoutes
    case Users => UserRoutes
  }

  /** The path below the mount point, split at `/`, matches the pattern. */
  predicate Matches(pattern: seq<Segment>, path: seq<string>) {
    |pattern| == |path| && forall i :: 0 <= i < |path| ==> SegmentMatches(pattern[i], path[i])
  }

  predicate SegmentMatches(seg: Segment, p: string) {
    match seg
    case Lit(t) => p == t
    case Param => p != ""
  }

  predicate Handles(r: Route, verb: Verb, path: seq<string>) {
    r.verb == verb && Matches(r.pattern, path)
  }

  /** `routes[i]` handles the request and none before it does. */
  predicate FirstHandler(routes: seq<Route>, verb: Verb, path: seq<string>, i: int) {
    0 <= i < |routes| && Handles(routes[i], verb, path) &&
    forall j :: 0 <= j < i ==> !Handles(routes[j], verb, path)
  }

  /** The registration a request reaches: the first that handles it. */
  function Dispatch(routes: seq<Route>, verb: Verb, path: seq<string>): (r: Option<Route>)
    ensures r.Some? <==> exists i :: 0 <= i < |routes| && Handles(routes[i], verb, path)
    ensures r.Some? ==> exists i :: FirstHandler(routes, verb, path, i) && routes[i] == r.value
  {
    if routes == [] then None
    else if Handles(routes[0], verb, path) then Some(routes[0])
    else
      var rest := Dispatch(routes[1..], verb, path);
      if rest.Some? then
        assert exists i :: FirstHandler(routes, verb, path, i) && routes[i] == rest.value by {
          var i :| FirstHandler(routes[1..], verb, path, i) && routes[1..][i] == rest.value;
          assert routes[i + 1] == rest.value;
          forall j | 0 <= j < i + 1
            ensures !Handles(routes[j], verb, path)
          {
            if j > 0 {
              assert routes[j] == routes[1..][j - 1];
            }
          }
          assert FirstHandler(routes, verb, path, i + 1);
        }
        rest
      else
        assert forall i :: 0 <= i < |routes| ==> !Handles(routes[i], verb, path) by {
          forall i | 0 <= i < |routes|
            ensures !Handles(routes[i], verb, path)
          {
            if i > 0 {
              assert routes[i] == routes[1..][i - 1];
            }
          }
        }
        rest
  }

  /** Which endpoints need which guard: reading rooms is open to all,
      managing rooms and users, listing all bookings and changing a
      booking's status or payment is for admins, and everything else needs a
      signed-in caller. */
  function Policy(e: Endpoint): Guard {
    match e
    case GetRooms | GetRoomById => Public
    case GetAllBookings | UpdateBookingStatus | UpdatePayment
       | CreateRoom | UpdateRoom | DeleteRoom
       | GetUsers | DeleteUser => AdminOnly
    case _ => Protected
  }

  /** The router an endpoint is registered on. */
  function Home(e: Endpoint): Router {
    match e
    case CreateBooking | GetUserBookings | GetAllBookings | GetBookingById
       | UpdateBookingStatus | CancelBooking | UpdatePayment => Bookings
    case GetRooms | CreateRoom | GetRoomById | UpdateRoom | DeleteRoom => Rooms
    case _ => Users
  }

  /** The guard registered for an endpoint on its router. */
  function GuardOf(e: Endpoint): (g: Guard)
    ensures g == Policy(e)
    ensures exists i :: 0 <= i < |Table(Home(e))| && Table(Home(e))[i].endpoint == e && Table(Home(e))[i].guard == g
  {
    var t := Table(Home(e));
    var i := IndexOf(t, e);
    t[i].guard
  }

  /** Where an endpoint sits in its router's table. */
  function IndexOf(t: seq<Route>, e: Endpoint): (i: int)
    requires t == Table(Home(e))
    ensures 0 <= i < |t| && t[i].endpoint == e
    ensures t[i].guard == Policy(e)
  {
    match e
    case CreateBooking => 0
    case GetUserBookings => 1
    case GetAllBookings => 2
    case GetBookingById => 3
    case UpdateBookingStatus => 4
    case CancelBooking => 5
    case UpdatePayment => 6
    case GetRooms => 0
    case CreateRoom => 1
    case GetRoomById => 2
    case UpdateRoom => 3
    case DeleteRoom => 4
    case GetProfile => 0
    case UpdateProfile => 1
    case GetUsers => 2
    case DeleteUser => 3
  }

  /** Every registration of a router carries the guard the policy asks for
      its endpoint, and only that router's endpoints are registered on it. */
  lemma TableFollowsPolicy(router: Router)
    ensures forall i :: 0 <= i < |Table(router)| ==>
      Table(router)[i].guard == Policy(Table(router)[i].endpoint) && Home(Table(router)[i].endpoint) == router
  {
    var t := Table(router);
    forall i | 0 <= i < |t|
      ensures t[i].guard == Policy(t[i].endpoint) && Home(t[i].endpoint) == router
    {
      match router
      case Bookings =>
        assert i in {0, 1, 2, 3, 4, 5, 6};
      case Rooms =>
        assert i in {0, 1, 2, 3, 4};
      case Users =>
        assert i in {0, 1, 2, 3};
    }
  }

  /** Whichever request reaches a registration, the guard that runs is the
      one the policy asks for. */
  lemma DispatchFollowsPolicy(router: Router, verb: Verb, path: seq<string>)
    ensures var r := Dispatch(Table(router), verb, path);
      r.Some? ==> r.value.guard == Policy(r.value.endpoint) && Home(r.value.endpoint) == router
  {
    TableFollowsPolicy(router);
  }

  /** The registration reached is the first one that handles the request. */
  lemma DispatchFirst(routes: seq<Route>, verb: Verb, path: seq<string>, k: int)
    requires 0 <= k < |routes| && Handles(routes[k], verb, path)
    requires forall j :: 0 <= j < k ==> !Handles(routes[j], verb, path)
    ensures Dispatch(routes, verb, path) == Some(routes[k])
  {
    var r := Dispatch(routes, verb, path);
    var i :| FirstHandler(routes, verb, path, i) && routes[i] == r.value;
  }

  /** `/user` and `/admin` are registered before `/:id`, so a GET of either
      reaches the listing, never the single-booking read. */
  lemma ListingsBeforeId()
    ensures Dispatch(BookingRoutes, Get, ["user"]) == Some(BookingRoutes[1])
    ensures Dispatch(BookingRoutes, Get, ["admin"]) == Some(BookingRoutes[2])
    ensures BookingRoutes[1].endpoint == GetUserBookings && BookingRoutes[2].endpoint == GetAllBookings
  {
    UserListing();
    AdminListing();
  }

  lemma UserListing()
    ensures Dispatch(BookingRoutes, Get, ["user"]) == Some(BookingRoutes[1])
  {
    assert SegmentMatches(BookingRoutes[1].pattern[0], ["user"][0]);
    DispatchFirst(BookingRoutes, Get, ["user"], 1);
  }

  lemma AdminListing()
    ensures Dispatch(BookingRoutes, Get, ["admin"]) == Some(BookingRoutes[2])
  {
    assert SegmentMatches(BookingRoutes[2].pattern[0], ["admin"][0]);
    assert !SegmentMatches(BookingRoutes[1].pattern[0], ["admin"][0]);
    DispatchFirst(BookingRoutes, Get, ["admin"], 2);
  }

  /** Any other one-segment GET is a single-booking read. */
  lemma OtherSegmentIsBookingId(id: string)
    requires id != "" && id != "user" && id != "admin"
    ensures Dispatch(BookingRoutes, Get, [id]) == Some(BookingRoutes[3])
    ensures BookingRoutes[3].endpoint == GetBookingById && BookingRoutes[3].guard == Protected
  {
    assert !SegmentMatches(BookingRoutes[1].pattern[0], [id][0]);
    assert !SegmentMatches(BookingRoutes[2].pattern[0], [id][0]);
    assert SegmentMatches(BookingRoutes[3].pattern[0], [id][0]);
    DispatchFirst(BookingRoutes, Get, [id], 3);
  }

  /** Every `PUT /:id/payment` reaches the payment update behind the admin guard. */
  lemma PaymentRouteIsAdminOnly(id: string)
    requires id != ""
    ensures var r := Dispatch(BookingRoutes, Put, [id, "payment"]);
      r.Some? && r.value.endpoint == UpdatePayment && r.value.guard == AdminOnly
  {
    var path := [id, "payment"];
    assert SegmentMatches(BookingRoutes[6].pattern[0], path[0]);
    assert SegmentMatches(BookingRoutes[6].pattern[1], path[1]);
    DispatchFirst(BookingRoutes, Put, path, 6);
  }
}
