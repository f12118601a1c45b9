/** A request end to end: the guard chain its route registers, then its
    handler.  This is where the access rules of the whole service can be
    stated: who may change what. */
module App {
  import opened Js
  import opened Store
  import Routes
  import AuthMiddleware
  import BookingController
  import RoomController
  import UserController

  /** A call to one endpoint, with the parameters and body its handler reads. */
  datatype Op =
    | CreateBooking(req: BookingController.BookingRequest)
    | GetUserBookings
    | GetAllBookings
    | GetBookingById(id: int)
    | UpdateBookingStatus(id: int, status: Option<string>, paymentStatus: Option<string>)
    | CancelBooking(id: int)
    | UpdatePayment(id: int, paymentStatus: Option<string>)
    | GetRooms
    | CreateRoom(room: RoomController.RoomFields)
    | GetRoomById(id: int)
    | UpdateRoom(id: int, room: RoomController.RoomFields)
    | DeleteRoom(id: int)
    | GetProfile
    | UpdateProfile(profile: UserController.ProfileFields)
    | GetUsers
    | DeleteUser(id: int)

  function EndpointOf(op: Op): Routes.Endpoint {
    match op
    case CreateBooking(_) => Routes.CreateBooking
    case GetUserBookings => Routes.GetUserBookings
    case GetAllBookings => Routes.GetAllBookings
    case GetBookingById(_) => Routes.GetBookingById
    case UpdateBookingStatus(_, _, _) => Routes.UpdateBookingStatus
    case CancelBooking(_) => Routes.CancelBooking
    case UpdatePayment(_, _) => Routes.UpdatePayment
    case GetRooms => Routes.GetRooms
    case CreateRoom(_) => Routes.CreateRoom
    case GetRoomById(_) => Routes.GetRoomById
    case UpdateRoom(_, _) => Routes.UpdateRoom
    case DeleteRoom(_) => Routes.DeleteRoom
    case GetProfile => Routes.GetProfile
    case UpdateProfile(_) => Routes.UpdateProfile
    case GetUsers => Routes.GetUsers
    case DeleteUser(_) => Routes.DeleteUser
  }

  /** The status code a call answers with and the store it leaves. */
  datatype Outcome = Outcome(code: int, next: Store)

  function Of<T>(h: Handled<T>): Outcome {
    Outcome(h.reply.code, h.next)
  }

  /** The principal `protect` would attach for this header, if any. */
  function Caller(s: Store, env: Env, header: Option<string>): Option<Profile> {
    match AuthMiddleware.Protect(s, env, header)
    case Pass(p) => Some(p)
    case Deny(_, _) => None
  }

  /** The header resolves to a user with the admin role. */
  predicate AdminCaller(s: Store, env: Env, header: Option<string>) {
    Caller(s, env, header).Some? && IsAdmin(Caller(s, env, header).value)
  }

  /** The handler of a guarded call, run for the principal the guard attached.
      The read endpoints leave the store as it is, and the list and profile
      reads always answer 200. */
  function Handle(s: Store, env: Env, me: Profile, op: Op, now: int): (o: Outcome)
    ensures (|| op.GetUserBookings? || op.GetAllBookings? || op.GetBookingById? || op.GetRooms?
             || op.GetRoomById? || op.GetProfile? || op.GetUsers?) ==> o.next == s
    ensures op.GetUserBookings? || op.GetAllBookings? || op.GetRooms? || op.GetProfile? || op.GetUsers? ==>
      o.code == 200
  {
    match op
    case CreateBooking(req) => Of(BookingController.CreateBooking(s, me, req, now))
    case GetUserBookings => Outcome(200, s)
    case GetAllBookings => Outcome(200, s)
    case GetBookingById(id) => Of(BookingController.GetBookingById(s, me, id))
    case UpdateBookingStatus(id, st, ps) => Of(BookingController.UpdateBookingStatus(s, id, st, ps))
    case CancelBooking(id) => Of(BookingController.CancelBooking(s, me, id))
    case UpdatePayment(id, ps) => Of(BookingController.UpdatePayment(s, id, ps))
    case GetRooms => Outcome(200, s)
    case CreateRoom(f) => Of(RoomController.CreateRoom(s, f, now))
    case GetRoomById(id) => Of(RoomController.GetRoomById(s, id))
    case UpdateRoom(id, f) => Of(RoomController.UpdateRoom(s, id, f))
    case DeleteRoom(id) => Of(RoomController.DeleteRoom(s, id))
    case GetProfile => Outcome(200, s)
    case UpdateProfile(f) => Of(UserController.UpdateProfile(s, env, me, f))
    case GetUsers => Outcome(200, s)
    case DeleteUser(id) => Of(UserController.DeleteUser(s, id))
  }

  /** A call as the service runs it: a public route goes straight to its
      handler; otherwise `protect` must pass, and on an admin route `admin`
      too, before the handler runs with the attached principal. */
  function Serve(s: Store, env: Env, header: Option<string>, op: Op, now: int): (o: Outcome)
    ensures Routes.Policy(EndpointOf(op)) != Routes.Public && Caller(s, env, header).None? ==> o == Outcome(401, s)
    ensures Routes.Policy(EndpointOf(op)) == Routes.AdminOnly && !AdminCaller(s, env, header) ==> o.next == s
    ensures Routes.Policy(EndpointOf(op)) == Routes.AdminOnly && Caller(s, env, header).Some? && !AdminCaller(s, env, header) ==>
      o == Outcome(403, s)
    ensures (Routes.Policy(EndpointOf(op)) != Routes.Public && Caller(s, env, header).Some? &&
             (Routes.Policy(EndpointOf(op)) == Routes.Protected || AdminCaller(s, env, header))) ==>
      o == Handle(s, env, Caller(s, env, header).value, op, now)
    ensures o.next == s || (Caller(s, env, header).Some? && o.next == Handle(s, env, Caller(s, env, header).value, op, now).next)
    ensures op.GetRooms? ==> o == Outcome(200, s)
    ensures op.GetRoomById? ==> o == Of(RoomController.GetRoomById(s, op.id))
  {
    var g := Routes.GuardOf(EndpointOf(op));
    if g == Routes.Public then
      match op
      case GetRoomById(id) => Of(RoomController.GetRoomById(s, id))
      case _ => Outcome(200, s)  // `GetRooms`, the other public endpoint
    else
      match AuthMiddleware.Protect(s, env, header)
      case Deny(code, _) => Outcome(code, s)
      case Pass(p) =>
        if g == Routes.AdminOnly && AuthMiddleware.AdminGuard(Some(p)).Deny? then Outcome(403, s)
        else Handle(s, env, p, op, now)
  }

  // ---------------------------------------------------------------------
  // Access rules
  // ---------------------------------------------------------------------

  /** The open endpoints answer alike whatever header is sent, and as their
      handler answers any signed-in caller. */
  lemma PublicIgnoresHeader(s: Store, env: Env, h1: Option<string>, h2: Option<string>, op: Op, now: int, p: Profile)
    requires Routes.Policy(EndpointOf(op)) == Routes.Public
    ensures Serve(s, env, h1, op, now) == Serve(s, env, h2, op, now)
    ensures Serve(s, env, h1, op, now).next == s
    ensures Serve(s, env, h1, op, now) == Handle(s, env, p, op, now)
  {
  }

  /** Nobody but an admin changes a room. */
  lemma RoomsNeedAdmin(s: Store, env: Env, header: Option<string>, op: Op, now: int)
    ensures Serve(s, env, header, op, now).next.rooms != s.rooms ==> AdminCaller(s, env, header)
  {
  }

  /** What a caller who is not an admin can do to the bookings already
      stored: cancel their own, and nothing else. */
  lemma BookingWritesOfNonAdmin(s: Store, env: Env, header: Option<string>, op: Op, now: int)
    requires WellKeyed(s)
    requires !AdminCaller(s, env, header)
    ensures var o := Serve(s, env, header, op, now);
      forall k :: k in s.bookings ==>
        && k in o.next.bookings
        && (o.next.bookings[k] == s.bookings[k]
            || (Caller(s, env, header).Some?
                && s.bookings[k].userId == Caller(s, env, header).value.id
                && o.next.bookings[k] == s.bookings[k].(status := Cancelled)))
  {
    var o := Serve(s, env, header, op, now);
    var g := Routes.Policy(EndpointOf(op));
    if g == Routes.Protected && Caller(s, env, header).Some? {
      var me := Caller(s, env, header).value;
      match op
      case CreateBooking(req) =>
        var h := BookingController.CreateBooking(s, me, req, now);
        if h.reply.Ok? {
          assert s.nextBookingId !in s.bookings;
          forall k | k in s.bookings
            ensures k in o.next.bookings && o.next.bookings[k] == s.bookings[k]
          {
            assert k != s.nextBookingId;
          }
        }
      case CancelBooking(id) =>
      case _ =>
    }
  }

  /** A payment status changes only at an admin's call. */
  lemma PaymentNeedsAdmin(s: Store, env: Env, header: Option<string>, op: Op, now: int)
    requires WellKeyed(s)
    ensures var o := Serve(s, env, header, op, now);
      forall k :: (k in s.bookings && k in o.next.bookings &&
                   o.next.bookings[k].paymentStatus != s.bookings[k].paymentStatus) ==> AdminCaller(s, env, header)
  {
    if !AdminCaller(s, env, header) {
      BookingWritesOfNonAdmin(s, env, header, op, now);
    }
  }

  /** A caller who is not an admin changes only their own user row. */
  lemma UsersOfNonAdmin(s: Store, env: Env, header: Option<string>, op: Op, now: int)
    requires !AdminCaller(s, env, header)
    ensures var o := Serve(s, env, header, op, now);
      && o.next.users.Keys == s.users.Keys
      && forall k :: k in s.users && (Caller(s, env, header).None? || k != Caller(s, env, header).value.id) ==>
           o.next.users[k] == s.users[k]
  {
  }

  /** No call changes anyone's role. */
  lemma RolesNeverChange(s: Store, env: Env, header: Option<string>, op: Op, now: int)
    ensures var o := Serve(s, env, header, op, now);
      forall k :: k in s.users && k in o.next.users ==> o.next.users[k].role == s.users[k].role
  {
    if Caller(s, env, header).Some? {
      HandleKeepsRoles(s, env, Caller(s, env, header).value, op, now);
    }
  }

  lemma HandleKeepsRoles(s: Store, env: Env, me: Profile, op: Op, now: int)
    ensures var t := Handle(s, env, me, op, now).next;
      forall k :: k in s.users && k in t.users ==> t.users[k].role == s.users[k].role
  {
    match op
    case UpdateProfile(f) =>
      UserController.UpdateProfileIsSelfOnly(s, env, me, f);
    case _ =>
  }

  /** Every handler keeps the store well keyed. */
  lemma HandleKeepsWellKeyed(s: Store, env: Env, me: Profile, op: Op, now: int)
    requires WellKeyed(s)
    ensures WellKeyed(Handle(s, env, me, op, now).next)
  {
    if op.CreateBooking? || op.UpdateBookingStatus? || op.CancelBooking? || op.UpdatePayment? {
      BookingWritesKeepWellKeyed(s, env, me, op, now);
    } else if op.CreateRoom? || op.UpdateRoom? || op.DeleteRoom? {
      RoomWritesKeepWellKeyed(s, env, me, op, now);
    } else if op.UpdateProfile? || op.DeleteUser? {
      UserWritesKeepWellKeyed(s, env, me, op, now);
    } else {
      assert Handle(s, env, me, op, now).next == s;
    }
  }

  lemma BookingWritesKeepWellKeyed(s: Store, env: Env, me: Profile, op: Op, now: int)
    requires WellKeyed(s)
    requires op.CreateBooking? || op.UpdateBookingStatus? || op.CancelBooking? || op.UpdatePayment?
    ensures WellKeyed(Handle(s, env, me, op, now).next)
  {
    if op.CreateBooking? {
      BookingController.CreateBookingKeepsInvariants(s, me, op.req, now);
    } else if op.UpdateBookingStatus? {
      StatusUpdateKeepsWellKeyed(s, op.id, op.status, op.paymentStatus);
    } else if op.CancelBooking? {
      CancelKeepsWellKeyed(s, me, op.id);
    } else {
      PaymentUpdateKeepsWellKeyed(s, op.id, op.paymentStatus);
    }
  }

  lemma RoomWritesKeepWellKeyed(s: Store, env: Env, me: Profile, op: Op, now: int)
    requires WellKeyed(s)
    requires op.CreateRoom? || op.UpdateRoom? || op.DeleteRoom?
    ensures WellKeyed(Handle(s, env, me, op, now).next)
  {
    match op
    case CreateRoom(f) => RoomController.CreateRoomKeepsWellKeyed(s, f, now);
    case UpdateRoom(id, f) => RoomUpdateKeepsWellKeyed(s, id, f);
    case DeleteRoom(id) => RoomDeleteKeepsWellKeyed(s, id);
  }

  lemma UserWritesKeepWellKeyed(s: Store, env: Env, me: Profile, op: Op, now: int)
    requires WellKeyed(s)
    requires op.UpdateProfile? || op.DeleteUser?
    ensures WellKeyed(Handle(s, env, me, op, now).next)
  {
    if op.UpdateProfile? {
      ProfileUpdateKeepsWellKeyed(s, env, me, op.profile);
    } else {
      UserDeleteKeepsWellKeyed(s, op.id);
    }
  }

  /** The reads change nothing. */
  lemma RoomUpdateKeepsWellKeyed(s: Store, id: int, f: RoomController.RoomFields)
    requires WellKeyed(s)
    ensures WellKeyed(RoomController.UpdateRoom(s, id, f).next)
  {
    RoomRewriteKeepsWellKeyed(s, id, RoomController.UpdateRoom(s, id, f).next);
  }

  lemma RoomDeleteKeepsWellKeyed(s: Store, id: int)
    requires WellKeyed(s)
    ensures WellKeyed(RoomController.DeleteRoom(s, id).next)
  {
    RoomRewriteKeepsWellKeyed(s, id, RoomController.DeleteRoom(s, id).next);
  }

  lemma ProfileUpdateKeepsWellKeyed(s: Store, env: Env, me: Profile, f: UserController.ProfileFields)
    requires WellKeyed(s)
    ensures WellKeyed(UserController.UpdateProfile(s, env, me, f).next)
  {
    UserRewriteKeepsWellKeyed(s, me.id, UserController.UpdateProfile(s, env, me, f).next);
  }

  lemma UserDeleteKeepsWellKeyed(s: Store, id: int)
    requires WellKeyed(s)
    ensures WellKeyed(UserController.DeleteUser(s, id).next)
  {
    UserRewriteKeepsWellKeyed(s, id, UserController.DeleteUser(s, id).next);
  }

  lemma StatusUpdateKeepsWellKeyed(s: Store, id: int, st: Option<string>, ps: Option<string>)
    requires WellKeyed(s)
    ensures WellKeyed(BookingController.UpdateBookingStatus(s, id, st, ps).next)
  {
    BookingRewriteKeepsWellKeyed(s, id, BookingController.UpdateBookingStatus(s, id, st, ps).next);
  }

  lemma CancelKeepsWellKeyed(s: Store, me: Profile, id: int)
    requires WellKeyed(s)
    ensures WellKeyed(BookingController.CancelBooking(s, me, id).next)
  {
    BookingRewriteKeepsWellKeyed(s, id, BookingController.CancelBooking(s, me, id).next);
  }

  lemma PaymentUpdateKeepsWellKeyed(s: Store, id: int, ps: Option<string>)
    requires WellKeyed(s)
    ensures WellKeyed(BookingController.UpdatePayment(s, id, ps).next)
  {
    BookingRewriteKeepsWellKeyed(s, id, BookingController.UpdatePayment(s, id, ps).next);
  }

  /** A write that rewrites or removes one booking under its own key. */
  lemma BookingRewriteKeepsWellKeyed(s: Store, id: int, t: Store)
    requires WellKeyed(s)
    requires t == s || (id in s.bookings && id in t.bookings && t.bookings[id].id == id
                        && t == s.(bookings := s.bookings[id := t.bookings[id]]))
    ensures WellKeyed(t)
  {
  }

  /** A write that rewrites or removes one room under its own key. */
  lemma RoomRewriteKeepsWellKeyed(s: Store, id: int, t: Store)
    requires WellKeyed(s)
    requires t == s || t == s.(rooms := s.rooms - {id})
      || (id in s.rooms && id in t.rooms && t.rooms[id].id == id && t == s.(rooms := s.rooms[id := t.rooms[id]]))
    ensures WellKeyed(t)
  {
  }

  /** A write that rewrites or removes one user under their own key. */
  lemma UserRewriteKeepsWellKeyed(s: Store, id: int, t: Store)
    requires WellKeyed(s)
    requires t == s || t == s.(users := s.users - {id})
      || (id in s.users && id in t.users && t.users[id].id == id && t == s.(users := s.users[id := t.users[id]]))
    ensures WellKeyed(t)
  {
  }

  /** Every call keeps the store well keyed. */
  lemma ServeKeepsWellKeyed(s: Store, env: Env, header: Option<string>, op: Op, now: int)
    requires WellKeyed(s)
    ensures WellKeyed(Serve(s, env, header, op, now).next)
  {
    if Caller(s, env, header).Some? {
      HandleKeepsWellKeyed(s, env, Caller(s, env, header).value, op, now);
    }
  }

  /** Without an admin, every booking stays in the lifecycle's states. */
  lemma NonAdminKeepsLifecycle(s: Store, env: Env, header: Option<string>, op: Op, now: int)
    requires WellKeyed(s) && KnownStates(s)
    requires !AdminCaller(s, env, header)
    ensures KnownStates(Serve(s, env, header, op, now).next)
  {
    var o := Serve(s, env, header, op, now);
    BookingWritesOfNonAdmin(s, env, header, op, now);
    forall k | k in o.next.bookings
      ensures KnownStatus(o.next.bookings[k].status) && KnownPayment(o.next.bookings[k].paymentStatus)
    {
      if k !in s.bookings {
        assert o.next.bookings[k].status == Pending && o.next.bookings[k].paymentStatus == Pending;
      }
    }
  }
}
