/** The relational store the handlers read and write, as three tables keyed by
    their AUTO_INCREMENT primary keys, and the shape of a handler's answer.

    Money is in integer cents, ratings in tenths of a star, timestamps in
    integer milliseconds.  Booking status, payment status and user role are
    the strings the service compares them with. */
module Store {
  import opened Js
  import opened JsonList

  // ---------------------------------------------------------------------
  // Column values
  // ---------------------------------------------------------------------

  const Pending: string := "Pending"
  const Confirmed: string := "Confirmed"
  const Cancelled: string := "Cancelled"
  const Completed: string := "Completed"
  const Paid: string := "Paid"
  const Refunded: string := "Refunded"
  const AdminRole: string := "admin"
  const UserRole: string := "user"

  /** The booking statuses of the lifecycle. */
  predicate KnownStatus(st: string) {
    st == Pending || st == Confirmed || st == Cancelled || st == Completed
  }

  /** The payment statuses of the lifecycle. */
  predicate KnownPayment(ps: string) {
    ps == Pending || ps == Paid || ps == Refunded
  }

  // ---------------------------------------------------------------------
  // Rows
  // ---------------------------------------------------------------------

  /** A `users` row; `password` holds the bcrypt hash. */
  datatype User = User(
    id: int,
    name: string,
    email: string,
    password: string,
    phone: Option<string>,
    role: string,
    avatar: Option<string>,
    isActive: bool,
    createdAt: int)

  /** A `rooms` row.  Name, type, price and capacity hold whatever the admin
      supplied, so they may be NULL. */
  datatype Room = Room(
    id: int,
    name: Option<string>,
    roomType: Option<string>,
    description: string,
    price: Option<int>,
    capacity: Option<int>,
    size: int,
    amenities: Cell,
    images: Cell,
    available: bool,
    rating: int,
    featured: bool,
    createdAt: int)

  /** A `bookings` row. */
  datatype Booking = Booking(
    id: int,
    userId: int,
    roomId: int,
    checkIn: int,
    checkOut: int,
    guests: Option<int>,
    nights: int,
    totalPrice: int,
    status: string,
    paymentStatus: string,
    specialRequests: Option<string>,
    createdAt: int)

  /** The user columns the auth guard and the profile endpoints select: the
      row without its password, `is_active` and `created_at`.  The guard
      attaches this to the request as the principal. */
  datatype Profile = Profile(
    id: int,
    name: string,
    email: string,
    phone: Option<string>,
    role: string,
    avatar: Option<string>)

  function ProfileOf(u: User): Profile {
    Profile(u.id, u.name, u.email, u.phone, u.role, u.avatar)
  }

  predicate IsAdmin(p: Profile) {
    p.role == AdminRole
  }

  // ---------------------------------------------------------------------
  // The store
  // ---------------------------------------------------------------------

  /** The three tables, with the next value of each AUTO_INCREMENT counter. */
  datatype Store = Store(
    users: map<int, User>,
    rooms: map<int, Room>,
    bookings: map<int, Booking>,
    nextUserId: int,
    nextRoomId: int,
    nextBookingId: int)

  /** Every row sits under its own primary key, and every key is below the
      table's AUTO_INCREMENT counter, which starts at 1, so a fresh id is
      never in use. */
  predicate WellKeyed(s: Store) {
    && 1 <= s.nextUserId && 1 <= s.nextRoomId && 1 <= s.nextBookingId
    && (forall k :: k in s.users ==> s.users[k].id == k && 1 <= k < s.nextUserId)
    && (forall k :: k in s.rooms ==> s.rooms[k].id == k && 1 <= k < s.nextRoomId)
    && (forall k :: k in s.bookings ==> s.bookings[k].id == k && 1 <= k < s.nextBookingId)
  }

  /** Every booking is in one of the lifecycle's states on both axes. */
  predicate KnownStates(s: Store) {
    forall k :: k in s.bookings ==>
      KnownStatus(s.bookings[k].status) && KnownPayment(s.bookings[k].paymentStatus)
  }

  // ---------------------------------------------------------------------
  // Answers
  // ---------------------------------------------------------------------

  /** An HTTP answer: a success code with a body, or an error code with the
      JSON `message`. */
  datatype Reply<+T> = Ok(code: int, body: T) | Err(code: int, message: string)

  /** A handler's answer together with the store it leaves behind. */
  datatype Handled<+T> = Handled(reply: Reply<T>, next: Store)

  /** bcrypt and jsonwebtoken, which the model treats as given functions:
      the salted hash of a password, the password check against a stored hash,
      signing a token for a user id, and verifying a token back to the id it
      was signed for (`None` where verification throws). */
  datatype Env = Env(
    hash: string -> string,
    matches: (string, string) -> bool,
    sign: int -> string,
    verify: string -> Option<int>)

  const NoFieldsToUpdate: string := "No fields to update"
  const NotAuthorized: string := "Not authorized"
}
