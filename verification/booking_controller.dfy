/** The booking engine of controllers/bookingController.js.

    A booking lives on two axes, `status` and `payment_status`.  Guests create
    bookings and cancel their own; admins move either axis freely through the
    status update, and the payment update sets the payment axis and confirms a
    pending booking once it is paid.  Every handler answers 404 for an unknown
    booking id and never touches the store on an error. */
module BookingController {
  import opened Js
  import opened JsonList
  import opened Store
  import Listing
  import RoomController

  /** `1000 * 60 * 60 * 24`. */
  const DayMs: int := 86400000

  const RoomNotFound: string := "Room not found"
  const RoomUnavailable: string := "Room is not available"
  const BookingNotFound: string := "Booking not found"
  const InvalidPayment: string := "Invalid payment status"
  const BookingCancelled: string := "Booking cancelled successfully"

  // ---------------------------------------------------------------------
  // Stay length and price
  // ---------------------------------------------------------------------

  /** `Math.ceil((checkOut - checkIn) / DayMs)`: the number of started days
      between the two instants.  Nothing checks that check-out comes after
      check-in, so the count may be zero or negative. */
  function Nights(checkIn: int, checkOut: int): (n: int)
    ensures (n - 1) * DayMs < checkOut - checkIn <= n * DayMs
    ensures checkOut > checkIn ==> n >= 1
    ensures checkOut <= checkIn ==> n <= 0
  {
    -((checkIn - checkOut) / DayMs)
  }

  /** A stay of exactly `k` whole days is `k` nights, and one more
      millisecond starts another night. */
  lemma NightsOfWholeDays(checkIn: int, k: int)
    ensures Nights(checkIn, checkIn + k * DayMs) == k
    ensures Nights(checkIn, checkIn + k * DayMs + 1) == k + 1
  {
    var n := Nights(checkIn, checkIn + k * DayMs);
    assert (n - 1) * DayMs < k * DayMs <= n * DayMs;
    var m := Nights(checkIn, checkIn + k * DayMs + 1);
    assert (m - 1) * DayMs < k * DayMs + 1 <= m * DayMs;
  }

  /** `room.price` in the product `nights * price`, where a NULL price
      counts as 0. */
  function PriceOf(r: Room): int {
    DefinedOr(r.price, 0)
  }

  // ---------------------------------------------------------------------
  // createBooking
  // ---------------------------------------------------------------------

  /** The body of a create request.  `userId` stands for any owner field a
      client might send; the handler never reads it. */
  datatype BookingRequest = BookingRequest(
    roomId: Option<int>,
    checkIn: int,
    checkOut: int,
    guests: Option<int>,
    specialRequests: Option<string>,
    userId: Option<int>)

  /** `createBooking`: the room must exist and be available; the booking
      belongs to the caller, starts Pending on both axes (the column
      defaults) and costs whole nights at the room's price. */
  function CreateBooking(s: Store, me: Profile, req: BookingRequest, now: int): (h: Handled<Booking>)
    ensures req.roomId.None? || req.roomId.value !in s.rooms ==> h == Handled(Err(404, RoomNotFound), s)
    ensures req.roomId.Some? && req.roomId.value in s.rooms && !s.rooms[req.roomId.value].available ==>
      h == Handled(Err(400, RoomUnavailable), s)
    ensures h.reply.Ok? <==>
      req.roomId.Some? && req.roomId.value in s.rooms && s.rooms[req.roomId.value].available
    ensures h.reply.Ok? ==>
      var b := h.reply.body;
      && h.reply.code == 201
      && h.next == s.(bookings := s.bookings[b.id := b], nextBookingId := s.nextBookingId + 1)
      && b.id == s.nextBookingId
      && b.userId == me.id
      && b.roomId == req.roomId.value
      && b.checkIn == req.checkIn && b.checkOut == req.checkOut
      && b.guests == req.guests
      && (b.nights - 1) * DayMs < b.checkOut - b.checkIn <= b.nights * DayMs
      && b.totalPrice == b.nights * PriceOf(s.rooms[b.roomId])
      && b.status == Pending && b.paymentStatus == Pending
      && (Truthy(req.specialRequests) ==> b.specialRequests == req.specialRequests)
      && (!Truthy(req.specialRequests) ==> b.specialRequests.None?)
      && b.createdAt == now
  {
    if req.roomId.None? || req.roomId.value !in s.rooms then Handled(Err(404, RoomNotFound), s)
    else
      var room := s.rooms[req.roomId.value];
      if !room.available then Handled(Err(400, RoomUnavailable), s)
      else
        var nights := Nights(req.checkIn, req.checkOut);
        var b := Booking(
          s.nextBookingId, me.id, req.roomId.value, req.checkIn, req.checkOut, req.guests,
          nights, nights * PriceOf(room), Pending, Pending, StrOrNull(req.specialRequests), now);
        Handled(Ok(201, b), s.(bookings := s.bookings[b.id := b], nextBookingId := s.nextBookingId + 1))
  }

  /** Creating a booking keeps the store well keyed and every booking in a
      lifecycle state. */
  lemma CreateBookingKeepsInvariants(s: Store, me: Profile, req: BookingRequest, now: int)
    requires WellKeyed(s)
    ensures WellKeyed(CreateBooking(s, me, req, now).next)
    ensures KnownStates(s) ==> KnownStates(CreateBooking(s, me, req, now).next)
  {
    var h := CreateBooking(s, me, req, now);
    if h.reply.Ok? {
      var b := h.reply.body;
      assert h.next.bookings == s.bookings[b.id := b] && h.next.nextBookingId == s.nextBookingId + 1;
      forall k | k in h.next.bookings
        ensures h.next.bookings[k].id == k && 1 <= k < h.next.nextBookingId
        ensures KnownStates(s) ==> KnownStatus(h.next.bookings[k].status) && KnownPayment(h.next.bookings[k].paymentStatus)
      {
        if k != b.id {
          assert k in s.bookings && h.next.bookings[k] == s.bookings[k];
        }
      }
    }
  }

  /** Nothing orders the dates: a stay that ends before it starts is booked
      for a non-positive number of nights at a non-positive total. */
  lemma ReversedStayAccepted(s: Store, me: Profile, req: BookingRequest, now: int)
    requires req.roomId.Some? && req.roomId.value in s.rooms && s.rooms[req.roomId.value].available
    requires req.checkOut <= req.checkIn
    requires PriceOf(s.rooms[req.roomId.value]) >= 0
    ensures var h := CreateBooking(s, me, req, now);
      h.reply.Ok? && h.reply.body.nights <= 0 && h.reply.body.totalPrice <= 0
  {
    var h := CreateBooking(s, me, req, now);
    var n := h.reply.body.nights;
    var p := PriceOf(s.rooms[req.roomId.value]);
    assert n <= 0;
    assert n * p <= 0 by {
      assert (-n) * p >= 0;
    }
  }

  // ---------------------------------------------------------------------
  // The room images a booking read carries
  // ---------------------------------------------------------------------

  /** `r.images` of `LEFT JOIN rooms r`: NULL when the room row is gone. */
  function RoomImages(s: Store, roomId: int): Cell {
    if roomId in s.rooms then s.rooms[roomId].images else Null
  }

  /** The images of `getUserBookings`: a truthy column is parsed, and a
      column that does not parse becomes the empty list. */
  function ListImages(c: Cell): (r: Json)
    ensures !CellTruthy(c) ==> r == JArray([])
    ensures CellTruthy(c) && Parse(CellText(c)).Some? ==> Some(r) == Parse(CellText(c))
    ensures CellTruthy(c) && Parse(CellText(c)).None? ==> r == JArray([])
  {
    if !CellTruthy(c) then JArray([])
    else
      match Parse(CellText(c))
      case Some(v) => v
      case None => JArray([])
  }

  /** The images of `getBookingById`: as for a list, except that a text
      column that does not parse becomes a one-element list holding the text. */
  function BookingImages(c: Cell): (r: Json)
    ensures !CellTruthy(c) ==> r == JArray([])
    ensures CellTruthy(c) && Parse(CellText(c)).Some? ==> r == ListImages(c)
    ensures c.Text? && CellTruthy(c) && Parse(c.text).None? ==> r == JArray([c.text])
    ensures c.Decoded? ==> r == ListImages(c)
  {
    if !CellTruthy(c) then JArray([])
    else
      match Parse(CellText(c))
      case Some(v) => v
      case None => if c.Text? then JArray([c.text]) else JArray([])
  }

  /** Images the room handlers stored read back as the stored list on both
      read paths. */
  lemma StoredImagesReadBack(xs: seq<string>)
    ensures ListImages(Text(Stringify(xs))) == JArray(xs)
    ensures BookingImages(Text(Stringify(xs))) == JArray(xs)
  {
    ParseStringify(xs);
    assert Stringify(xs)[0] == '[';
  }

  /** The images a room handler writes are what both booking reads show for
      that room. */
  lemma RoomImagesOnBookings(s: Store, id: int, f: RoomController.RoomFields, now: int)
    ensures var c := RoomImages(RoomController.CreateRoom(s, f, now).next, s.nextRoomId);
      var xs := DefinedOr(f.images, RoomController.DefaultImages);
      ListImages(c) == JArray(xs) && BookingImages(c) == JArray(xs)
    ensures var h := RoomController.UpdateRoom(s, id, f);
      h.reply.Ok? && f.images.Some? ==>
        && ListImages(RoomImages(h.next, id)) == JArray(f.images.value)
        && BookingImages(RoomImages(h.next, id)) == JArray(f.images.value)
  {
    RoomController.RoomListsStoredAsText(s, id, f, now);
    StoredImagesReadBack(DefinedOr(f.images, RoomController.DefaultImages));
    if f.images.Some? {
      StoredImagesReadBack(f.images.value);
    }
  }

  /** A bare URL in the column (not JSON) is kept as the single image by
      `getBookingById` and dropped by `getUserBookings`. */
  lemma BareUrlImages(url: string)
    requires url != [] && !IsWs(url[0]) && url[0] != '"' && url[0] != '['
    ensures BookingImages(Text(url)) == JArray([url])
    ensures ListImages(Text(url)) == JArray([])
  {
    assert SkipWs(url) == url;
    assert Parse(url) == None;
  }

  // ---------------------------------------------------------------------
  // Reads
  // ---------------------------------------------------------------------

  /** A booking as the read handlers return it, with its room's images. */
  datatype BookingView = BookingView(booking: Booking, images: Json)

  /** Whether the caller may see a booking: it is theirs, or they are an admin. */
  predicate CanView(me: Profile, b: Booking) {
    b.userId == me.id || IsAdmin(me)
  }

  /** `getBookingById`: 404 for an unknown id, 403 for a booking neither
      the caller's nor readable by an admin caller. */
  function GetBookingById(s: Store, me: Profile, id: int): (h: Handled<BookingView>)
    ensures h.next == s
    ensures id !in s.bookings ==> h.reply == Err(404, BookingNotFound)
    ensures id in s.bookings && s.bookings[id].userId != me.id && me.role != AdminRole ==>
      h.reply == Err(403, NotAuthorized)
    ensures h.reply.Ok? <==> id in s.bookings && CanView(me, s.bookings[id])
    ensures h.reply.Ok? ==>
      && h.reply.code == 200
      && h.reply.body.booking == s.bookings[id]
      && h.reply.body.images == BookingImages(RoomImages(s, s.bookings[id].roomId))
  {
    if id !in s.bookings then Handled(Err(404, BookingNotFound), s)
    else
      var b := s.bookings[id];
      if !CanView(me, b) then Handled(Err(403, NotAuthorized), s)
      else Handled(Ok(200, BookingView(b, BookingImages(RoomImages(s, b.roomId)))), s)
  }

  /** The caller can read back the booking they have just created. */
  lemma CreatedBookingReadable(s: Store, me: Profile, req: BookingRequest, now: int)
    ensures var h := CreateBooking(s, me, req, now);
      h.reply.Ok? ==>
        (GetBookingById(h.next, me, h.reply.body.id).reply.Ok?
         && GetBookingById(h.next, me, h.reply.body.id).reply.body.booking == h.reply.body)
  {
  }

  /** `ORDER BY b.created_at DESC`. */
  function BookingRank(b: Booking): Listing.Rank {
    Listing.Rank(b.createdAt, 0)
  }

  /** `getUserBookings`: the caller's bookings, newest first, each with its
      room's images read leniently (`LEFT JOIN rooms`, so a booking whose
      room is gone is still listed, with no images). */
  method GetUserBookings(s: Store, me: Profile) returns (out: seq<BookingView>)
    ensures forall i :: 0 <= i < |out| ==>
      out[i].booking in s.bookings.Values && out[i].booking.userId == me.id
      && out[i].images == ListImages(RoomImages(s, out[i].booking.roomId))
    ensures forall k :: k in s.bookings && s.bookings[k].userId == me.id ==>
      exists i :: 0 <= i < |out| && out[i].booking == s.bookings[k]
    ensures |out| == |set k | k in s.bookings && s.bookings[k].userId == me.id|
    ensures forall i, j :: 0 <= i < j < |out| ==> out[i].booking.createdAt >= out[j].booking.createdAt
  {
    var mine := set k | k in s.bookings && s.bookings[k].userId == me.id;
    var ids := Listing.Ordered(s.bookings, mine, BookingRank);
    out := seq(|ids|, i requires 0 <= i < |ids| =>
      var b := s.bookings[ids[i]]; BookingView(b, ListImages(RoomImages(s, b.roomId))));
    forall k | k in s.bookings && s.bookings[k].userId == me.id
      ensures exists i :: 0 <= i < |out| && out[i].booking == s.bookings[k]
    {
      assert k in mine;
      var i :| 0 <= i < |ids| && ids[i] == k;
      assert out[i].booking == s.bookings[k];
    }
    forall i, j | 0 <= i < j < |out|
      ensures out[i].booking.createdAt >= out[j].booking.createdAt
    {
      assert Listing.AtLeast(BookingRank(s.bookings[ids[i]]), BookingRank(s.bookings[ids[j]]));
    }
  }

  /** The rows of `JOIN users u ... JOIN rooms r`: a booking whose user or
      room row is gone drops out. */
  predicate Joined(s: Store, b: Booking) {
    b.userId in s.users && b.roomId in s.rooms
  }

  /** `getAllBookings`: every booking with both its user and its room, newest
      first. */
  method GetAllBookings(s: Store) returns (out: seq<Booking>)
    ensures forall i :: 0 <= i < |out| ==> out[i] in s.bookings.Values && Joined(s, out[i])
    ensures forall k :: k in s.bookings && Joined(s, s.bookings[k]) ==> s.bookings[k] in out
    ensures |out| == |set k | k in s.bookings && Joined(s, s.bookings[k])|
    ensures forall i, j :: 0 <= i < j < |out| ==> out[i].createdAt >= out[j].createdAt
  {
    var joined := set k | k in s.bookings && Joined(s, s.bookings[k]);
    var ids := Listing.Ordered(s.bookings, joined, BookingRank);
    out := seq(|ids|, i requires 0 <= i < |ids| => s.bookings[ids[i]]);
    forall k | k in s.bookings && Joined(s, s.bookings[k])
      ensures s.bookings[k] in out
    {
      assert k in joined;
      var i :| 0 <= i < |ids| && ids[i] == k;
      assert out[i] == s.bookings[k];
    }
    forall i, j | 0 <= i < j < |out|
      ensures out[i].createdAt >= out[j].createdAt
    {
      assert Listing.AtLeast(BookingRank(s.bookings[ids[i]]), BookingRank(s.bookings[ids[j]]));
    }
  }

  // ---------------------------------------------------------------------
  // Writes
  // ---------------------------------------------------------------------

  /** `updateBookingStatus` (admin): writes the truthy ones of the two
      fields, whatever text they hold, and nothing else. */
  function UpdateBookingStatus(s: Store, id: int, status: Option<string>, paymentStatus: Option<string>): (h: Handled<Booking>)
    ensures !Truthy(status) && !Truthy(paymentStatus) ==> h == Handled(Err(400, NoFieldsToUpdate), s)
    ensures (Truthy(status) || Truthy(paymentStatus)) && id !in s.bookings ==>
      h == Handled(Err(404, BookingNotFound), s)
    ensures h.reply.Ok? <==> (Truthy(status) || Truthy(paymentStatus)) && id in s.bookings
    ensures h.reply.Ok? ==>
      var before, after := s.bookings[id], h.reply.body;
      && h.reply.code == 200
      && h.next == s.(bookings := s.bookings[id := after])
      && after == before.(status := after.status, paymentStatus := after.paymentStatus)
      && (Truthy(status) ==> after.status == status.value)
      && (!Truthy(status) ==> after.status == before.status)
      && (Truthy(paymentStatus) ==> after.paymentStatus == paymentStatus.value)
      && (!Truthy(paymentStatus) ==> after.paymentStatus == before.paymentStatus)
  {
    if !Truthy(status) && !Truthy(paymentStatus) then Handled(Err(400, NoFieldsToUpdate), s)
    else if id !in s.bookings then Handled(Err(404, BookingNotFound), s)
    else
      var b := s.bookings[id];
      var b' := b.(status := StrOr(status, b.status), paymentStatus := StrOr(paymentStatus, b.paymentStatus));
      Handled(Ok(200, b'), s.(bookings := s.bookings[id := b']))
  }

  /** Repeating a status update changes nothing more. */
  lemma UpdateBookingStatusIdempotent(s: Store, id: int, status: Option<string>, paymentStatus: Option<string>)
    ensures var once := UpdateBookingStatus(s, id, status, paymentStatus);
      UpdateBookingStatus(once.next, id, status, paymentStatus).next == once.next
  {
    var once := UpdateBookingStatus(s, id, status, paymentStatus);
    if once.reply.Ok? {
      assert once.next.bookings[id := once.reply.body] == once.next.bookings;
    }
  }

  /** The status update validates nothing: an admin can move a booking out
      of the lifecycle's states. */
  lemma StatusUpdateLeavesLifecycle(s: Store, id: int)
    requires id in s.bookings
    ensures !KnownStates(UpdateBookingStatus(s, id, Some("Archived"), None).next)
  {
    var h := UpdateBookingStatus(s, id, Some("Archived"), None);
    assert h.next.bookings[id].status == "Archived";
  }

  /** `cancelBooking`: only the booking's owner may cancel it, admins
      included in the refusal, and it is cancelled whatever state it is in. */
  function CancelBooking(s: Store, me: Profile, id: int): (h: Handled<string>)
    ensures id !in s.bookings ==> h == Handled(Err(404, BookingNotFound), s)
    ensures id in s.bookings && s.bookings[id].userId != me.id ==> h == Handled(Err(403, NotAuthorized), s)
    ensures h.reply.Ok? <==> id in s.bookings && s.bookings[id].userId == me.id
    ensures h.reply.Ok? ==>
      && h.reply == Ok(200, BookingCancelled)
      && id in h.next.bookings
      && h.next == s.(bookings := s.bookings[id := h.next.bookings[id]])
      && h.next.bookings[id].status == Cancelled
      && h.next.bookings[id] == s.bookings[id].(status := h.next.bookings[id].status)
  {
    if id !in s.bookings then Handled(Err(404, BookingNotFound), s)
    else if s.bookings[id].userId != me.id then Handled(Err(403, NotAuthorized), s)
    else Handled(Ok(200, BookingCancelled), s.(bookings := s.bookings[id := s.bookings[id].(status := Cancelled)]))
  }

  /** Cancelling twice is cancelling once, and keeps the store's invariants. */
  lemma CancelBookingIdempotent(s: Store, me: Profile, id: int)
    requires WellKeyed(s) && KnownStates(s)
    ensures var once := CancelBooking(s, me, id);
      && CancelBooking(once.next, me, id).next == once.next
      && WellKeyed(once.next) && KnownStates(once.next)
  {
    var once := CancelBooking(s, me, id);
    if once.reply.Ok? {
      var b := once.next.bookings[id];
      assert once.next.bookings[id := b.(status := Cancelled)] == once.next.bookings;
      assert KnownStatus(b.status) && KnownPayment(b.paymentStatus);
    }
  }

  /** `updatePayment` (admin): the value must be one of the payment states,
      checked before the lookup; the payment axis takes it, and a Pending
      booking becomes Confirmed exactly when the new value is Paid. */
  function UpdatePayment(s: Store, id: int, paymentStatus: Option<string>): (h: Handled<string>)
    ensures paymentStatus.None? || !KnownPayment(paymentStatus.value) ==> h == Handled(Err(400, InvalidPayment), s)
    ensures paymentStatus.Some? && KnownPayment(paymentStatus.value) && id !in s.bookings ==>
      h == Handled(Err(404, BookingNotFound), s)
    ensures h.reply.Ok? <==> paymentStatus.Some? && KnownPayment(paymentStatus.value) && id in s.bookings
    ensures h.reply.Ok? ==>
      && h.reply == Ok(200, paymentStatus.value)
      && id in h.next.bookings
      && var before, after := s.bookings[id], h.next.bookings[id];
      && h.next == s.(bookings := s.bookings[id := after])
      && after == before.(paymentStatus := paymentStatus.value, status := after.status)
      && (after.status != before.status <==> paymentStatus.value == Paid && before.status == Pending)
      && (after.status != before.status ==> after.status == Confirmed)
  {
    if paymentStatus.None? || !KnownPayment(paymentStatus.value) then Handled(Err(400, InvalidPayment), s)
    else if id !in s.bookings then Handled(Err(404, BookingNotFound), s)
    else
      var ps := paymentStatus.value;
      var b := s.bookings[id].(paymentStatus := ps);
      var b' := if ps == Paid && b.status == Pending then b.(status := Confirmed) else b;
      Handled(Ok(200, ps), s.(bookings := s.bookings[id := b']))
  }

  /** The payment update keeps every booking in the lifecycle's states and
      is idempotent. */
  lemma UpdatePaymentKeepsLifecycle(s: Store, id: int, paymentStatus: Option<string>)
    requires KnownStates(s)
    ensures var once := UpdatePayment(s, id, paymentStatus);
      && KnownStates(once.next)
      && UpdatePayment(once.next, id, paymentStatus).next == once.next
  {
    var once := UpdatePayment(s, id, paymentStatus);
    if once.reply.Ok? {
      var after := once.next.bookings[id];
      assert KnownStatus(s.bookings[id].status);
      assert KnownStatus(after.status);
      assert once.next.bookings[id := after] == once.next.bookings;
    }
  }

  /** Paying a pending booking confirms it; refunding never touches the
      booking's status. */
  lemma PaymentDrivesStatus(s: Store, id: int)
    requires id in s.bookings
    ensures s.bookings[id].status == Pending ==>
      UpdatePayment(s, id, Some(Paid)).next.bookings[id].status == Confirmed
    ensures UpdatePayment(s, id, Some(Refunded)).next.bookings[id].status == s.bookings[id].status
  {
  }
}
