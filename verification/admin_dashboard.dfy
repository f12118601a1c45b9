/** The pure part of the admin page, src/pages/AdminDashboard.jsx: the status
    filter over the fetched bookings, the counters above it, and the payment
    approval it offers per row. */
module AdminDashboard {
  import opened Js
  import opened Store
  import BookingController

  /** The tests the page filters its bookings by. */
  datatype Test = StatusIs(status: string) | PaymentIs(payment: string) | Uncounted | Everything

  predicate Keeps(t: Test, b: Booking) {
    match t
    case StatusIs(st) => b.status == st
    case PaymentIs(ps) => b.paymentStatus == ps
    case Uncounted => b.status != Pending && b.status != Confirmed && b.status != Cancelled
    case Everything => true
  }

  /** `bookings.filter(...)`: the bookings passing `t`, in their order, each
      as often as it occurs in the input. */
  function Where(bs: seq<Booking>, t: Test): (r: seq<Booking>)
    ensures |r| <= |bs|
    ensures forall i :: 0 <= i < |r| ==> Keeps(t, r[i])
    ensures forall b :: b in r <==> b in bs && Keeps(t, b)
    ensures multiset(r) <= multiset(bs)
  {
    if bs == [] then []
    else
      var rest := Where(bs[1..], t);
      assert bs == [bs[0]] + bs[1..];
      if Keeps(t, bs[0]) then [bs[0]] + rest else rest
  }

  /** Filtering a concatenation filters each part, keeping their order. */
  lemma {:induction false} WhereConcat(a: seq<Booking>, c: seq<Booking>, t: Test)
    ensures Where(a + c, t) == Where(a, t) + Where(c, t)
    decreases |a|
  {
    if a != [] {
      var x, tail := a[0], a[1..];
      assert a == [x] + tail;
      assert a + c == [x] + (tail + c);
      WhereConcat(tail, c, t);
      WhereCons(x, tail + c, t);
      WhereCons(x, tail, t);
      if Keeps(t, x) {
        assert Where(a + c, t) == [x] + (Where(tail, t) + Where(c, t));
        assert Where(a, t) == [x] + Where(tail, t);
      } else {
        assert Where(a + c, t) == Where(tail, t) + Where(c, t);
      }
    } else {
      assert a + c == c;
    }
  }

  /** The filter keeps every passing booking as often as the input holds
      it, and no other. */
  lemma {:induction false} WhereCounts(bs: seq<Booking>, t: Test, b: Booking)
    ensures multiset(Where(bs, t))[b] == (if Keeps(t, b) then multiset(bs)[b] else 0)
    decreases |bs|
  {
    if bs != [] {
      WhereCounts(bs[1..], t, b);
      WhereCons(bs[0], bs[1..], t);
      assert bs == [bs[0]] + bs[1..];
    }
  }

  /** No booking passes exactly when the filter comes back empty. */
  lemma WhereEmpty(bs: seq<Booking>, t: Test)
    ensures |Where(bs, t)| == 0 <==> forall i :: 0 <= i < |bs| ==> !Keeps(t, bs[i])
  {
    if exists i :: 0 <= i < |bs| && Keeps(t, bs[i]) {
      var i :| 0 <= i < |bs| && Keeps(t, bs[i]);
      assert bs[i] in Where(bs, t);
    }
  }

  /** The positions of the list whose booking passes `t`. */
  function Positions(bs: seq<Booking>, t: Test): set<int> {
    set i | 0 <= i < |bs| && Keeps(t, bs[i])
  }

  /** Appending a booking adds its position iff it passes. */
  lemma PositionsSnoc(init: seq<Booking>, x: Booking, t: Test)
    ensures Positions(init + [x], t) == Positions(init, t) + (if Keeps(t, x) then {|init|} else {})
    ensures |init| !in Positions(init, t)
  {
    var bs := init + [x];
    forall i | 0 <= i < |init| ensures bs[i] == init[i] {}
    assert bs[|init|] == x;
  }

  /** The filter's size counts the positions whose booking passes. */
  lemma {:induction false} WhereSize(bs: seq<Booking>, t: Test)
    ensures |Where(bs, t)| == |Positions(bs, t)|
    decreases |bs|
  {
    if bs == [] {
      assert Positions(bs, t) == {};
    } else {
      var n := |bs| - 1;
      var init := bs[..n];
      WhereSize(init, t);
      assert bs == init + [bs[n]];
      WhereConcat(init, [bs[n]], t);
      WhereSingleton(bs[n], t);
      PositionsSnoc(init, bs[n], t);
      assert |Where(bs, t)| == |Where(init, t)| + (if Keeps(t, bs[n]) then 1 else 0);
    }
  }

  /** A single booking is kept exactly when it passes. */
  lemma WhereSingleton(x: Booking, t: Test)
    ensures Where([x], t) == (if Keeps(t, x) then [x] else [])
  {
    WhereCons(x, [], t);
    assert [x] + [] == [x];
  }

  /** One unfolding of the filter. */
  lemma WhereCons(x: Booking, rest: seq<Booking>, t: Test)
    ensures Where([x] + rest, t) == (if Keeps(t, x) then [x] + Where(rest, t) else Where(rest, t))
  {
    assert ([x] + rest)[1..] == rest;
  }

  /** A test every booking passes keeps the list as it is. */
  lemma {:induction false} WhereAll(bs: seq<Booking>, t: Test)
    requires forall b :: b in bs ==> Keeps(t, b)
    ensures Where(bs, t) == bs
    decreases |bs|
  {
    if bs != [] {
      WhereAll(bs[1..], t);
      WhereCons(bs[0], bs[1..], t);
      assert [bs[0]] + bs[1..] == bs;
    }
  }

  /** The test behind each value of the page's filter selector. */
  function FilterTest(filter: string): Test {
    if filter == "all" then Everything
    else if filter == "pending" then StatusIs(Pending)
    else if filter == "confirmed" then StatusIs(Confirmed)
    else if filter == "cancelled" then StatusIs(Cancelled)
    else Everything
  }

  /** `filteredBookings`: the three status keys select their status; "all"
      and any other key keep the whole list. */
  function Filtered(bs: seq<Booking>, filter: string): (r: seq<Booking>)
    ensures forall b :: b in r <==> (
      && b in bs
      && (filter == "pending" ==> b.status == Pending)
      && (filter == "confirmed" ==> b.status == Confirmed)
      && (filter == "cancelled" ==> b.status == Cancelled))
    ensures forall b ::
              multiset(r)[b] ==
                if (filter == "pending" ==> b.status == Pending)
                   && (filter == "confirmed" ==> b.status == Confirmed)
                   && (filter == "cancelled" ==> b.status == Cancelled)
                then multiset(bs)[b] else 0
    ensures filter != "pending" && filter != "confirmed" && filter != "cancelled" ==> r == bs
  {
    var t := FilterTest(filter);
    WhereAll(bs, Everything);
    forall b | true
      ensures multiset(Where(bs, t))[b] == (if Keeps(t, b) then multiset(bs)[b] else 0)
    {
      WhereCounts(bs, t, b);
    }
    Where(bs, t)
  }

  datatype Stats = Stats(total: int, pending: int, confirmed: int, cancelled: int, pendingPayments: int)

  /** `stats`: the size of the list and how many of its bookings are in
      each status, and awaiting payment; a counter is zero exactly when no
      booking qualifies. */
  function StatsOf(bs: seq<Booking>): (st: Stats)
    ensures st.total == |bs|
    ensures st.pending == |set i | 0 <= i < |bs| && bs[i].status == Pending|
    ensures st.confirmed == |set i | 0 <= i < |bs| && bs[i].status == Confirmed|
    ensures st.cancelled == |set i | 0 <= i < |bs| && bs[i].status == Cancelled|
    ensures st.pendingPayments == |set i | 0 <= i < |bs| && bs[i].paymentStatus == Pending|
    ensures 0 <= st.pending <= st.total && 0 <= st.confirmed <= st.total
    ensures 0 <= st.cancelled <= st.total && 0 <= st.pendingPayments <= st.total
    ensures st.pending == 0 <==> forall i :: 0 <= i < |bs| ==> bs[i].status != Pending
    ensures st.confirmed == 0 <==> forall i :: 0 <= i < |bs| ==> bs[i].status != Confirmed
    ensures st.cancelled == 0 <==> forall i :: 0 <= i < |bs| ==> bs[i].status != Cancelled
    ensures st.pendingPayments == 0 <==> forall i :: 0 <= i < |bs| ==> bs[i].paymentStatus != Pending
  {
    StatusCount(bs, Pending);
    StatusCount(bs, Confirmed);
    StatusCount(bs, Cancelled);
    PaymentCount(bs, Pending);
    Stats(|bs|, |Where(bs, StatusIs(Pending))|, |Where(bs, StatusIs(Confirmed))|,
          |Where(bs, StatusIs(Cancelled))|, |Where(bs, PaymentIs(Pending))|)
  }

  /** The status filter's size counts the positions holding that status. */
  lemma StatusCount(bs: seq<Booking>, status: string)
    ensures |Where(bs, StatusIs(status))| == |set i | 0 <= i < |bs| && bs[i].status == status|
    ensures |Where(bs, StatusIs(status))| == 0 <==> forall i :: 0 <= i < |bs| ==> bs[i].status != status
  {
    WhereSize(bs, StatusIs(status));
    WhereEmpty(bs, StatusIs(status));
    assert Positions(bs, StatusIs(status)) == set i | 0 <= i < |bs| && bs[i].status == status;
  }

  /** The payment filter's size counts the positions holding that payment status. */
  lemma PaymentCount(bs: seq<Booking>, payment: string)
    ensures |Where(bs, PaymentIs(payment))| == |set i | 0 <= i < |bs| && bs[i].paymentStatus == payment|
    ensures |Where(bs, PaymentIs(payment))| == 0 <==> forall i :: 0 <= i < |bs| ==> bs[i].paymentStatus != payment
  {
    WhereSize(bs, PaymentIs(payment));
    WhereEmpty(bs, PaymentIs(payment));
    assert Positions(bs, PaymentIs(payment)) == set i | 0 <= i < |bs| && bs[i].paymentStatus == payment;
  }

  /** The three status cards and the bookings in no counted state (Completed
      ones, say) make up the total, so the cards never add up to more. */
  lemma StatsAddUp(bs: seq<Booking>)
    ensures var st := StatsOf(bs);
      && st.pending + st.confirmed + st.cancelled + |Where(bs, Uncounted)| == st.total
      && st.pending + st.confirmed + st.cancelled <= st.total
      && st.pendingPayments <= st.total
  {
    StatusesPartition(bs);
  }

  /** The three counted statuses and the rest split the list. */
  lemma {:induction false} StatusesPartition(bs: seq<Booking>)
    ensures |Where(bs, StatusIs(Pending))| + |Where(bs, StatusIs(Confirmed))|
      + |Where(bs, StatusIs(Cancelled))| + |Where(bs, Uncounted)| == |bs|
    decreases |bs|
  {
    if bs != [] {
      StatusesPartition(bs[1..]);
      WhereCount(bs, StatusIs(Pending));
      WhereCount(bs, StatusIs(Confirmed));
      WhereCount(bs, StatusIs(Cancelled));
      WhereCount(bs, Uncounted);
    }
  }

  /** The first booking adds one to a filter's size when it passes. */
  lemma WhereCount(bs: seq<Booking>, t: Test)
    requires bs != []
    ensures |Where(bs, t)| == |Where(bs[1..], t)| + (if Keeps(t, bs[0]) then 1 else 0)
  {
  }

  /** A Completed booking is counted on no status card. */
  lemma CompletedUncounted(bs: seq<Booking>, b: Booking)
    requires b in bs && b.status == Completed
    ensures b !in Filtered(bs, "pending") && b !in Filtered(bs, "confirmed") && b !in Filtered(bs, "cancelled")
    ensures b in Where(bs, Uncounted)
  {
  }

  // ---------------------------------------------------------------------
  // Approve payment
  // ---------------------------------------------------------------------

  /** The row's "Approve Payment" button is shown. */
  predicate ApproveOffered(b: Booking) {
    b.paymentStatus == Pending
  }

  /** The payment status the button asks the server for. */
  const ApproveValue: string := "Paid"

  /** The request the button sends: the row's booking id and "Paid". */
  function Approve(b: Booking): (r: (int, string))
    ensures r.0 == b.id && r.1 == Paid
  {
    (b.id, ApproveValue)
  }

  /** Approving a stored pending booking that is awaiting payment (as an
      admin, the only caller the route lets through) marks it paid and
      confirms it, after which the button is no longer offered. */
  lemma ApproveConfirms(s: Store, id: int)
    requires id in s.bookings && s.bookings[id].id == id
    requires ApproveOffered(s.bookings[id]) && s.bookings[id].status == Pending
    ensures var req := Approve(s.bookings[id]);
      var h := BookingController.UpdatePayment(s, req.0, Some(req.1));
      && h.reply.Ok?
      && h.next.bookings[id].paymentStatus == Paid
      && h.next.bookings[id].status == Confirmed
      && !ApproveOffered(h.next.bookings[id])
  {
  }

  /** The button stays offered after a payment update exactly when the
      status written is "Pending" again. */
  lemma ApproveOfferedUntilPaid(s: Store, id: int, ps: string)
    requires id in s.bookings && s.bookings[id].id == id
    requires KnownPayment(ps)
    ensures var h := BookingController.UpdatePayment(s, id, Some(ps));
      && h.reply.Ok?
      && (ApproveOffered(h.next.bookings[id]) <==> ps == Pending)
  {
  }

  /** Approving a booking in any other state leaves its status alone and
      only sets the payment. */
  lemma ApproveKeepsOtherStatus(s: Store, id: int)
    requires id in s.bookings && s.bookings[id].id == id && s.bookings[id].status != Pending
    ensures var h := BookingController.UpdatePayment(s, id, Some(Approve(s.bookings[id]).1));
      h.next.bookings[id] == s.bookings[id].(paymentStatus := Paid)
  {
  }
}
