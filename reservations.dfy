/** The reservation engine of hotel_management_system/utils/user_utils.py:
    the availability query, booking creation and cancellation, the room
    search, the ownership-checked booking lookup, guest profiles and the
    cancellation of room-service requests. */
module Reservations {
  import opened Text
  import opened Wrappers
  import opened Tables

  // ---------------------------------------------------------------------------
  // Availability
  // ---------------------------------------------------------------------------

  /** The bookings that hold a room: confirmed or checked in. */
  predicate Active(b: Booking) {
    b.status == Confirmed || b.status == CheckedIn
  }

  /** The three OR-ed date clauses of the availability query, for a request
      from checkIn to checkOut. */
  predicate ConflictClauses(b: Booking, checkIn: int, checkOut: int) {
    (b.checkIn <= checkOut && b.checkOut > checkIn) ||
    (b.checkIn < checkOut && b.checkOut >= checkIn) ||
    (b.checkIn >= checkIn && b.checkOut <= checkOut)
  }

  /** The closed intervals [b.checkIn, b.checkOut] and [checkIn, checkOut] meet. */
  predicate ClosedOverlap(b: Booking, checkIn: int, checkOut: int) {
    b.checkIn <= checkOut && b.checkOut >= checkIn
  }

  /** The three clauses are the closed-interval test: one direction needs only
      an ordered request, the other an ordered booking. */
  lemma ClausesAreClosedOverlap(b: Booking, checkIn: int, checkOut: int)
    requires checkIn <= checkOut
    ensures ClosedOverlap(b, checkIn, checkOut) ==> ConflictClauses(b, checkIn, checkOut)
    ensures b.checkIn <= b.checkOut ==> (ConflictClauses(b, checkIn, checkOut) ==> ClosedOverlap(b, checkIn, checkOut))
  {
  }

  /** Some active booking of the room meets the request under the query's clauses. */
  predicate Blocked(bookings: seq<Booking>, roomId: int, checkIn: int, checkOut: int) {
    exists i :: 0 <= i < |bookings| && bookings[i].roomId == roomId && Active(bookings[i]) &&
      ConflictClauses(bookings[i], checkIn, checkOut)
  }

  /** The optional room-type filter; the empty type means no filter. */
  predicate KindMatches(room: Room, kind: string) {
    kind == "" || room.kind == kind
  }

  /** The rooms the query's WHERE clause keeps, in table order. */
  function Eligible(rooms: seq<Room>, bookings: seq<Booking>, checkIn: int, checkOut: int, kind: string): (r: seq<Room>)
    ensures forall x :: x in r <==> x in rooms && KindMatches(x, kind) && !Blocked(bookings, x.id, checkIn, checkOut)
  {
    if rooms == [] then []
    else
      var rest := Eligible(rooms[..|rooms| - 1], bookings, checkIn, checkOut, kind);
      var x := rooms[|rooms| - 1];
      assert rooms == rooms[..|rooms| - 1] + [x];
      if KindMatches(x, kind) && !Blocked(bookings, x.id, checkIn, checkOut) then rest + [x] else rest
  }

  /** ORDER BY price, room_number. */
  predicate RoomBefore(a: Room, b: Room) {
    a.price < b.price || (a.price == b.price && StrLe(a.number, b.number))
  }

  lemma RoomBeforeTotal(a: Room, b: Room)
    ensures RoomBefore(a, b) || RoomBefore(b, a)
  {
    StrLeTotal(a.number, b.number);
  }

  lemma RoomBeforeTransitive(a: Room, b: Room, c: Room)
    requires RoomBefore(a, b) && RoomBefore(b, c)
    ensures RoomBefore(a, c)
  {
    if a.price == b.price == c.price {
      StrLeTransitive(a.number, b.number, c.number);
    }
  }

  predicate SortedRooms(s: seq<Room>) {
    forall i, j :: 0 <= i < j < |s| ==> RoomBefore(s[i], s[j])
  }

  /** A room placed before every room of a sorted list keeps it sorted. */
  lemma ConsSorted(a: Room, t: seq<Room>)
    requires SortedRooms(t)
    requires forall k :: 0 <= k < |t| ==> RoomBefore(a, t[k])
    ensures SortedRooms([a] + t)
  {
    var r := [a] + t;
    forall i, j | 0 <= i < j < |r| ensures RoomBefore(r[i], r[j]) {
      assert r[j] == t[j - 1];
      if i > 0 {
        assert r[i] == t[i - 1];
      }
    }
  }

  /** A room ahead of the head of a sorted list is ahead of all of it. */
  lemma BeforeHeadBeforeAll(x: Room, s: seq<Room>)
    requires SortedRooms(s) && s != [] && RoomBefore(x, s[0])
    ensures forall j :: 0 <= j < |s| ==> RoomBefore(x, s[j])
  {
    forall j | 0 < j < |s| ensures RoomBefore(x, s[j]) {
      RoomBeforeTransitive(x, s[0], s[j]);
    }
  }

  /** The head of a sorted list is ahead of every room of the tail with one
      more room, ranked after the head, inserted. */
  lemma HeadBeforeInserted(x: Room, s: seq<Room>, t: seq<Room>)
    requires SortedRooms(s) && s != [] && RoomBefore(s[0], x)
    requires multiset(t) == multiset(s[1..]) + multiset{x}
    ensures forall k :: 0 <= k < |t| ==> RoomBefore(s[0], t[k])
  {
    forall k | 0 <= k < |t| ensures RoomBefore(s[0], t[k]) {
      assert t[k] in multiset(t);
      if t[k] != x {
        assert t[k] in multiset(s[1..]);
        var j :| 0 <= j < |s[1..]| && s[1..][j] == t[k];
        assert s[j + 1] == t[k];
      }
    }
  }

  function InsertRoom(x: Room, s: seq<Room>): (r: seq<Room>)
    requires SortedRooms(s)
    ensures SortedRooms(r)
    ensures multiset(r) == multiset(s) + multiset{x}
  {
    if s == [] then [x]
    else if RoomBefore(x, s[0]) then
      BeforeHeadBeforeAll(x, s);
      ConsSorted(x, s);
      [x] + s
    else
      RoomBeforeTotal(x, s[0]);
      assert SortedRooms(s[1..]);
      var t := InsertRoom(x, s[1..]);
      HeadBeforeInserted(x, s, t);
      ConsSorted(s[0], t);
      assert s == [s[0]] + s[1..];
      [s[0]] + t
  }

  /** Insertion sort by price, then room number. */
  function SortRooms(s: seq<Room>): (r: seq<Room>)
    ensures SortedRooms(r)
    ensures multiset(r) == multiset(s)
  {
    if s == [] then []
    else
      assert s == [s[0]] + s[1..];
      InsertRoom(s[0], SortRooms(s[1..]))
  }

  /** get_available_rooms: the eligible rooms ordered by price, then room number. */
  function AvailableRooms(rooms: seq<Room>, bookings: seq<Booking>, checkIn: int, checkOut: int, kind: string): (r: seq<Room>)
    ensures SortedRooms(r)
    ensures multiset(r) == multiset(Eligible(rooms, bookings, checkIn, checkOut, kind))
  {
    SortRooms(Eligible(rooms, bookings, checkIn, checkOut, kind))
  }

  /** Every room the query returns is in the catalogue, has the requested
      type and is not blocked under the query's clauses. */
  lemma AvailableRoomsSound(rooms: seq<Room>, bookings: seq<Booking>, checkIn: int, checkOut: int, kind: string, x: Room)
    ensures x in AvailableRooms(rooms, bookings, checkIn, checkOut, kind) <==>
      x in rooms && KindMatches(x, kind) && !Blocked(bookings, x.id, checkIn, checkOut)
  {
    var r := AvailableRooms(rooms, bookings, checkIn, checkOut, kind);
    var e := Eligible(rooms, bookings, checkIn, checkOut, kind);
    assert x in r <==> x in multiset(r);
    assert x in e <==> x in multiset(e);
  }

  /** Some active booking of the room meets [checkIn, checkOut] as closed intervals. */
  predicate HeldInClosedRange(bookings: seq<Booking>, roomId: int, checkIn: int, checkOut: int) {
    exists i :: 0 <= i < |bookings| && bookings[i].roomId == roomId && Active(bookings[i]) &&
      ClosedOverlap(bookings[i], checkIn, checkOut)
  }

  /** Active bookings run forwards in time, as create_booking makes them. */
  predicate ActiveOrdered(bookings: seq<Booking>) {
    forall i :: 0 <= i < |bookings| && Active(bookings[i]) ==> bookings[i].checkIn <= bookings[i].checkOut
  }

  /** A booking that runs forwards keeps the table running forwards. */
  lemma ActiveOrderedAppend(bookings: seq<Booking>, b: Booking)
    requires ActiveOrdered(bookings) && b.checkIn <= b.checkOut
    ensures ActiveOrdered(bookings + [b])
  {
    var ext := bookings + [b];
    assert forall i :: 0 <= i < |bookings| ==> ext[i] == bookings[i];
  }

  /** The headline characterization: for an ordered request over ordered
      bookings, a room of the requested type is returned exactly when no
      confirmed or checked-in booking of it meets the request as closed
      intervals. */
  lemma AvailableRoomsExact(rooms: seq<Room>, bookings: seq<Booking>, checkIn: int, checkOut: int, kind: string, x: Room)
    requires checkIn <= checkOut
    requires ActiveOrdered(bookings)
    ensures x in AvailableRooms(rooms, bookings, checkIn, checkOut, kind) <==>
      x in rooms && KindMatches(x, kind) && !HeldInClosedRange(bookings, x.id, checkIn, checkOut)
  {
    AvailableRoomsSound(rooms, bookings, checkIn, checkOut, kind, x);
    forall i | 0 <= i < |bookings| {
      ClausesAreClosedOverlap(bookings[i], checkIn, checkOut);
    }
    assert Blocked(bookings, x.id, checkIn, checkOut) <==> HeldInClosedRange(bookings, x.id, checkIn, checkOut);
  }

  /** A booking that ends on the requested check-in day, or starts on the
      requested check-out day, keeps its room out of the result. */
  lemma TurnoverDayBlocks(rooms: seq<Room>, bookings: seq<Booking>, checkIn: int, checkOut: int, kind: string, i: nat)
    requires i < |bookings| && Active(bookings[i])
    requires bookings[i].checkOut == checkIn || bookings[i].checkIn == checkOut
    requires checkIn <= checkOut
    ensures forall x :: x in AvailableRooms(rooms, bookings, checkIn, checkOut, kind) ==> x.id != bookings[i].roomId
  {
    forall x | x in AvailableRooms(rooms, bookings, checkIn, checkOut, kind) ensures x.id != bookings[i].roomId {
      AvailableRoomsSound(rooms, bookings, checkIn, checkOut, kind, x);
      if x.id == bookings[i].roomId {
        assert ConflictClauses(bookings[i], checkIn, checkOut);
        assert false;
      }
    }
  }

  /** Cancelled, checked-out and pending bookings never block: adding one
      leaves the result unchanged. */
  lemma InactiveBookingsNeverBlock(rooms: seq<Room>, bookings: seq<Booking>, b: Booking, checkIn: int, checkOut: int, kind: string)
    requires !Active(b)
    ensures AvailableRooms(rooms, bookings + [b], checkIn, checkOut, kind) == AvailableRooms(rooms, bookings, checkIn, checkOut, kind)
  {
    forall id | true ensures Blocked(bookings + [b], id, checkIn, checkOut) == Blocked(bookings, id, checkIn, checkOut) {
      var ext := bookings + [b];
      if Blocked(ext, id, checkIn, checkOut) {
        var i :| 0 <= i < |ext| && ext[i].roomId == id && Active(ext[i]) && ConflictClauses(ext[i], checkIn, checkOut);
        assert i < |bookings| && ext[i] == bookings[i];
      }
      if Blocked(bookings, id, checkIn, checkOut) {
        var i :| 0 <= i < |bookings| && bookings[i].roomId == id && Active(bookings[i]) && ConflictClauses(bookings[i], checkIn, checkOut);
        assert ext[i] == bookings[i];
      }
    }
    EligibleSameBlocking(rooms, bookings + [b], bookings, checkIn, checkOut, kind);
  }

  lemma {:induction false} EligibleSameBlocking(rooms: seq<Room>, bs1: seq<Booking>, bs2: seq<Booking>, checkIn: int, checkOut: int, kind: string)
    requires forall id :: Blocked(bs1, id, checkIn, checkOut) == Blocked(bs2, id, checkIn, checkOut)
    ensures Eligible(rooms, bs1, checkIn, checkOut, kind) == Eligible(rooms, bs2, checkIn, checkOut, kind)
  {
    if rooms != [] {
      EligibleSameBlocking(rooms[..|rooms| - 1], bs1, bs2, checkIn, checkOut, kind);
    }
  }

  /** The rooms come out by ascending price. */
  lemma AvailablePricesAscending(rooms: seq<Room>, bookings: seq<Booking>, checkIn: int, checkOut: int, kind: string, i: nat, j: nat)
    requires i <= j < |AvailableRooms(rooms, bookings, checkIn, checkOut, kind)|
    ensures AvailableRooms(rooms, bookings, checkIn, checkOut, kind)[i].price <= AvailableRooms(rooms, bookings, checkIn, checkOut, kind)[j].price
  {
  }

  // ---------------------------------------------------------------------------
  // The no-double-booking invariant
  // ---------------------------------------------------------------------------

  /** Two bookings hold the same room over closed intervals that meet. */
  predicate Clash(a: Booking, b: Booking) {
    a.roomId == b.roomId && Active(a) && Active(b) && ClosedOverlap(a, b.checkIn, b.checkOut)
  }

  /** No two confirmed or checked-in bookings of a room meet as closed intervals. */
  predicate NoDoubleBooking(bookings: seq<Booking>) {
    forall i, j :: 0 <= i < |bookings| && 0 <= j < |bookings| && i != j ==> !Clash(bookings[i], bookings[j])
  }

  /** A room the query returns for an ordered request can take a booking for
      that request without clashing with any existing one. */
  lemma AddingAvailableKeepsNoDoubleBooking(rooms: seq<Room>, bookings: seq<Booking>, b: Booking)
    requires NoDoubleBooking(bookings)
    requires b.checkIn <= b.checkOut
    requires exists x :: x in AvailableRooms(rooms, bookings, b.checkIn, b.checkOut, "") && x.id == b.roomId
    ensures NoDoubleBooking(bookings + [b])
  {
    var x :| x in AvailableRooms(rooms, bookings, b.checkIn, b.checkOut, "") && x.id == b.roomId;
    AvailableRoomsSound(rooms, bookings, b.checkIn, b.checkOut, "", x);
    var ext := bookings + [b];
    forall i, j | 0 <= i < |ext| && 0 <= j < |ext| && i != j ensures !Clash(ext[i], ext[j]) {
      if i < |bookings| && j < |bookings| {
        assert ext[i] == bookings[i] && ext[j] == bookings[j];
      } else if i < |bookings| {
        assert ext[i] == bookings[i] && ext[j] == b;
        if Clash(bookings[i], b) {
          ClausesAreClosedOverlap(bookings[i], b.checkIn, b.checkOut);
          assert false;
        }
      } else {
        assert ext[j] == bookings[j] && ext[i] == b;
        if Clash(b, bookings[j]) {
          ClausesAreClosedOverlap(bookings[j], b.checkIn, b.checkOut);
          assert false;
        }
      }
    }
  }

  /** Closed-interval separation implies the half-open intervals
      [checkIn, checkOut) of clashing-free bookings are disjoint, and more. */
  lemma NoDoubleBookingHalfOpen(bookings: seq<Booking>, i: nat, j: nat)
    requires NoDoubleBooking(bookings)
    requires i < |bookings| && j < |bookings| && i != j
    requires bookings[i].roomId == bookings[j].roomId && Active(bookings[i]) && Active(bookings[j])
    ensures bookings[i].checkOut < bookings[j].checkIn || bookings[j].checkOut < bookings[i].checkIn
  {
    assert !Clash(bookings[i], bookings[j]);
  }

  // ---------------------------------------------------------------------------
  // create_booking
  // ---------------------------------------------------------------------------

  datatype BookingError =
    | InvalidDates     // "Check-out date must be after check-in date"
    | PastCheckIn      // "Check-in date cannot be in the past"
    | RoomUnavailable  // "Room is not available for the selected dates"

  /** The room id is among those of a result list. */
  predicate Lists(rs: seq<Room>, roomId: int) {
    exists k :: 0 <= k < |rs| && rs[k].id == roomId
  }

  /** The guards of create_booking, in their order; None lets the booking through. */
  function BookingRefusal(rooms: seq<Room>, bookings: seq<Booking>, roomId: int, checkIn: int, checkOut: int, today: int): Option<BookingError> {
    if checkIn >= checkOut then Some(InvalidDates)
    else if checkIn < today then Some(PastCheckIn)
    else if !Lists(AvailableRooms(rooms, bookings, checkIn, checkOut, ""), roomId) then Some(RoomUnavailable)
    else None
  }

  /** The room is in the catalogue. */
  predicate HasRoom(rooms: seq<Room>, roomId: int) {
    exists k :: 0 <= k < |rooms| && rooms[k].id == roomId
  }

  /** What each refusal means, over bookings that run forwards: dates out of
      order first, then a past check-in, then a room that is unknown or held
      by a booking meeting the request as closed intervals. */
  lemma BookingRefusalMeaning(rooms: seq<Room>, bookings: seq<Booking>, roomId: int, checkIn: int, checkOut: int, today: int)
    requires ActiveOrdered(bookings)
    ensures BookingRefusal(rooms, bookings, roomId, checkIn, checkOut, today) == Some(InvalidDates) <==> checkIn >= checkOut
    ensures BookingRefusal(rooms, bookings, roomId, checkIn, checkOut, today) == Some(PastCheckIn) <==> checkIn < checkOut && checkIn < today
    ensures BookingRefusal(rooms, bookings, roomId, checkIn, checkOut, today) == Some(RoomUnavailable) <==>
      checkIn < checkOut && today <= checkIn &&
      (!HasRoom(rooms, roomId) || HeldInClosedRange(bookings, roomId, checkIn, checkOut))
  {
    if checkIn < checkOut && today <= checkIn {
      var avail := AvailableRooms(rooms, bookings, checkIn, checkOut, "");
      if Lists(avail, roomId) {
        var k :| 0 <= k < |avail| && avail[k].id == roomId;
        AvailableRoomsExact(rooms, bookings, checkIn, checkOut, "", avail[k]);
        var m :| 0 <= m < |rooms| && rooms[m] == avail[k];
      } else if HasRoom(rooms, roomId) && !HeldInClosedRange(bookings, roomId, checkIn, checkOut) {
        var m :| 0 <= m < |rooms| && rooms[m].id == roomId;
        AvailableRoomsExact(rooms, bookings, checkIn, checkOut, "", rooms[m]);
        assert false;
      }
    }
  }

  /** The rooms with one room's status replaced (UPDATE rooms SET status ... WHERE id = ?). */
  function SetRoomStatus(rooms: seq<Room>, roomId: int, status: RoomStatus): (r: seq<Room>)
    ensures |r| == |rooms| && RoomIds(r) == RoomIds(rooms)
    ensures forall k :: 0 <= k < |rooms| ==>
      r[k].id == rooms[k].id && r[k].kind == rooms[k].kind &&
      r[k].price == rooms[k].price && r[k].number == rooms[k].number && r[k].capacity == rooms[k].capacity
    ensures forall k :: 0 <= k < |rooms| ==> r[k].status == (if rooms[k].id == roomId then status else rooms[k].status)
  {
    seq(|rooms|, k requires 0 <= k < |rooms| => if rooms[k].id == roomId then rooms[k].(status := status) else rooms[k])
  }

  /** Repeating a request that has just succeeded is refused as unavailable:
      the new confirmed booking blocks its own dates. */
  lemma RetryIsRefused(rooms: seq<Room>, bookings: seq<Booking>, b: Booking, today: int, rooms': seq<Room>)
    requires BookingRefusal(rooms, bookings, b.roomId, b.checkIn, b.checkOut, today) == None
    requires b.status == Confirmed
    ensures BookingRefusal(rooms', bookings + [b], b.roomId, b.checkIn, b.checkOut, today) == Some(RoomUnavailable)
  {
    var ext := bookings + [b];
    assert ext[|bookings|] == b;
    assert Blocked(ext, b.roomId, b.checkIn, b.checkOut);
    var avail := AvailableRooms(rooms', ext, b.checkIn, b.checkOut, "");
    if Lists(avail, b.roomId) {
      var k :| 0 <= k < |avail| && avail[k].id == b.roomId;
      AvailableRoomsSound(rooms', ext, b.checkIn, b.checkOut, "", avail[k]);
    }
  }

  /** The booking create_booking inserts when no guard refuses it keeps the
      keys, the no-double-booking invariant and forward-running stays. */
  lemma BookingKeepsInvariants(rooms: seq<Room>, bookings: seq<Booking>, guestId: int, roomId: int, checkIn: int, checkOut: int, today: int)
    requires IsKey(BookingIds(bookings))
    requires BookingRefusal(rooms, bookings, roomId, checkIn, checkOut, today) == None
    ensures var b := Booking(FreshId(BookingIds(bookings)), roomId, guestId, checkIn, checkOut, Confirmed);
      IsKey(BookingIds(bookings + [b])) &&
      (NoDoubleBooking(bookings) ==> NoDoubleBooking(bookings + [b])) &&
      (ActiveOrdered(bookings) ==> ActiveOrdered(bookings + [b]))
  {
    var id := FreshId(BookingIds(bookings));
    var b := Booking(id, roomId, guestId, checkIn, checkOut, Confirmed);
    var available := AvailableRooms(rooms, bookings, checkIn, checkOut, "");
    if NoDoubleBooking(bookings) {
      var k :| 0 <= k < |available| && available[k].id == roomId;
      AddingAvailableKeepsNoDoubleBooking(rooms, bookings, b);
    }
    if ActiveOrdered(bookings) {
      ActiveOrderedAppend(bookings, b);
    }
    FreshIdKeepsKey(BookingIds(bookings));
    assert BookingIds(bookings + [b]) == BookingIds(bookings) + [id];
  }

  /** create_booking: validate, insert a confirmed booking, and mark the room
      occupied when the stay starts today. */
  method CreateBooking(db: Database, guestId: int, roomId: int, checkIn: int, checkOut: int, today: int)
    returns (r: Result<int, BookingError>)
    requires db.Valid()
    modifies db`bookings, db`rooms
    ensures db.Valid()
    ensures NoDoubleBooking(old(db.bookings)) ==> NoDoubleBooking(db.bookings)
    ensures ActiveOrdered(old(db.bookings)) ==> ActiveOrdered(db.bookings)
    ensures var refusal := BookingRefusal(old(db.rooms), old(db.bookings), roomId, checkIn, checkOut, today);
      if refusal.Some? then
        r == Err(refusal.value) && db.bookings == old(db.bookings) && db.rooms == old(db.rooms)
      else
        r.Ok? && r.value == FreshId(BookingIds(old(db.bookings))) &&
        db.bookings == old(db.bookings) + [Booking(r.value, roomId, guestId, checkIn, checkOut, Confirmed)] &&
        db.rooms == (if checkIn == today then SetRoomStatus(old(db.rooms), roomId, Occupied) else old(db.rooms))
  {
    var refusal := BookingRefusal(db.rooms, db.bookings, roomId, checkIn, checkOut, today);
    if refusal.Some? {
      return Err(refusal.value);
    }
    BookingKeepsInvariants(db.rooms, db.bookings, guestId, roomId, checkIn, checkOut, today);
    var id := FreshId(BookingIds(db.bookings));
    db.bookings := db.bookings + [Booking(id, roomId, guestId, checkIn, checkOut, Confirmed)];
    if checkIn == today {
      db.rooms := SetRoomStatus(db.rooms, roomId, Occupied);
    }
    return Ok(id);
  }

  // ---------------------------------------------------------------------------
  // get_booking and cancel_booking
  // ---------------------------------------------------------------------------

  /** A row the lookup query can return: right id, joined to an existing room,
      and owned by the guest when the guest id is truthy (non-zero). */
  predicate LookupMatches(rooms: seq<Room>, b: Booking, bookingId: int, guestId: int) {
    b.id == bookingId && HasRoom(rooms, b.roomId) && (guestId != 0 ==> b.guestId == guestId)
  }

  /** get_booking: the first booking row the query returns, if any. */
  function FindBooking(rooms: seq<Room>, bookings: seq<Booking>, bookingId: int, guestId: int): (r: Option<Booking>)
    ensures r.Some? ==> r.value in bookings && LookupMatches(rooms, r.value, bookingId, guestId)
    ensures r.Some? ==> exists k :: (0 <= k < |bookings| && bookings[k] == r.value &&
      forall j :: 0 <= j < k ==> !LookupMatches(rooms, bookings[j], bookingId, guestId))
    ensures r.None? <==> forall k :: 0 <= k < |bookings| ==> !LookupMatches(rooms, bookings[k], bookingId, guestId)
  {
    if bookings == [] then None
    else if LookupMatches(rooms, bookings[0], bookingId, guestId) then Some(bookings[0])
    else
      var r := FindBooking(rooms, bookings[1..], bookingId, guestId);
      assert forall k :: 1 <= k < |bookings| ==> bookings[k] == bookings[1..][k - 1];
      if r.Some? then
        var k :| 0 <= k < |bookings[1..]| && bookings[1..][k] == r.value &&
          forall j :: 0 <= j < k ==> !LookupMatches(rooms, bookings[1..][j], bookingId, guestId);
        assert bookings[k + 1] == r.value;
        r
      else r
  }

  datatype CancelError =
    | InvalidBooking   // "Invalid booking"
    | NotCancellable   // "Booking cannot be cancelled"
    | TooLate          // "Booking cannot be cancelled within 24 hours of check-in"
    | CancelFailed     // "Failed to cancel booking": the UPDATE matched no row

  /** The UPDATE of cancel_booking matches this row. */
  predicate CancelTarget(b: Booking, bookingId: int, guestId: int) {
    b.id == bookingId && b.guestId == guestId
  }

  /** The 24-hour rule: check-in midnight minus now is under a day, and the
      booking is not pending. */
  predicate WithinCancelWindow(b: Booking, now: int) {
    b.checkIn * SecondsPerDay - now < SecondsPerDay && b.status != Pending
  }

  /** The guards of cancel_booking, in their order; None lets it through. */
  function CancelRefusal(rooms: seq<Room>, bookings: seq<Booking>, bookingId: int, guestId: int, now: int): Option<CancelError> {
    match FindBooking(rooms, bookings, bookingId, guestId)
    case None => Some(InvalidBooking)
    case Some(b) =>
      if b.status == CheckedOut || b.status == Cancelled then Some(NotCancellable)
      else if WithinCancelWindow(b, now) then Some(TooLate)
      else if !exists k :: 0 <= k < |bookings| && CancelTarget(bookings[k], bookingId, guestId) then Some(CancelFailed)
      else None
  }

  /** UPDATE bookings SET status = 'cancelled' WHERE id = ? AND guest_id = ?. */
  function CancelRows(bookings: seq<Booking>, bookingId: int, guestId: int): (r: seq<Booking>)
    ensures |r| == |bookings| && BookingIds(r) == BookingIds(bookings)
  {
    seq(|bookings|, k requires 0 <= k < |bookings| =>
      if CancelTarget(bookings[k], bookingId, guestId) then bookings[k].(status := Cancelled) else bookings[k])
  }

  /** Over a table with a primary key, the cancelling update changes the
      status of the one matching booking to cancelled and nothing else. */
  lemma CancelRowsChangesOnlyTarget(bookings: seq<Booking>, bookingId: int, guestId: int, k: nat)
    requires IsKey(BookingIds(bookings))
    requires k < |bookings|
    ensures CancelRows(bookings, bookingId, guestId)[k] ==
      if bookings[k].id == bookingId && bookings[k].guestId == guestId then bookings[k].(status := Cancelled) else bookings[k]
    ensures forall j :: 0 <= j < |bookings| && j != k && bookings[k].id == bookingId ==>
      CancelRows(bookings, bookingId, guestId)[j] == bookings[j]
  {
    forall j | 0 <= j < |bookings| && j != k && bookings[k].id == bookingId
      ensures CancelRows(bookings, bookingId, guestId)[j] == bookings[j]
    {
      assert BookingIds(bookings)[j] != BookingIds(bookings)[k];
    }
  }

  /** Cancelling never creates a clash. */
  lemma CancelKeepsNoDoubleBooking(bookings: seq<Booking>, bookingId: int, guestId: int)
    requires NoDoubleBooking(bookings)
    ensures NoDoubleBooking(CancelRows(bookings, bookingId, guestId))
  {
    var r := CancelRows(bookings, bookingId, guestId);
    forall i, j | 0 <= i < |r| && 0 <= j < |r| && i != j ensures !Clash(r[i], r[j]) {
      assert !Clash(bookings[i], bookings[j]);
    }
  }

  /** A request without a guest (guest id 0) can never succeed when every
      booking belongs to a real guest: the lookup skips the ownership filter,
      but the update then matches no row. */
  lemma CancelWithoutGuestNeverSucceeds(rooms: seq<Room>, bookings: seq<Booking>, bookingId: int, now: int)
    requires forall k :: 0 <= k < |bookings| ==> bookings[k].guestId >= 1
    ensures CancelRefusal(rooms, bookings, bookingId, 0, now).Some?
  {
  }

  /** A booking of the guest that is confirmed and starts less than a day
      from now is refused by the 24-hour rule. */
  lemma LateCancelRefused(rooms: seq<Room>, bookings: seq<Booking>, k: nat, now: int)
    requires k < |bookings| && bookings[k].status == Confirmed
    requires HasRoom(rooms, bookings[k].roomId) && bookings[k].guestId != 0
    requires bookings[k].checkIn * SecondsPerDay - now < SecondsPerDay
    requires IsKey(BookingIds(bookings))
    ensures CancelRefusal(rooms, bookings, bookings[k].id, bookings[k].guestId, now) == Some(TooLate)
  {
    var b := bookings[k];
    var f := FindBooking(rooms, bookings, b.id, b.guestId);
    assert LookupMatches(rooms, b, b.id, b.guestId);
    var j :| 0 <= j < |bookings| && bookings[j] == f.value;
    assert BookingIds(bookings)[j] == BookingIds(bookings)[k];
  }

  /** cancel_booking: check the lookup, the status and the 24-hour rule,
      cancel the booking, and free the room when the guest had checked in. */
  method CancelBooking(db: Database, bookingId: int, guestId: int, now: int) returns (r: Outcome<CancelError>)
    requires db.Valid()
    modifies db`bookings, db`rooms
    ensures db.Valid()
    ensures NoDoubleBooking(old(db.bookings)) ==> NoDoubleBooking(db.bookings)
    ensures var refusal := CancelRefusal(old(db.rooms), old(db.bookings), bookingId, guestId, now);
      if refusal.Some? then
        r == Fail(refusal.value) && db.bookings == old(db.bookings) && db.rooms == old(db.rooms)
      else
        var prior := FindBooking(old(db.rooms), old(db.bookings), bookingId, guestId).value;
        r == Pass && db.bookings == CancelRows(old(db.bookings), bookingId, guestId) &&
        db.rooms == (if prior.status == CheckedIn then SetRoomStatus(old(db.rooms), prior.roomId, Available) else old(db.rooms))
  {
    var refusal := CancelRefusal(db.rooms, db.bookings, bookingId, guestId, now);
    if refusal.Some? {
      return Fail(refusal.value);
    }
    var booking := FindBooking(db.rooms, db.bookings, bookingId, guestId).value;
    if NoDoubleBooking(db.bookings) {
      CancelKeepsNoDoubleBooking(db.bookings, bookingId, guestId);
    }
    db.bookings := CancelRows(db.bookings, bookingId, guestId);
    if booking.status == CheckedIn {
      db.rooms := SetRoomStatus(db.rooms, booking.roomId, Available);
    }
    return Pass;
  }

  /** Whether a room exists depends only on the id column. */
  lemma HasRoomSameIds(rooms: seq<Room>, rooms': seq<Room>, roomId: int)
    requires RoomIds(rooms') == RoomIds(rooms)
    ensures HasRoom(rooms', roomId) == HasRoom(rooms, roomId)
  {
    if HasRoom(rooms, roomId) {
      var m :| 0 <= m < |rooms| && rooms[m].id == roomId;
      assert RoomIds(rooms')[m] == rooms'[m].id;
    }
    if HasRoom(rooms', roomId) {
      var m :| 0 <= m < |rooms'| && rooms'[m].id == roomId;
      assert RoomIds(rooms)[m] == rooms[m].id;
    }
  }

  /** Over a table with a primary key, the lookup finds the one matching row. */
  lemma FindBookingAt(rooms: seq<Room>, bookings: seq<Booking>, bookingId: int, guestId: int, k: nat)
    requires IsKey(BookingIds(bookings))
    requires k < |bookings| && LookupMatches(rooms, bookings[k], bookingId, guestId)
    ensures FindBooking(rooms, bookings, bookingId, guestId) == Some(bookings[k])
  {
    var found := FindBooking(rooms, bookings, bookingId, guestId);
    var j :| 0 <= j < |bookings| && bookings[j] == found.value;
    assert BookingIds(bookings)[j] == BookingIds(bookings)[k];
  }

  /** Once a cancellation has gone through, asking again is refused as not
      cancellable: the same row is found, now with the cancelled status. */
  lemma CancelTwiceRefused(rooms: seq<Room>, rooms': seq<Room>, bookings: seq<Booking>, bookingId: int, guestId: int, now: int, later: int)
    requires IsKey(BookingIds(bookings))
    requires RoomIds(rooms') == RoomIds(rooms)
    requires CancelRefusal(rooms, bookings, bookingId, guestId, now) == None
    ensures CancelRefusal(rooms', CancelRows(bookings, bookingId, guestId), bookingId, guestId, later) == Some(NotCancellable)
  {
    var after := CancelRows(bookings, bookingId, guestId);
    var k :| 0 <= k < |bookings| && CancelTarget(bookings[k], bookingId, guestId);
    var before := FindBooking(rooms, bookings, bookingId, guestId).value;
    var j :| 0 <= j < |bookings| && bookings[j] == before;
    assert BookingIds(bookings)[j] == BookingIds(bookings)[k];
    HasRoomSameIds(rooms, rooms', bookings[k].roomId);
    assert after[k] == bookings[k].(status := Cancelled);
    FindBookingAt(rooms', after, bookingId, guestId, k);
  }

  // ---------------------------------------------------------------------------
  // search_rooms
  // ---------------------------------------------------------------------------

  /** A search result: the room, the number of nights and the stay's price. */
  datatype Offer = Offer(room: Room, nights: int, totalPrice: int)

  /** The two optional filters; a guest count or price ceiling of 0 is falsy
      and does not filter. */
  predicate PassesSearch(room: Room, guests: int, maxPrice: int) {
    !(guests != 0 && room.capacity < guests) && !(maxPrice != 0 && room.price > maxPrice)
  }

  /** The rooms that pass the filters, in their order. */
  function SearchFilter(rs: seq<Room>, guests: int, maxPrice: int): (r: seq<Room>)
    ensures |r| <= |rs|
    ensures forall x :: x in r <==> x in rs && PassesSearch(x, guests, maxPrice)
  {
    if rs == [] then []
    else
      var rest := SearchFilter(rs[..|rs| - 1], guests, maxPrice);
      var x := rs[|rs| - 1];
      assert rs == rs[..|rs| - 1] + [x];
      if PassesSearch(x, guests, maxPrice) then rest + [x] else rest
  }

  /** Filtering keeps the order by price and room number. */
  lemma {:induction false} SearchFilterSorted(rs: seq<Room>, guests: int, maxPrice: int)
    requires SortedRooms(rs)
    ensures SortedRooms(SearchFilter(rs, guests, maxPrice))
  {
    if rs != [] {
      var init := rs[..|rs| - 1];
      var x := rs[|rs| - 1];
      assert SortedRooms(init);
      SearchFilterSorted(init, guests, maxPrice);
      var rest := SearchFilter(init, guests, maxPrice);
      forall y | y in rest ensures RoomBefore(y, x) {
        var k :| 0 <= k < |init| && init[k] == y;
        assert rs[k] == y;
      }
    }
  }

  /** Each room priced for the stay. */
  function PriceStay(rs: seq<Room>, nights: int): (r: seq<Offer>)
    ensures |r| == |rs|
    ensures forall k :: 0 <= k < |rs| ==> r[k] == Offer(rs[k], nights, rs[k].price * nights)
  {
    seq(|rs|, k requires 0 <= k < |rs| => Offer(rs[k], nights, rs[k].price * nights))
  }

  /** The first loop of search_rooms: skip the rooms that fail a filter. */
  method FilterSearch(rs: seq<Room>, guests: int, maxPrice: int) returns (filtered: seq<Room>)
    ensures filtered == SearchFilter(rs, guests, maxPrice)
  {
    filtered := [];
    var i := 0;
    while i < |rs|
      invariant 0 <= i <= |rs|
      invariant filtered == SearchFilter(rs[..i], guests, maxPrice)
    {
      ghost var prefix := rs[..i + 1];
      assert prefix[..|prefix| - 1] == rs[..i] && prefix[|prefix| - 1] == rs[i];
      if PassesSearch(rs[i], guests, maxPrice) {
        filtered := filtered + [rs[i]];
      }
      i := i + 1;
    }
    assert rs[..i] == rs;
  }

  /** The second loop of search_rooms: price every room for the stay. */
  method PriceSearch(rs: seq<Room>, nights: int) returns (offers: seq<Offer>)
    ensures offers == PriceStay(rs, nights)
  {
    offers := [];
    var j := 0;
    while j < |rs|
      invariant 0 <= j <= |rs|
      invariant |offers| == j
      invariant forall k :: 0 <= k < j ==> offers[k] == Offer(rs[k], nights, rs[k].price * nights)
    {
      offers := offers + [Offer(rs[j], nights, rs[j].price * nights)];
      j := j + 1;
    }
  }

  /** search_rooms as intended, with each row copied into a dictionary before
      it is priced: the available rooms that pass the guest-count and price
      filters, each priced for the stay, in the availability order. */
  method SearchRooms(db: Database, checkIn: int, checkOut: int, guests: int, kind: string, maxPrice: int)
    returns (offers: seq<Offer>)
    ensures offers == PriceStay(SearchFilter(AvailableRooms(db.rooms, db.bookings, checkIn, checkOut, kind), guests, maxPrice), checkOut - checkIn)
  {
    var available := AvailableRooms(db.rooms, db.bookings, checkIn, checkOut, kind);
    var filtered := FilterSearch(available, guests, maxPrice);
    offers := PriceSearch(filtered, checkOut - checkIn);
    assert available == AvailableRooms(db.rooms, db.bookings, checkIn, checkOut, kind);
  }

  /** What a search returns: an offer for exactly the available rooms that
      seat the party and fit the budget, priced at the nightly rate times the
      nights, in ascending price and room-number order. */
  lemma SearchRoomsMeaning(rooms: seq<Room>, bookings: seq<Booking>, checkIn: int, checkOut: int, guests: int, kind: string, maxPrice: int, x: Room)
    ensures var offers := PriceStay(SearchFilter(AvailableRooms(rooms, bookings, checkIn, checkOut, kind), guests, maxPrice), checkOut - checkIn);
      (Offer(x, checkOut - checkIn, x.price * (checkOut - checkIn)) in offers <==>
        x in rooms && KindMatches(x, kind) && !Blocked(bookings, x.id, checkIn, checkOut) && PassesSearch(x, guests, maxPrice)) &&
      (forall i, j :: 0 <= i < j < |offers| ==> RoomBefore(offers[i].room, offers[j].room))
  {
    var avail := AvailableRooms(rooms, bookings, checkIn, checkOut, kind);
    var f := SearchFilter(avail, guests, maxPrice);
    var offers := PriceStay(f, checkOut - checkIn);
    AvailableRoomsSound(rooms, bookings, checkIn, checkOut, kind, x);
    SearchFilterSorted(avail, guests, maxPrice);
    if Offer(x, checkOut - checkIn, x.price * (checkOut - checkIn)) in offers {
      var k :| 0 <= k < |offers| && offers[k] == Offer(x, checkOut - checkIn, x.price * (checkOut - checkIn));
      assert f[k] == x;
    }
    if x in f {
      var k :| 0 <= k < |f| && f[k] == x;
      assert offers[k] == Offer(x, checkOut - checkIn, x.price * (checkOut - checkIn));
    }
  }

  /** search_rooms as the code stands: the rooms are read-only sqlite3.Row
      objects, so pricing the first room that passes the filters raises, and a
      list is returned only when no room passes them. */
  method SearchRoomsAsWritten(db: Database, checkIn: int, checkOut: int, guests: int, kind: string, maxPrice: int)
    returns (r: Result<seq<Offer>, RowError>)
    ensures r.Err? <==> SearchFilter(AvailableRooms(db.rooms, db.bookings, checkIn, checkOut, kind), guests, maxPrice) != []
    ensures r.Ok? ==> r.value == []
  {
    var available := AvailableRooms(db.rooms, db.bookings, checkIn, checkOut, kind);
    var filtered := FilterSearch(available, guests, maxPrice);
    if filtered != [] {
      return Err(ReadOnlyRow);
    }
    r := Ok([]);
  }

  /** As written, a search raises exactly when some room would be on offer:
      one that is available, of the type, and passes both filters. */
  lemma SearchRaisesIffRoomOffered(rooms: seq<Room>, bookings: seq<Booking>, checkIn: int, checkOut: int, guests: int, kind: string, maxPrice: int)
    ensures SearchFilter(AvailableRooms(rooms, bookings, checkIn, checkOut, kind), guests, maxPrice) != [] <==>
      exists x :: x in rooms && KindMatches(x, kind) && !Blocked(bookings, x.id, checkIn, checkOut) && PassesSearch(x, guests, maxPrice)
  {
    var avail := AvailableRooms(rooms, bookings, checkIn, checkOut, kind);
    var f := SearchFilter(avail, guests, maxPrice);
    if f != [] {
      AvailableRoomsSound(rooms, bookings, checkIn, checkOut, kind, f[0]);
      assert f[0] in f;
    }
    if exists x :: x in rooms && KindMatches(x, kind) && !Blocked(bookings, x.id, checkIn, checkOut) && PassesSearch(x, guests, maxPrice) {
      var x :| x in rooms && KindMatches(x, kind) && !Blocked(bookings, x.id, checkIn, checkOut) && PassesSearch(x, guests, maxPrice);
      AvailableRoomsSound(rooms, bookings, checkIn, checkOut, kind, x);
      assert x in f;
    }
  }

  /** One free room and a party of two it can hold: as written the search raises. */
  lemma SearchRaisesExample()
    ensures var room := Room(1, "101", "double", 10000, 2, Available);
      SearchFilter(AvailableRooms([room], [], 20000, 20002, ""), 2, 0) == [room]
  {
    var room := Room(1, "101", "double", 10000, 2, Available);
    assert !Blocked([], 1, 20000, 20002);
    AvailableRoomsSound([room], [], 20000, 20002, "", room);
    var a := AvailableRooms([room], [], 20000, 20002, "");
    assert |a| == 1 && a[0] == room by {
      assert multiset(a) == multiset(Eligible([room], [], 20000, 20002, ""));
    }
    assert a == [room];
    assert SearchFilter([room], 2, 0) == [room] by {
      assert [room][..0] == [];
    }
  }

  // ---------------------------------------------------------------------------
  // create_guest_profile
  // ---------------------------------------------------------------------------

  /** The id of the first guest profile of the user, if any. */
  function GuestOfUser(guests: seq<Guest>, userId: int): (r: Option<int>)
    ensures r.Some? ==> exists k :: 0 <= k < |guests| && guests[k].userId == userId && guests[k].id == r.value
    ensures r.None? <==> forall k :: 0 <= k < |guests| ==> guests[k].userId != userId
  {
    if guests == [] then None
    else if guests[0].userId == userId then Some(guests[0].id)
    else
      assert forall k :: 1 <= k < |guests| ==> guests[k] == guests[1..][k - 1];
      var r := GuestOfUser(guests[1..], userId);
      if r.Some? then
        var k :| 0 <= k < |guests[1..]| && guests[1..][k].userId == userId && guests[1..][k].id == r.value;
        assert guests[k + 1] == guests[1..][k];
        r
      else r
  }

  /** A profile appended for a user who had none is the user's profile. */
  lemma {:induction false} GuestOfUserAppend(guests: seq<Guest>, g: Guest)
    requires GuestOfUser(guests, g.userId).None?
    ensures GuestOfUser(guests + [g], g.userId) == Some(g.id)
  {
    if guests != [] {
      assert (guests + [g])[1..] == guests[1..] + [g];
      assert GuestOfUser(guests[1..], g.userId).None? by {
        forall k | 0 <= k < |guests[1..]| ensures guests[1..][k].userId != g.userId {
          assert guests[1..][k] == guests[k + 1];
        }
      }
      GuestOfUserAppend(guests[1..], g);
    }
  }

  /** Every user has at most one guest profile. */
  predicate OneProfilePerUser(guests: seq<Guest>) {
    forall i, j :: 0 <= i < j < |guests| ==> guests[i].userId != guests[j].userId
  }

  /** create_guest_profile: return the user's existing profile, or insert a
      new one. Afterwards the user's profile is the one returned, so calling
      again returns the same id and changes nothing. */
  method CreateGuestProfile(db: Database, userId: int, name: string, phone: string, address: string) returns (id: int)
    requires db.Valid()
    modifies db`guests
    ensures db.Valid()
    ensures OneProfilePerUser(old(db.guests)) ==> OneProfilePerUser(db.guests)
    ensures GuestOfUser(db.guests, userId) == Some(id)
    ensures match GuestOfUser(old(db.guests), userId)
      case Some(existing) => id == existing && db.guests == old(db.guests)
      case None =>
        id == FreshId(GuestIds(old(db.guests))) &&
        db.guests == old(db.guests) + [Guest(id, userId, name, phone, address)]
  {
    var existing := GuestOfUser(db.guests, userId);
    if existing.Some? {
      return existing.value;
    }
    id := FreshId(GuestIds(db.guests));
    var g := Guest(id, userId, name, phone, address);
    FreshIdKeepsKey(GuestIds(db.guests));
    assert GuestIds(db.guests + [g]) == GuestIds(db.guests) + [id];
    GuestOfUserAppend(db.guests, g);
    db.guests := db.guests + [g];
  }

  // ---------------------------------------------------------------------------
  // cancel_room_service_request
  // ---------------------------------------------------------------------------

  /** The request's booking belongs to the guest (the JOIN on bookings). */
  predicate RequestOwnedBy(bookings: seq<Booking>, r: ServiceRequest, guestId: int) {
    exists k :: 0 <= k < |bookings| && bookings[k].id == r.bookingId && bookings[k].guestId == guestId
  }

  /** The first request row the ownership-checked lookup returns. */
  function FindRequest(requests: seq<ServiceRequest>, bookings: seq<Booking>, requestId: int, guestId: int): (r: Option<ServiceRequest>)
    ensures r.Some? ==> r.value.id == requestId && RequestOwnedBy(bookings, r.value, guestId)
    ensures r.Some? ==> exists k :: 0 <= k < |requests| && requests[k] == r.value
    ensures r.None? <==> forall k :: 0 <= k < |requests| ==>
      !(requests[k].id == requestId && RequestOwnedBy(bookings, requests[k], guestId))
  {
    if requests == [] then None
    else if requests[0].id == requestId && RequestOwnedBy(bookings, requests[0], guestId) then Some(requests[0])
    else
      assert forall k :: 1 <= k < |requests| ==> requests[k] == requests[1..][k - 1];
      var r := FindRequest(requests[1..], bookings, requestId, guestId);
      if r.Some? then
        var k :| 0 <= k < |requests[1..]| && requests[1..][k] == r.value;
        assert requests[k + 1] == r.value;
        r
      else r
  }

  datatype RequestError =
    | InvalidRequest         // "Invalid request"
    | RequestNotCancellable  // "Request cannot be cancelled"

  /** The guards of cancel_room_service_request; None lets it through. */
  function RequestRefusal(requests: seq<ServiceRequest>, bookings: seq<Booking>, requestId: int, guestId: int): Option<RequestError> {
    match FindRequest(requests, bookings, requestId, guestId)
    case None => Some(InvalidRequest)
    case Some(r) =>
      if r.status != RequestPending && r.status != RequestInProgress then Some(RequestNotCancellable) else None
  }

  /** UPDATE room_service SET status = 'cancelled' WHERE id = ?. */
  function CancelRequestRows(requests: seq<ServiceRequest>, requestId: int): (r: seq<ServiceRequest>)
    ensures |r| == |requests|
  {
    seq(|requests|, k requires 0 <= k < |requests| =>
      if requests[k].id == requestId then requests[k].(status := RequestCancelled) else requests[k])
  }

  /** cancel_room_service_request: only the owner may cancel, and only a
      pending or in-progress request. */
  method CancelRoomServiceRequest(db: Database, requestId: int, guestId: int) returns (r: Outcome<RequestError>)
    requires db.Valid()
    modifies db`requests
    ensures db.Valid()
    ensures var refusal := RequestRefusal(old(db.requests), db.bookings, requestId, guestId);
      if refusal.Some? then r == Fail(refusal.value) && db.requests == old(db.requests)
      else r == Pass && db.requests == CancelRequestRows(old(db.requests), requestId)
  {
    var found := FindRequest(db.requests, db.bookings, requestId, guestId);
    if found.None? {
      return Fail(InvalidRequest);
    }
    if found.value.status != RequestPending && found.value.status != RequestInProgress {
      return Fail(RequestNotCancellable);
    }
    assert RequestIds(CancelRequestRows(db.requests, requestId)) == RequestIds(db.requests);
    db.requests := CancelRequestRows(db.requests, requestId);
    return Pass;
  }

  /** A cancelled request cannot be cancelled again, and the cancellation
      touches no other request. */
  lemma CancelRequestSettles(requests: seq<ServiceRequest>, bookings: seq<Booking>, requestId: int, guestId: int)
    requires IsKey(RequestIds(requests))
    requires RequestRefusal(requests, bookings, requestId, guestId) == None
    ensures RequestRefusal(CancelRequestRows(requests, requestId), bookings, requestId, guestId) == Some(RequestNotCancellable)
    ensures forall k :: 0 <= k < |requests| && requests[k].id != requestId ==> CancelRequestRows(requests, requestId)[k] == requests[k]
  {
    var after := CancelRequestRows(requests, requestId);
    var before := FindRequest(requests, bookings, requestId, guestId).value;
    var k :| 0 <= k < |requests| && requests[k] == before;
    assert after[k].id == requestId && RequestOwnedBy(bookings, after[k], guestId);
    var found := FindRequest(after, bookings, requestId, guestId).value;
    var i :| 0 <= i < |after| && after[i] == found;
    assert RequestIds(requests)[i] == RequestIds(requests)[k];
  }
}
