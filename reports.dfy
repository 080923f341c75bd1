/** The two management reports of hotel_management_system/utils/admin_utils.py:
    daily occupancy over a closed range of days, and the revenue the stays
    earn inside a range, in total and per room type. */
module Reports {
  import opened Wrappers
  import opened Tables

  function Max(a: int, b: int): int { if a >= b then a else b }

  function Min(a: int, b: int): int { if a <= b then a else b }

  // ---------------------------------------------------------------------------
  // The booking selection both reports share
  // ---------------------------------------------------------------------------

  /** The WHERE clause as written: AND binds tighter than OR, so the
      cancelled filter guards only the third clause. */
  predicate InReportWindowAsWritten(b: Booking, start: int, end: int) {
    (start <= b.checkIn <= end) || (start <= b.checkOut <= end) ||
    (b.checkIn <= start && b.checkOut >= end && b.status != Cancelled)
  }

  /** The evidently intended selection: a stay touching the range that has not
      been cancelled. */
  predicate InReportWindow(b: Booking, start: int, end: int) {
    ((start <= b.checkIn <= end) || (start <= b.checkOut <= end) || (b.checkIn <= start && b.checkOut >= end)) &&
    b.status != Cancelled
  }

  /** Which WHERE clause a report selects its bookings with: the one in the
      code, or the evidently intended one. */
  datatype Selection = AsWritten | Corrected

  predicate Selected(sel: Selection, b: Booking, start: int, end: int) {
    match sel
    case AsWritten => InReportWindowAsWritten(b, start, end)
    case Corrected => InReportWindow(b, start, end)
  }

  /** The two selections agree on every booking that is not cancelled. */
  lemma WindowsAgreeUnlessCancelled(b: Booking, start: int, end: int)
    requires b.status != Cancelled
    ensures InReportWindowAsWritten(b, start, end) == InReportWindow(b, start, end)
  {
  }

  /** The first room with the id (the JOIN on rooms). */
  function RoomById(rooms: seq<Room>, id: int): Option<Room>
  {
    First(rooms, (r: Room) => r.id == id)
  }

  predicate HasGuest(guests: seq<Guest>, id: int) {
    exists k :: 0 <= k < |guests| && guests[k].id == id
  }

  /** A selected booking and its room. */
  datatype ReportRow = ReportRow(booking: Booking, room: Room)

  /** The bookings the selection keeps that join a room and a guest, in table order. */
  function ReportRows(rooms: seq<Room>, guests: seq<Guest>, bookings: seq<Booking>, start: int, end: int, sel: Selection): (r: seq<ReportRow>)
    ensures |r| <= |bookings|
    ensures forall row :: row in r <==>
      row.booking in bookings && Selected(sel, row.booking, start, end) &&
      HasGuest(guests, row.booking.guestId) && RoomById(rooms, row.booking.roomId) == Some(row.room)
  {
    if bookings == [] then []
    else
      var b := bookings[|bookings| - 1];
      var rest := ReportRows(rooms, guests, bookings[..|bookings| - 1], start, end, sel);
      assert bookings == bookings[..|bookings| - 1] + [b];
      var room := RoomById(rooms, b.roomId);
      if Selected(sel, b, start, end) && HasGuest(guests, b.guestId) && room.Some? then
        rest + [ReportRow(b, room.value)]
      else rest
  }

  /** With the intended selection a cancelled booking never reaches a report:
      adding one leaves the rows as they were. */
  lemma CancelledNeverReported(rooms: seq<Room>, guests: seq<Guest>, bookings: seq<Booking>, b: Booking, start: int, end: int)
    requires b.status == Cancelled
    ensures ReportRows(rooms, guests, bookings + [b], start, end, Corrected) == ReportRows(rooms, guests, bookings, start, end, Corrected)
  {
    assert (bookings + [b])[..|bookings|] == bookings;
  }

  /** The report rows of a single booking. */
  lemma OneBookingRows(rooms: seq<Room>, guests: seq<Guest>, b: Booking, start: int, end: int, sel: Selection)
    ensures ReportRows(rooms, guests, [b], start, end, sel) ==
      if Selected(sel, b, start, end) && HasGuest(guests, b.guestId) && RoomById(rooms, b.roomId).Some?
      then [ReportRow(b, RoomById(rooms, b.roomId).value)] else []
  {
    assert [b][..0] == [];
  }

  /** As written, a cancelled stay that starts inside the range is selected,
      and it then counts as an occupied room on its day. */
  lemma CancelledStayCountedAsWritten()
    ensures var room := Room(1, "101", "single", 10000, 1, Available);
      var b := Booking(1, 1, 1, 10, 11, Cancelled);
      var rows := ReportRows([room], [Guest(1, 1, "Ann", "555-123-4567", "1 Main St")], [b], 10, 12, AsWritten);
      rows == [ReportRow(b, room)] && OccupiedOn(rows, 10) == 1 &&
      ReportRows([room], [Guest(1, 1, "Ann", "555-123-4567", "1 Main St")], [b], 10, 12, Corrected) == []
  {
    var room := Room(1, "101", "single", 10000, 1, Available);
    var guests := [Guest(1, 1, "Ann", "555-123-4567", "1 Main St")];
    var b := Booking(1, 1, 1, 10, 11, Cancelled);
    assert HasGuest(guests, 1) by {
      assert guests[0].id == 1;
    }
    assert RoomById([room], 1) == Some(room);
    OneBookingRows([room], guests, b, 10, 12, AsWritten);
    OneBookingRows([room], guests, b, 10, 12, Corrected);
    var rows := [ReportRow(b, room)];
    assert rows[..0] == [];
  }

  /** Without cancelled bookings the written and the intended selection give
      the same report rows. */
  lemma {:induction false} SelectionsAgreeWithoutCancelled(rooms: seq<Room>, guests: seq<Guest>, bookings: seq<Booking>, start: int, end: int)
    requires forall k :: 0 <= k < |bookings| ==> bookings[k].status != Cancelled
    ensures ReportRows(rooms, guests, bookings, start, end, AsWritten) == ReportRows(rooms, guests, bookings, start, end, Corrected)
  {
    if bookings != [] {
      var b := bookings[|bookings| - 1];
      SelectionsAgreeWithoutCancelled(rooms, guests, bookings[..|bookings| - 1], start, end);
      WindowsAgreeUnlessCancelled(b, start, end);
    }
  }

  // ---------------------------------------------------------------------------
  // generate_occupancy_report
  // ---------------------------------------------------------------------------

  /** The number of selected stays occupying a room on the night of day d. */
  function OccupiedOn(rows: seq<ReportRow>, d: int): (n: nat)
    ensures n <= |rows|
  {
    if rows == [] then 0
    else
      var b := rows[|rows| - 1].booking;
      OccupiedOn(rows[..|rows| - 1], d) + (if b.checkIn <= d < b.checkOut then 1 else 0)
  }

  /** occupied / total * 100, or 0 for a hotel without rooms (rounding to two
      decimals is not modelled). */
  function Rate(occupied: nat, total: nat): (r: real)
    ensures r >= 0.0
    ensures total > 0 ==> (r <= 100.0 <==> occupied <= total)
    ensures total == 0 ==> r == 0.0
  {
    if total > 0 then occupied as real / total as real * 100.0 else 0.0
  }

  datatype DayOccupancy = DayOccupancy(day: int, occupied: nat, total: nat, rate: real)

  datatype OccupancyReport = OccupancyReport(
    startDate: int, endDate: int, rows: seq<ReportRow>, dates: seq<int>, daily: seq<DayOccupancy>, average: real)

  /** The day of the range [start, end] with the given offset. */
  function DaysFrom(start: int, end: int): (r: seq<int>)
    ensures |r| == if end >= start then end - start + 1 else 0
    ensures forall k :: 0 <= k < |r| ==> r[k] == start + k
  {
    seq(if end >= start then end - start + 1 else 0, k => start + k)
  }

  function SumRates(daily: seq<DayOccupancy>): real {
    if daily == [] then 0.0 else SumRates(daily[..|daily| - 1]) + daily[|daily| - 1].rate
  }

  /** The mean of the daily rates, 0 for an empty range. */
  function MeanRate(daily: seq<DayOccupancy>): real {
    if daily == [] then 0.0 else SumRates(daily) / |daily| as real
  }

  /** The entries a report shows for the days of its range. */
  predicate DailyCounts(daily: seq<DayOccupancy>, rows: seq<ReportRow>, start: int, total: nat) {
    forall k :: 0 <= k < |daily| ==>
      daily[k] == DayOccupancy(start + k, OccupiedOn(rows, start + k), total, Rate(OccupiedOn(rows, start + k), total))
  }

  /** The inner loop of the occupancy report: count the stays covering the night of day d. */
  method CountOccupied(rows: seq<ReportRow>, d: int) returns (occupied: nat)
    ensures occupied == OccupiedOn(rows, d)
  {
    occupied := 0;
    var i := 0;
    while i < |rows|
      invariant 0 <= i <= |rows|
      invariant occupied == OccupiedOn(rows[..i], d)
    {
      assert rows[..i + 1][..i] == rows[..i];
      var b := rows[i].booking;
      if b.checkIn <= d < b.checkOut {
        occupied := occupied + 1;
      }
      i := i + 1;
    }
    assert rows[..i] == rows;
  }

  /** The day loop of the occupancy report: the days of [start, end] and, for
      each, the stays covering that night, the room count and the rate. */
  method DailyOccupancy(rows: seq<ReportRow>, start: int, end: int, total: nat) returns (dates: seq<int>, daily: seq<DayOccupancy>)
    ensures dates == DaysFrom(start, end)
    ensures |daily| == |dates| && DailyCounts(daily, rows, start, total)
  {
    dates, daily := [], [];
    var current := start;
    while current <= end
      invariant current == start + |dates| && |daily| == |dates|
      invariant end >= start ==> current <= end + 1
      invariant end < start ==> current == start
      invariant forall k :: 0 <= k < |dates| ==> dates[k] == start + k
      invariant DailyCounts(daily, rows, start, total)
      decreases end - current
    {
      dates := dates + [current];
      var occupied := CountOccupied(rows, current);
      daily := daily + [DayOccupancy(current, occupied, total, Rate(occupied, total))];
      current := current + 1;
    }
  }

  /** generate_occupancy_report: for each day of [start, end], the number of
      selected stays that cover that night, the room count and the rate; and
      the average of the rates. With `AsWritten` this is the report the code
      produces, cancelled stays included; with `Corrected` the intended one. */
  method GenerateOccupancyReport(db: Database, start: int, end: int, sel: Selection) returns (rep: OccupancyReport)
    ensures rep.startDate == start && rep.endDate == end
    ensures rep.rows == ReportRows(db.rooms, db.guests, db.bookings, start, end, sel)
    ensures rep.dates == DaysFrom(start, end)
    ensures |rep.daily| == |rep.dates| && DailyCounts(rep.daily, rep.rows, start, |db.rooms|)
    ensures rep.average == MeanRate(rep.daily)
  {
    var rows := ReportRows(db.rooms, db.guests, db.bookings, start, end, sel);
    var dates, daily := DailyOccupancy(rows, start, end, |db.rooms|);
    rep := OccupancyReport(start, end, rows, dates, daily, MeanRate(daily));
  }

  /** When no day shows more occupied rooms than the hotel has, every rate
      and the average lie between 0 and 100. */
  lemma AverageWithinBounds(daily: seq<DayOccupancy>)
    requires forall k :: 0 <= k < |daily| ==> 0.0 <= daily[k].rate <= 100.0
    ensures 0.0 <= MeanRate(daily) <= 100.0
    ensures daily == [] ==> MeanRate(daily) == 0.0
  {
    SumRatesBounds(daily);
  }

  lemma {:induction false} SumRatesBounds(daily: seq<DayOccupancy>)
    requires forall k :: 0 <= k < |daily| ==> 0.0 <= daily[k].rate <= 100.0
    ensures 0.0 <= SumRates(daily) <= 100.0 * |daily| as real
  {
    if daily != [] {
      SumRatesBounds(daily[..|daily| - 1]);
    }
  }

  // ---------------------------------------------------------------------------
  // generate_revenue_report
  // ---------------------------------------------------------------------------

  /** The nights of the stay between start (inclusive) and end (exclusive). */
  function Nights(b: Booking, start: int, end: int): (n: nat)
    ensures n <= Max(0, end - start) && n <= Max(0, b.checkOut - b.checkIn)
    ensures start <= b.checkIn && b.checkIn <= b.checkOut <= end ==> n == b.checkOut - b.checkIn
  {
    var lo := Max(b.checkIn, start);
    var hi := Min(b.checkOut, end);
    if lo < hi then hi - lo else 0
  }

  function Revenue(row: ReportRow, start: int, end: int): int {
    Nights(row.booking, start, end) * row.room.price
  }

  function TotalRevenue(rows: seq<ReportRow>, start: int, end: int): int {
    if rows == [] then 0 else TotalRevenue(rows[..|rows| - 1], start, end) + Revenue(rows[|rows| - 1], start, end)
  }

  /** The revenue of the rows whose room has the type. */
  function KindRevenue(rows: seq<ReportRow>, kind: string, start: int, end: int): int {
    if rows == [] then 0
    else
      var last := rows[|rows| - 1];
      KindRevenue(rows[..|rows| - 1], kind, start, end) + (if last.room.kind == kind then Revenue(last, start, end) else 0)
  }

  datatype TypeRevenue = TypeRevenue(kind: string, amount: int)

  /** The dictionary update: add to the type's entry, or append a new entry. */
  function AddRevenue(acc: seq<TypeRevenue>, kind: string, amount: int): (r: seq<TypeRevenue>)
    ensures |r| >= |acc|
  {
    if acc == [] then [TypeRevenue(kind, amount)]
    else if acc[0].kind == kind then [acc[0].(amount := acc[0].amount + amount)] + acc[1..]
    else [acc[0]] + AddRevenue(acc[1..], kind, amount)
  }

  /** The revenue_by_room_type dictionary, in insertion order. */
  function ByType(rows: seq<ReportRow>, start: int, end: int): seq<TypeRevenue> {
    if rows == [] then []
    else
      var last := rows[|rows| - 1];
      AddRevenue(ByType(rows[..|rows| - 1], start, end), last.room.kind, Revenue(last, start, end))
  }

  function SumAmounts(acc: seq<TypeRevenue>): int {
    if acc == [] then 0 else acc[0].amount + SumAmounts(acc[1..])
  }

  /** The amount a dictionary shows for a type, 0 without an entry. */
  function AmountOf(acc: seq<TypeRevenue>, kind: string): int {
    if acc == [] then 0 else (if acc[0].kind == kind then acc[0].amount else 0) + AmountOf(acc[1..], kind)
  }

  predicate DistinctKinds(acc: seq<TypeRevenue>) {
    forall i, j :: 0 <= i < j < |acc| ==> acc[i].kind != acc[j].kind
  }

  predicate HasKind(acc: seq<TypeRevenue>, kind: string) {
    exists k :: 0 <= k < |acc| && acc[k].kind == kind
  }

  lemma {:induction false} AddRevenueSum(acc: seq<TypeRevenue>, kind: string, amount: int)
    ensures SumAmounts(AddRevenue(acc, kind, amount)) == SumAmounts(acc) + amount
  {
    if acc != [] && acc[0].kind != kind {
      AddRevenueSum(acc[1..], kind, amount);
    }
  }

  lemma {:induction false} AddRevenueAmount(acc: seq<TypeRevenue>, kind: string, amount: int, k: string)
    ensures AmountOf(AddRevenue(acc, kind, amount), k) == AmountOf(acc, k) + (if k == kind then amount else 0)
  {
    if acc != [] && acc[0].kind != kind {
      AddRevenueAmount(acc[1..], kind, amount, k);
    }
  }

  lemma HasKindCons(acc: seq<TypeRevenue>, k: string)
    requires acc != []
    ensures HasKind(acc, k) <==> acc[0].kind == k || HasKind(acc[1..], k)
  {
    if HasKind(acc[1..], k) {
      var j :| 0 <= j < |acc[1..]| && acc[1..][j].kind == k;
      assert acc[j + 1] == acc[1..][j];
    }
    if HasKind(acc, k) && acc[0].kind != k {
      var j :| 0 <= j < |acc| && acc[j].kind == k;
      assert acc[1..][j - 1] == acc[j];
    }
  }

  lemma {:induction false} AddRevenueKinds(acc: seq<TypeRevenue>, kind: string, amount: int, k: string)
    ensures HasKind(AddRevenue(acc, kind, amount), k) <==> HasKind(acc, k) || k == kind
  {
    var r := AddRevenue(acc, kind, amount);
    if acc != [] {
      HasKindCons(acc, k);
      HasKindCons(r, k);
      if acc[0].kind == kind {
        assert r[1..] == acc[1..];
      } else {
        assert r[1..] == AddRevenue(acc[1..], kind, amount);
        AddRevenueKinds(acc[1..], kind, amount, k);
      }
    } else {
      assert r[0].kind == kind;
    }
  }

  lemma {:induction false} AddRevenueDistinct(acc: seq<TypeRevenue>, kind: string, amount: int)
    requires DistinctKinds(acc)
    ensures DistinctKinds(AddRevenue(acc, kind, amount))
  {
    var r := AddRevenue(acc, kind, amount);
    if acc != [] {
      var tail := acc[1..];
      if acc[0].kind == kind {
        assert r[1..] == tail;
      } else {
        var t := AddRevenue(tail, kind, amount);
        assert DistinctKinds(tail);
        AddRevenueDistinct(tail, kind, amount);
        assert r[1..] == t;
        assert !HasKind(tail, acc[0].kind) by {
          forall j | 0 <= j < |tail| ensures tail[j].kind != acc[0].kind {
            assert tail[j] == acc[j + 1];
          }
        }
        AddRevenueKinds(tail, kind, amount, acc[0].kind);
        forall i, j | 0 <= i < j < |r| ensures r[i].kind != r[j].kind {
          if i == 0 {
            assert t[j - 1] == r[j];
          } else {
            assert r[i] == t[i - 1] && r[j] == t[j - 1];
          }
        }
      }
    }
  }

  /** Some selected row's room has the type. */
  predicate RowsHaveKind(rows: seq<ReportRow>, kind: string) {
    exists i :: 0 <= i < |rows| && rows[i].room.kind == kind
  }

  lemma RowsHaveKindSnoc(rows: seq<ReportRow>, k: string)
    requires rows != []
    ensures RowsHaveKind(rows, k) <==> RowsHaveKind(rows[..|rows| - 1], k) || rows[|rows| - 1].room.kind == k
  {
    var init := rows[..|rows| - 1];
    if RowsHaveKind(init, k) {
      var i :| 0 <= i < |init| && init[i].room.kind == k;
      assert rows[i] == init[i];
    }
    if RowsHaveKind(rows, k) {
      var i :| 0 <= i < |rows| && rows[i].room.kind == k;
      if i < |init| { assert init[i] == rows[i]; }
    }
  }

  /** The per-type dictionary adds up to the total, shows for each type exactly
      that type's revenue, has one entry per type, and lists exactly the types
      of the selected rooms. */
  lemma {:induction false} ByTypeMatchesTotal(rows: seq<ReportRow>, start: int, end: int)
    ensures SumAmounts(ByType(rows, start, end)) == TotalRevenue(rows, start, end)
    ensures forall k :: AmountOf(ByType(rows, start, end), k) == KindRevenue(rows, k, start, end)
    ensures DistinctKinds(ByType(rows, start, end))
    ensures forall k :: HasKind(ByType(rows, start, end), k) <==> RowsHaveKind(rows, k)
  {
    if rows != [] {
      var init := rows[..|rows| - 1];
      var last := rows[|rows| - 1];
      var acc := ByType(init, start, end);
      ByTypeMatchesTotal(init, start, end);
      AddRevenueSum(acc, last.room.kind, Revenue(last, start, end));
      AddRevenueDistinct(acc, last.room.kind, Revenue(last, start, end));
      forall k ensures AmountOf(ByType(rows, start, end), k) == KindRevenue(rows, k, start, end) {
        AddRevenueAmount(acc, last.room.kind, Revenue(last, start, end), k);
      }
      forall k ensures HasKind(ByType(rows, start, end), k) <==> RowsHaveKind(rows, k) {
        AddRevenueKinds(acc, last.room.kind, Revenue(last, start, end), k);
        RowsHaveKindSnoc(rows, k);
      }
    }
  }

  datatype RevenueRow = RevenueRow(row: ReportRow, nights: nat, revenue: int)

  datatype RevenueReport = RevenueReport(
    startDate: int, endDate: int, rows: seq<RevenueRow>, totalRevenue: int, byType: seq<TypeRevenue>)

  /** Each selected row with its nights inside the range and its revenue. */
  predicate PricedRows(out: seq<RevenueRow>, rows: seq<ReportRow>, start: int, end: int) {
    |out| == |rows| &&
    forall k :: 0 <= k < |rows| ==>
      out[k] == RevenueRow(rows[k], Nights(rows[k].booking, start, end), Revenue(rows[k], start, end))
  }

  /** The inner loop of the revenue report: step a day at a time from the later
      of check-in and start to the earlier of check-out and end. */
  method CountNights(b: Booking, start: int, end: int) returns (days: nat)
    ensures days == Nights(b, start, end)
  {
    days := 0;
    var current := Max(b.checkIn, start);
    var stop := Min(b.checkOut, end);
    while current < stop
      invariant Max(b.checkIn, start) <= current
      invariant days == current - Max(b.checkIn, start)
      invariant current <= Max(Max(b.checkIn, start), stop)
      decreases stop - current
    {
      days := days + 1;
      current := current + 1;
    }
  }

  /** The loop of the revenue report over the selected rows: each row's nights
      and revenue, the running total and the per-type dictionary. */
  method PriceRows(rows: seq<ReportRow>, start: int, end: int) returns (out: seq<RevenueRow>, total: int, byType: seq<TypeRevenue>)
    ensures PricedRows(out, rows, start, end)
    ensures total == TotalRevenue(rows, start, end)
    ensures byType == ByType(rows, start, end)
  {
    out, total, byType := [], 0, [];
    var i := 0;
    while i < |rows|
      invariant 0 <= i <= |rows|
      invariant PricedRows(out, rows[..i], start, end)
      invariant total == TotalRevenue(rows[..i], start, end)
      invariant byType == ByType(rows[..i], start, end)
    {
      assert rows[..i + 1][..i] == rows[..i];
      var b := rows[i].booking;
      var days := CountNights(b, start, end);
      var revenue := days * rows[i].room.price;
      out := out + [RevenueRow(rows[i], days, revenue)];
      total := total + revenue;
      byType := AddRevenue(byType, rows[i].room.kind, revenue);
      i := i + 1;
    }
    assert rows[..i] == rows;
  }

  /** generate_revenue_report as intended, over the intended selection and
      with each row copied into a dictionary before its revenue is stored:
      every selected stay earns its nightly price for each night it spends in
      [start, end); the report gives each stay's revenue, the total and the
      total per room type. */
  method GenerateRevenueReport(db: Database, start: int, end: int) returns (rep: RevenueReport)
    ensures rep.startDate == start && rep.endDate == end
    ensures PricedRows(rep.rows, ReportRows(db.rooms, db.guests, db.bookings, start, end, Corrected), start, end)
    ensures rep.totalRevenue == TotalRevenue(ReportRows(db.rooms, db.guests, db.bookings, start, end, Corrected), start, end)
    ensures rep.byType == ByType(ReportRows(db.rooms, db.guests, db.bookings, start, end, Corrected), start, end)
  {
    var rows := ReportRows(db.rooms, db.guests, db.bookings, start, end, Corrected);
    var out, total, byType := PriceRows(rows, start, end);
    rep := RevenueReport(start, end, out, total, byType);
  }

  /** generate_revenue_report as the code stands: the selected rows are
      read-only sqlite3.Row objects, so storing the first stay's revenue in its
      row raises, and a report is returned only when nothing is selected. */
  method GenerateRevenueReportAsWritten(db: Database, start: int, end: int) returns (r: Result<RevenueReport, RowError>)
    ensures r.Err? <==> ReportRows(db.rooms, db.guests, db.bookings, start, end, AsWritten) != []
    ensures r.Ok? ==> r.value == RevenueReport(start, end, [], 0, [])
  {
    var rows := ReportRows(db.rooms, db.guests, db.bookings, start, end, AsWritten);
    if rows != [] {
      return Err(ReadOnlyRow);
    }
    r := Ok(RevenueReport(start, end, [], 0, []));
  }

  /** As written, any stay the intended report would bill makes the revenue
      report raise: every booking the intended selection keeps, with its guest
      and room on file, is also selected as written. */
  lemma RevenueRaisesOnAnyStay(rooms: seq<Room>, guests: seq<Guest>, bookings: seq<Booking>, start: int, end: int)
    ensures ReportRows(rooms, guests, bookings, start, end, Corrected) != [] ==>
      ReportRows(rooms, guests, bookings, start, end, AsWritten) != []
  {
  }

  /** A confirmed stay of days 10–11 in the range 10..12 is selected as
      written, so the revenue report raises on it. */
  lemma RevenueRaisesExample()
    ensures ReportRows([Room(1, "101", "single", 10000, 1, Occupied)], [Guest(1, 1, "Ann", "555-123-4567", "1 Main St")],
      [Booking(1, 1, 1, 10, 11, Confirmed)], 10, 12, AsWritten) != []
  {
    var room := Room(1, "101", "single", 10000, 1, Occupied);
    var guests := [Guest(1, 1, "Ann", "555-123-4567", "1 Main St")];
    var b := Booking(1, 1, 1, 10, 11, Confirmed);
    assert HasGuest(guests, 1) by {
      assert guests[0].id == 1;
    }
    assert RoomById([room], 1) == Some(room);
    OneBookingRows([room], guests, b, 10, 12, AsWritten);
  }

  // ---------------------------------------------------------------------------
  // The two reports agree
  // ---------------------------------------------------------------------------

  function TotalNights(rows: seq<ReportRow>, start: int, end: int): nat {
    if rows == [] then 0 else TotalNights(rows[..|rows| - 1], start, end) + Nights(rows[|rows| - 1].booking, start, end)
  }

  /** The occupied rooms summed over the nights of [start, end). */
  function RoomNights(rows: seq<ReportRow>, start: int, end: int): nat
    decreases end - start
  {
    if end <= start then 0 else RoomNights(rows, start, end - 1) + OccupiedOn(rows, end - 1)
  }

  lemma {:induction false} TotalNightsStep(rows: seq<ReportRow>, start: int, end: int)
    requires start < end
    ensures TotalNights(rows, start, end) == TotalNights(rows, start, end - 1) + OccupiedOn(rows, end - 1)
  {
    if rows != [] {
      TotalNightsStep(rows[..|rows| - 1], start, end);
    }
  }

  lemma {:induction false} TotalNightsEmptyRange(rows: seq<ReportRow>, start: int, end: int)
    requires end <= start
    ensures TotalNights(rows, start, end) == 0
  {
    if rows != [] {
      TotalNightsEmptyRange(rows[..|rows| - 1], start, end);
    }
  }

  /** The nights the revenue report charges are the occupied room-nights the
      occupancy report counts on the days start .. end - 1. */
  lemma {:induction false} RevenueNightsAreOccupiedNights(rows: seq<ReportRow>, start: int, end: int)
    ensures TotalNights(rows, start, end) == RoomNights(rows, start, end)
    decreases end - start
  {
    if end <= start {
      TotalNightsEmptyRange(rows, start, end);
    } else {
      RevenueNightsAreOccupiedNights(rows, start, end - 1);
      TotalNightsStep(rows, start, end);
    }
  }
}
