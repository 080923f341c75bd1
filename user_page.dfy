/** The guest pages' date helpers and form rules in
    hotel_management_system/static/js/user.js: formatDate, the booking form's
    date pickers and submit check, the room filter, month navigation and the
    calendar grid, and the profile form's checks. Dates are day numbers;
    "today" and the browser's offset from UTC are parameters. */
module UserPage {
  import opened Text
  import opened Wrappers
  import opened Tables
  import Reservations
  import FoodPage

  // ---------------------------------------------------------------------------
  // formatDate
  // ---------------------------------------------------------------------------

  /** A local calendar date as Date exposes it: full year, month 0..11
      (getMonth) and day of the month 1..31 (getDate). */
  datatype CivilDate = CivilDate(year: int, month: int, day: int)

  /** `YYYY-MM-DD`: the year as String renders it, month + 1 and day padded
      to two digits. */
  function FormatDate(d: CivilDate): string {
    IntToString(d.year) + "-" + Pad2(IntToString(d.month + 1)) + "-" + Pad2(IntToString(d.day))
  }

  lemma {:induction false} ParseNatLeadingZero(s: string)
    requires AllDigits(s)
    ensures AllDigits("0" + s) && ParseNat("0" + s) == ParseNat(s)
    decreases |s|
  {
    if s != [] {
      assert ("0" + s)[..|"0" + s| - 1] == "0" + s[..|s| - 1];
      ParseNatLeadingZero(s[..|s| - 1]);
    } else {
      assert ("0" + s)[..0] == [];
    }
  }

  /** Two padded digits read back as the number. */
  lemma Pad2ReadBack(n: nat)
    requires n < 100
    ensures |Pad2(NatToString(n))| == 2 && AllDigits(Pad2(NatToString(n)))
    ensures ParseNat(Pad2(NatToString(n))) == n
  {
    ParseNatToString(n);
    if n < 10 {
      ParseNatLeadingZero(NatToString(n));
    } else {
      assert NatToString(n) == NatToString(n / 10) + [DigitChar(n % 10)];
    }
  }

  /** For a four-digit year the result is exactly `YYYY-MM-DD`, and its three
      fields parse back to the year, month + 1 and day. */
  lemma FormatDateReadBack(d: CivilDate)
    requires 1000 <= d.year <= 9999 && 0 <= d.month < 12 && 1 <= d.day <= 31
    ensures |FormatDate(d)| == 10 && FormatDate(d)[4] == '-' && FormatDate(d)[7] == '-'
    ensures AllDigits(FormatDate(d)[..4]) && AllDigits(FormatDate(d)[5..7]) && AllDigits(FormatDate(d)[8..])
    ensures ParseNat(FormatDate(d)[..4]) == d.year
    ensures ParseNat(FormatDate(d)[5..7]) == d.month + 1
    ensures ParseNat(FormatDate(d)[8..]) == d.day
  {
    var y := NatToString(d.year);
    var m := Pad2(NatToString(d.month + 1));
    var dd := Pad2(NatToString(d.day));
    FourDigits(d.year);
    ParseNatToString(d.year);
    Pad2ReadBack(d.month + 1);
    Pad2ReadBack(d.day);
    assert FormatDate(d) == y + "-" + m + "-" + dd;
    DatePieces(y, m, dd);
  }

  /** Where the three fields sit in `YYYY-MM-DD`. */
  lemma DatePieces(y: string, m: string, dd: string)
    requires |y| == 4 && |m| == 2 && |dd| == 2
    ensures var s := y + "-" + m + "-" + dd;
      |s| == 10 && s[4] == '-' && s[7] == '-' && s[..4] == y && s[5..7] == m && s[8..] == dd
  {
    var s := y + "-" + m + "-" + dd;
    assert s[..4] == y;
    assert s[5..7] == m;
    assert s[8..] == dd;
  }

  // ---------------------------------------------------------------------------
  // The booking form's date pickers
  // ---------------------------------------------------------------------------

  /** The two pickers: their values (None when empty) and minimums; a
      minimum computed from an invalid date is None. */
  datatype DateFields = DateFields(checkIn: Option<int>, checkOut: Option<int>, checkInMin: int, checkOutMin: Option<int>)

  /** On load: check-in may not be before today nor check-out before
      tomorrow, and empty pickers default to those two days. */
  function OpenBookingForm(today: int, checkIn: Option<int>, checkOut: Option<int>): (f: DateFields)
    ensures f.checkInMin == today && f.checkOutMin == Some(today + 1)
    ensures f.checkIn.Some? && f.checkOut.Some?
    ensures checkIn.Some? ==> f.checkIn == checkIn
    ensures checkOut.Some? ==> f.checkOut == checkOut
  {
    DateFields(
      if checkIn.None? then Some(today) else checkIn,
      if checkOut.None? then Some(today + 1) else checkOut,
      today, Some(today + 1))
  }

  /** The local day that the check-in handler takes for "the day after": the
      picked date is parsed as UTC midnight, and getDate/setDate then work on
      the local date of that instant, `offset` seconds from UTC. */
  function NextDayAsWritten(checkIn: int, offset: int): int {
    (checkIn * SecondsPerDay + offset) / SecondsPerDay + 1
  }

  /** In a zone west of UTC the "next day" is the picked day itself; at UTC or
      east of it, it is the day after. */
  lemma NextDayAsWrittenByZone(checkIn: int, offset: int)
    requires -SecondsPerDay < offset < SecondsPerDay
    ensures NextDayAsWritten(checkIn, offset) == if offset < 0 then checkIn else checkIn + 1
  {
    var t := checkIn * SecondsPerDay + offset;
    if offset < 0 {
      assert (checkIn - 1) * SecondsPerDay <= t < checkIn * SecondsPerDay;
      assert t / SecondsPerDay == checkIn - 1;
    } else {
      assert checkIn * SecondsPerDay <= t < (checkIn + 1) * SecondsPerDay;
      assert t / SecondsPerDay == checkIn;
    }
  }

  /** The check-in change handler as written: a change to an empty value
      leaves no usable minimum and no comparison; otherwise the minimum
      becomes the computed next day and a check-out on or before the new
      check-in is moved to it. */
  function CheckInChangeAsWritten(f: DateFields, checkIn: Option<int>, offset: int): DateFields {
    match checkIn
    case None => f.(checkIn := None, checkOutMin := None)
    case Some(ci) =>
      var next := NextDayAsWritten(ci, offset);
      f.(checkIn := Some(ci), checkOutMin := Some(next),
         checkOut := if f.checkOut.Some? && f.checkOut.value <= ci then Some(next) else f.checkOut)
  }

  /** The handler as intended: the next day is the picked day plus one. */
  function CheckInChange(f: DateFields, checkIn: Option<int>): DateFields {
    match checkIn
    case None => f.(checkIn := None, checkOutMin := None)
    case Some(ci) =>
      f.(checkIn := Some(ci), checkOutMin := Some(ci + 1),
         checkOut := if f.checkOut.Some? && f.checkOut.value <= ci then Some(ci + 1) else f.checkOut)
  }

  datatype BookingFormError = NoRoomSelected | CheckOutNotAfterCheckIn

  /** The submit check: a room must be picked, and check-out must come after
      check-in; with an empty picker the Date comparison is false and the
      form goes through. */
  function SubmitCheck(roomSelected: bool, checkIn: Option<int>, checkOut: Option<int>): (r: Outcome<BookingFormError>)
    ensures r == Fail(NoRoomSelected) <==> !roomSelected
    ensures r == Pass <==> roomSelected && (checkIn.Some? && checkOut.Some? ==> checkIn.value < checkOut.value)
  {
    if !roomSelected then Fail(NoRoomSelected)
    else if checkIn.Some? && checkOut.Some? && checkOut.value <= checkIn.value then Fail(CheckOutNotAfterCheckIn)
    else Pass
  }

  /** West of UTC, moving check-in past the chosen check-out sets check-out
      to the check-in day itself, and the form then refuses its own dates. */
  lemma WestOfUtcResetIsInvalid(f: DateFields, checkIn: int, offset: int)
    requires -SecondsPerDay < offset < 0
    requires f.checkOut.Some? && f.checkOut.value <= checkIn
    ensures CheckInChangeAsWritten(f, Some(checkIn), offset).checkOut == Some(checkIn)
    ensures CheckInChangeAsWritten(f, Some(checkIn), offset).checkOutMin == Some(checkIn)
    ensures SubmitCheck(true, Some(checkIn), CheckInChangeAsWritten(f, Some(checkIn), offset).checkOut) == Fail(CheckOutNotAfterCheckIn)
  {
    NextDayAsWrittenByZone(checkIn, offset);
  }

  /** Five hours west of UTC, a check-in of day 20000 with check-out on the
      same day is reset to day 20000 again. */
  lemma WestOfUtcExample()
    ensures CheckInChangeAsWritten(DateFields(Some(19999), Some(20000), 19990, Some(20000)), Some(20000), -18000).checkOut == Some(20000)
  {
    NextDayAsWrittenByZone(20000, -18000);
  }

  /** At UTC and east of it the handler as written is the intended one. */
  lemma EastOfUtcAgrees(f: DateFields, checkIn: Option<int>, offset: int)
    requires 0 <= offset < SecondsPerDay
    ensures CheckInChangeAsWritten(f, checkIn, offset) == CheckInChange(f, checkIn)
  {
    if checkIn.Some? {
      NextDayAsWrittenByZone(checkIn.value, offset);
    }
  }

  /** After a check-in change the check-out minimum is the next day, a
      check-out that already followed check-in is kept, and any check-out
      now follows check-in, so the dates pass the submit check. */
  lemma CheckInChangeKeepsStay(f: DateFields, checkIn: int)
    ensures CheckInChange(f, Some(checkIn)).checkOutMin == Some(checkIn + 1)
    ensures f.checkOut.Some? && f.checkOut.value > checkIn ==> CheckInChange(f, Some(checkIn)).checkOut == f.checkOut
    ensures CheckInChange(f, Some(checkIn)).checkOut.Some? <==> f.checkOut.Some?
    ensures SubmitCheck(true, Some(checkIn), CheckInChange(f, Some(checkIn)).checkOut) == Pass
  {
  }

  /** Dates the form lets through never meet create_booking's first guard. */
  lemma SubmittedDatesAreOrdered(rooms: seq<Room>, bookings: seq<Booking>, roomId: int, checkIn: int, checkOut: int, today: int)
    requires SubmitCheck(true, Some(checkIn), Some(checkOut)) == Pass
    ensures Reservations.BookingRefusal(rooms, bookings, roomId, checkIn, checkOut, today) != Some(Reservations.InvalidDates)
  {
  }

  /** The defaults of an empty form, opened on the browser's local day
      `clientToday`, pass the form and are never out of order; the server,
      whose own day is `serverToday`, refuses them as a past check-in exactly
      when the browser's day is behind its own. */
  lemma OpenedFormIsBookable(rooms: seq<Room>, bookings: seq<Booking>, roomId: int, clientToday: int, serverToday: int)
    ensures SubmitCheck(true, OpenBookingForm(clientToday, None, None).checkIn, OpenBookingForm(clientToday, None, None).checkOut) == Pass
    ensures Reservations.BookingRefusal(rooms, bookings, roomId, clientToday, clientToday + 1, serverToday) != Some(Reservations.InvalidDates)
    ensures Reservations.BookingRefusal(rooms, bookings, roomId, clientToday, clientToday + 1, serverToday) == Some(Reservations.PastCheckIn)
      <==> clientToday < serverToday
  {
  }

  // ---------------------------------------------------------------------------
  // filterRooms
  // ---------------------------------------------------------------------------

  /** What a filter input yields: empty or absent (the `||` default applies),
      a number, or NaN for text parseFloat or parseInt cannot read. */
  datatype Reading = Default | Number(value: real) | NotANumber

  function ValueOr(r: Reading, default: real): Option<real> {
    match r
    case Default => Some(default)
    case Number(v) => Some(v)
    case NotANumber => None
  }

  /** The filter inputs; a missing room-type select is None (undefined). */
  datatype RoomFilters = RoomFilters(minPrice: Reading, maxPrice: Reading, capacity: Reading, roomType: Option<string>)

  datatype RoomCard = RoomCard(price: real, capacity: int, kind: string)

  /** A card is displayed when its price lies in [min, max] (defaults 0 and
      10000), it holds at least the requested guests (default 1), and its
      type is selected; a comparison with NaN is false. */
  predicate RoomCardShown(f: RoomFilters, card: RoomCard) {
    var lo := ValueOr(f.minPrice, 0.0);
    var hi := ValueOr(f.maxPrice, 10000.0);
    var guests := ValueOr(f.capacity, 1.0);
    lo.Some? && hi.Some? && guests.Some? &&
    lo.value <= card.price <= hi.value && card.capacity as real >= guests.value &&
    f.roomType.Some? && FoodPage.Selects(f.roomType.value, card.kind)
  }

  /** filterRooms' forEach over the cards. */
  method FilterRooms(f: RoomFilters, cards: seq<RoomCard>) returns (shown: seq<bool>)
    ensures |shown| == |cards|
    ensures forall i :: 0 <= i < |cards| ==> (shown[i] <==> RoomCardShown(f, cards[i]))
  {
    shown := [];
    var i := 0;
    while i < |cards|
      invariant 0 <= i <= |cards| && |shown| == i
      invariant forall k :: 0 <= k < i ==> (shown[k] <==> RoomCardShown(f, cards[k]))
    {
      shown := shown + [RoomCardShown(f, cards[i])];
      i := i + 1;
    }
  }

  /** With every input empty and "all" types, exactly the cards priced
      0..10000 that sleep at least one are displayed. */
  lemma DefaultFiltersShow(card: RoomCard)
    ensures RoomCardShown(RoomFilters(Default, Default, Default, Some("all")), card) <==>
      0.0 <= card.price <= 10000.0 && card.capacity >= 1
  {
  }

  /** Without a room-type select, or with an unreadable number, no card is
      displayed. */
  lemma UnreadableFiltersHideAll(f: RoomFilters, card: RoomCard)
    requires f.roomType.None? || f.minPrice.NotANumber? || f.maxPrice.NotANumber? || f.capacity.NotANumber?
    ensures !RoomCardShown(f, card)
  {
  }

  /** Raising the minimum price or the guest count only hides cards. */
  lemma FiltersNarrow(f: RoomFilters, card: RoomCard, lo: real, guests: real)
    requires RoomCardShown(f.(minPrice := Number(lo), capacity := Number(guests)), card)
    requires ValueOr(f.minPrice, 0.0).Some? && ValueOr(f.minPrice, 0.0).value <= lo
    requires ValueOr(f.capacity, 1.0).Some? && ValueOr(f.capacity, 1.0).value <= guests
    ensures RoomCardShown(f, card)
  {
  }

  // ---------------------------------------------------------------------------
  // Month navigation
  // ---------------------------------------------------------------------------

  /** The calendar's `data-date`: `<month>-<year>`. */
  function DataDate(month: int, year: int): string {
    IntToString(month) + "-" + IntToString(year)
  }

  /** The text before the first '-' (split('-')[0]). */
  function BeforeDash(s: string): (r: string)
    ensures |r| <= |s|
  {
    if s == [] || s[0] == '-' then [] else [s[0]] + BeforeDash(s[1..])
  }

  /** The text after the first '-'. */
  function AfterDash(s: string): (r: string)
    ensures |r| <= |s|
  {
    if s == [] then [] else if s[0] == '-' then s[1..] else AfterDash(s[1..])
  }

  lemma {:induction false} SplitAtDash(a: string, b: string)
    requires AllDigits(a)
    ensures BeforeDash(a + "-" + b) == a && AfterDash(a + "-" + b) == b
    ensures BeforeDash(a) == a
    decreases |a|
  {
    if a != [] {
      assert (a + "-" + b)[1..] == a[1..] + "-" + b;
      SplitAtDash(a[1..], b);
    } else {
      assert a + "-" + b == "-" + b;
    }
  }

  /** The buttons read back the month and year that renderCalendar wrote. */
  lemma DataDateReadBack(month: nat, year: nat)
    ensures BeforeDash(DataDate(month, year)) == NatToString(month)
    ensures BeforeDash(AfterDash(DataDate(month, year))) == NatToString(year)
    ensures ParseNat(NatToString(month)) == month && ParseNat(NatToString(year)) == year
  {
    SplitAtDash(NatToString(month), NatToString(year));
    SplitAtDash(NatToString(year), "");
    ParseNatToString(month);
    ParseNatToString(year);
  }

  function PrevMonth(month: int, year: int): (int, int) {
    if month - 1 < 0 then (11, year - 1) else (month - 1, year)
  }

  function NextMonth(month: int, year: int): (int, int) {
    if month + 1 > 11 then (0, year + 1) else (month + 1, year)
  }

  /** Months counted from year 0. */
  function MonthIndex(month: int, year: int): int {
    12 * year + month
  }

  /** The previous-month button steps exactly one month back, the next-month
      button one forward, and both stay within 0..11. */
  lemma MonthSteps(month: int, year: int)
    requires 0 <= month < 12
    ensures 0 <= PrevMonth(month, year).0 < 12 && 0 <= NextMonth(month, year).0 < 12
    ensures MonthIndex(PrevMonth(month, year).0, PrevMonth(month, year).1) == MonthIndex(month, year) - 1
    ensures MonthIndex(NextMonth(month, year).0, NextMonth(month, year).1) == MonthIndex(month, year) + 1
  {
  }

  /** Next after previous, and previous after next, are the identity. */
  lemma NavigationInverse(month: int, year: int)
    requires 0 <= month < 12
    ensures NextMonth(PrevMonth(month, year).0, PrevMonth(month, year).1) == (month, year)
    ensures PrevMonth(NextMonth(month, year).0, NextMonth(month, year).1) == (month, year)
  {
  }

  // ---------------------------------------------------------------------------
  // The calendar grid
  // ---------------------------------------------------------------------------

  /** `new Date(year, ...)` reads a year of 0..99 as 1900..1999. */
  function DateYear(year: int): int {
    if 0 <= year <= 99 then 1900 + year else year
  }

  predicate IsLeapYear(y: int) {
    y % 4 == 0 && (y % 100 != 0 || y % 400 == 0)
  }

  /** `new Date(year, month + 1, 0).getDate()` in the Gregorian calendar. */
  function DaysInMonth(year: int, month: int): (n: int)
    requires 0 <= month < 12
    ensures 28 <= n <= 31
  {
    if month == 1 then (if IsLeapYear(year) then 29 else 28)
    else if month == 3 || month == 5 || month == 8 || month == 10 then 30
    else 31
  }

  function MonthOffset(month: int): int
    requires 0 <= month < 12
  {
    [0, 3, 2, 5, 0, 3, 5, 1, 4, 6, 2, 4][month]
  }

  /** The weekday shift that the years before `y` contribute. */
  function WeekBase(y: int): int {
    y + y / 4 - y / 100 + y / 400
  }

  /** `new Date(year, month, day).getDay()`: 0 for Sunday to 6 for Saturday,
      by Sakamoto's rule for the proleptic Gregorian calendar (January and
      February count with the year before). */
  function Weekday(year: int, month: int, day: int): (w: int)
    requires 0 <= month < 12
    ensures 0 <= w < 7
  {
    (WeekBase(if month < 2 then year - 1 else year) + MonthOffset(month) + day) % 7
  }

  lemma ModSeven(x: int, x2: int, days: int)
    requires (x2 - (x + days)) % 7 == 0
    ensures x2 % 7 == (x % 7 + days) % 7
  {
    var q := (x2 - (x + days)) / 7;
    assert x2 == x + days + 7 * q;
    var r := x % 7;
    assert x == 7 * (x / 7) + r;
    assert x2 == r + days + 7 * (q + x / 7);
  }

  lemma QuarterStep(y: int)
    ensures y / 4 - (y - 1) / 4 == if y % 4 == 0 then 1 else 0
  {
  }

  lemma CenturyStep(y: int)
    ensures y / 100 - (y - 1) / 100 == if y % 100 == 0 then 1 else 0
  {
  }

  lemma FourCenturyStep(y: int)
    ensures y / 400 - (y - 1) / 400 == if y % 400 == 0 then 1 else 0
  {
  }

  /** A multiple of 400 is a multiple of 100. */
  lemma FourCenturiesDivide(y: int)
    requires y % 400 == 0
    ensures y % 100 == 0
  {
    var q := y / 400;
    assert y == 100 * (4 * q);
  }

  /** A multiple of 100 is a multiple of 4. */
  lemma CenturyDivides(y: int)
    requires y % 100 == 0
    ensures y % 4 == 0
  {
    var q := y / 100;
    assert y == 4 * (25 * q);
  }

  /** A year adds one weekday, two when it is a leap year. */
  lemma WeekBaseStep(y: int)
    ensures WeekBase(y) - WeekBase(y - 1) == if IsLeapYear(y) then 2 else 1
  {
    QuarterStep(y);
    CenturyStep(y);
    FourCenturyStep(y);
    if y % 400 == 0 {
      FourCenturiesDivide(y);
    }
    if y % 100 == 0 {
      CenturyDivides(y);
    }
  }

  /** Month by month, the table of offsets advances by the month's length
      modulo 7; `shift` is what the year base adds in between (one weekday,
      two in a leap year, when February ends). */
  lemma OffsetStep(year: int, month: int, delta: int)
    requires 0 <= month < 12
    requires delta == (if month == 1 then (if IsLeapYear(year) then 2 else 1) else 0) +
      MonthOffset(NextMonth(month, year).0) - MonthOffset(month) - DaysInMonth(year, month)
    ensures delta % 7 == 0
  {
  }

  /** The year base the weekday rule uses for the month after, compared with
      this month's. */
  lemma BaseStep(year: int, month: int)
    requires 0 <= month < 12
    ensures var m2 := NextMonth(month, year).0;
      var y2 := NextMonth(month, year).1;
      WeekBase(if m2 < 2 then y2 - 1 else y2) - WeekBase(if month < 2 then year - 1 else year) ==
        if month == 1 then (if IsLeapYear(year) then 2 else 1) else 0
  {
    if month == 1 {
      WeekBaseStep(year);
    }
  }

  /** The 1st of the next month falls as many weekdays later as this month
      has days: the weekday rule agrees with the month lengths. */
  lemma NextMonthWeekday(year: int, month: int)
    requires 0 <= month < 12
    ensures Weekday(NextMonth(month, year).1, NextMonth(month, year).0, 1) == (Weekday(year, month, 1) + DaysInMonth(year, month)) % 7
  {
    var m2 := NextMonth(month, year).0;
    var y2 := NextMonth(month, year).1;
    var days := DaysInMonth(year, month);
    var b := WeekBase(if month < 2 then year - 1 else year);
    var b2 := WeekBase(if m2 < 2 then y2 - 1 else y2);
    var o := MonthOffset(month);
    var o2 := MonthOffset(m2);
    BaseStep(year, month);
    var shift := b2 - b;
    OffsetStep(year, month, shift + o2 - o - days);
    WeekdayShift(b, b2, o, o2, days);
    FirstWeekday(year, month);
    FirstWeekday(y2, m2);
  }

  lemma FirstWeekday(year: int, month: int)
    requires 0 <= month < 12
    ensures Weekday(year, month, 1) == (WeekBase(if month < 2 then year - 1 else year) + MonthOffset(month) + 1) % 7
  {
  }

  /** The weekday arithmetic behind NextMonthWeekday, on plain numbers. */
  lemma WeekdayShift(b: int, b2: int, o: int, o2: int, days: int)
    requires (b2 - b + o2 - o - days) % 7 == 0
    ensures (b2 + o2 + 1) % 7 == ((b + o + 1) % 7 + days) % 7
  {
    ModSeven(b + o + 1, b2 + o2 + 1, days);
  }

  /** 1 January 1970 was a Thursday. */
  lemma EpochWeekday()
    ensures Weekday(1970, 0, 1) == 4
  {
  }

  datatype Cell = EmptyCell | DayCell(date: int, isToday: bool)

  /** The days laid out before grid position k. */
  function DaysBefore(k: int, firstDay: int, daysInMonth: int): int {
    if k <= firstDay then 0 else if k - firstDay >= daysInMonth then daysInMonth else k - firstDay
  }

  /** Grid position k of the 6 × 7 calendar: blank before the first weekday
      and after the last day, otherwise the day k - firstDay + 1, marked when
      it is today's date in today's month and year. */
  function CalendarCell(k: int, firstDay: int, daysInMonth: int, month: int, year: int, today: CivilDate): Cell {
    var n := k - firstDay + 1;
    if k < firstDay || n > daysInMonth then EmptyCell
    else DayCell(n, n == today.day && month == today.month && year == today.year)
  }

  /** One week row of renderCalendar's inner loop. */
  method RenderWeek(row: int, date: int, firstDay: int, daysInMonth: int, month: int, year: int, today: CivilDate)
    returns (cells: seq<Cell>, next: int)
    requires 0 <= row < 6 && 0 <= firstDay < 7 && daysInMonth >= 0
    requires date == 1 + DaysBefore(7 * row, firstDay, daysInMonth)
    ensures next == 1 + DaysBefore(7 * row + 7, firstDay, daysInMonth)
    ensures |cells| == 7
    ensures forall j :: 0 <= j < 7 ==> cells[j] == CalendarCell(7 * row + j, firstDay, daysInMonth, month, year, today)
  {
    cells := [];
    next := date;
    var j := 0;
    while j < 7
      invariant 0 <= j <= 7 && |cells| == j
      invariant next == 1 + DaysBefore(7 * row + j, firstDay, daysInMonth)
      invariant forall i :: 0 <= i < j ==> cells[i] == CalendarCell(7 * row + i, firstDay, daysInMonth, month, year, today)
    {
      if row == 0 && j < firstDay {
        cells := cells + [EmptyCell];
      } else if next > daysInMonth {
        cells := cells + [EmptyCell];
      } else {
        cells := cells + [DayCell(next, next == today.day && month == today.month && year == today.year)];
        next := next + 1;
      }
      j := j + 1;
    }
  }

  /** renderCalendar: the `data-date` it records and the 42 cells it appends. */
  method RenderCalendar(month: int, year: int, today: CivilDate) returns (dataDate: string, cells: seq<Cell>)
    requires 0 <= month < 12
    ensures dataDate == DataDate(month, year)
    ensures |cells| == 42
    ensures forall k :: 0 <= k < 42 ==>
      cells[k] == CalendarCell(k, Weekday(DateYear(year), month, 1), DaysInMonth(DateYear(year), month), month, year, today)
  {
    var firstDay := Weekday(DateYear(year), month, 1);
    var daysInMonth := DaysInMonth(DateYear(year), month);
    dataDate := DataDate(month, year);
    cells := [];
    var date := 1;
    var row := 0;
    while row < 6
      invariant 0 <= row <= 6 && |cells| == 7 * row
      invariant date == 1 + DaysBefore(7 * row, firstDay, daysInMonth)
      invariant forall k :: 0 <= k < 7 * row ==> cells[k] == CalendarCell(k, firstDay, daysInMonth, month, year, today)
    {
      var week;
      week, date := RenderWeek(row, date, firstDay, daysInMonth, month, year, today);
      cells := cells + week;
      row := row + 1;
    }
  }

  /** Every day of the month appears once, consecutively from the first
      weekday on; the other cells are blank. */
  lemma CalendarDaysOnce(firstDay: int, daysInMonth: int, month: int, year: int, today: CivilDate)
    requires 0 <= firstDay < 7 && 28 <= daysInMonth <= 31
    ensures firstDay + daysInMonth <= 42
    ensures forall k :: 0 <= k < 42 ==>
      (CalendarCell(k, firstDay, daysInMonth, month, year, today).DayCell? <==> firstDay <= k < firstDay + daysInMonth)
    ensures forall k :: 0 <= k < 42 && CalendarCell(k, firstDay, daysInMonth, month, year, today).DayCell? ==>
      CalendarCell(k, firstDay, daysInMonth, month, year, today).date == k - firstDay + 1
  {
  }

  /** Exactly one cell is marked today when today lies in the shown month,
      and none otherwise. */
  lemma TodayMarkedOnce(firstDay: int, daysInMonth: int, month: int, year: int, today: CivilDate, k: int)
    requires 0 <= firstDay < 7 && 28 <= daysInMonth <= 31 && 0 <= k < 42
    ensures (CalendarCell(k, firstDay, daysInMonth, month, year, today).DayCell? &&
             CalendarCell(k, firstDay, daysInMonth, month, year, today).isToday) <==>
      month == today.month && year == today.year && 1 <= today.day <= daysInMonth && k == firstDay + today.day - 1
  {
  }

  // ---------------------------------------------------------------------------
  // The profile form
  // ---------------------------------------------------------------------------

  /** `[-\s]`. */
  predicate IsSeparator(c: char) {
    c == '-' || IsJsSpace(c)
  }

  /** The shapes `^\d{3}[-\s]?\d{3}[-\s]?\d{4}$` accepts: ten digits, with
      one separator allowed after the third and one after the sixth digit. */
  predicate PhoneShape(s: string) {
    (|s| == 10 && AllDigits(s)) ||
    (|s| == 11 && AllDigits(s[..3]) && IsSeparator(s[3]) && AllDigits(s[4..])) ||
    (|s| == 11 && AllDigits(s[..6]) && IsSeparator(s[6]) && AllDigits(s[7..])) ||
    (|s| == 12 && AllDigits(s[..3]) && IsSeparator(s[3]) && AllDigits(s[4..7]) && IsSeparator(s[7]) && AllDigits(s[8..]))
  }

  /** The pattern as a sequence of tokens, read by a small backtracking
      matcher anchored at both ends. */
  datatype Token = AnyDigit | OptionalSeparator

  function Digits(n: nat): (p: seq<Token>)
    ensures |p| == n && forall i :: 0 <= i < n ==> p[i] == AnyDigit
  {
    if n == 0 then [] else [AnyDigit] + Digits(n - 1)
  }

  function PhonePattern(): seq<Token> {
    Digits(3) + [OptionalSeparator] + Digits(3) + [OptionalSeparator] + Digits(4)
  }

  predicate Matches(p: seq<Token>, s: string)
    decreases |p|
  {
    if p == [] then s == []
    else match p[0]
      case AnyDigit => s != [] && IsDigit(s[0]) && Matches(p[1..], s[1..])
      case OptionalSeparator => (s != [] && IsSeparator(s[0]) && Matches(p[1..], s[1..])) || Matches(p[1..], s)
  }

  lemma {:induction false} MatchesDigits(n: nat, rest: seq<Token>, s: string)
    ensures Matches(Digits(n) + rest, s) <==> |s| >= n && AllDigits(s[..n]) && Matches(rest, s[n..])
    decreases n
  {
    if n > 0 {
      assert (Digits(n) + rest)[0] == AnyDigit;
      assert (Digits(n) + rest)[1..] == Digits(n - 1) + rest;
      if s != [] {
        MatchesDigits(n - 1, rest, s[1..]);
        if |s| >= n {
          assert s[1..][..n - 1] == s[1..n];
          assert s[1..][n - 1..] == s[n..];
          assert AllDigits(s[..n]) <==> IsDigit(s[0]) && AllDigits(s[1..n]) by {
            assert forall i :: 1 <= i < n ==> s[..n][i] == s[1..n][i - 1];
          }
        }
      }
    } else {
      assert Digits(0) + rest == rest;
    }
  }

  lemma MatchesOptional(rest: seq<Token>, s: string)
    ensures Matches([OptionalSeparator] + rest, s) <==> (s != [] && IsSeparator(s[0]) && Matches(rest, s[1..])) || Matches(rest, s)
  {
    assert ([OptionalSeparator] + rest)[1..] == rest;
  }

  /** What `\d{3}[-\s]?\d{4}` accepts. */
  predicate TailShape(u: string) {
    (|u| == 7 && AllDigits(u)) || (|u| == 8 && AllDigits(u[..3]) && IsSeparator(u[3]) && AllDigits(u[4..]))
  }

  /** The last seven tokens. */
  lemma MatchesTail(u: string)
    ensures Matches(Digits(3) + [OptionalSeparator] + Digits(4), u) <==> TailShape(u)
  {
    MatchesDigits(3, [OptionalSeparator] + Digits(4), u);
    assert Digits(3) + [OptionalSeparator] + Digits(4) == Digits(3) + ([OptionalSeparator] + Digits(4));
    if |u| >= 3 {
      var t := u[3..];
      MatchesOptional(Digits(4), t);
      MatchesDigits(4, [], t);
      assert Digits(4) + [] == Digits(4);
      if t != [] {
        MatchesDigits(4, [], t[1..]);
      }
      assert u == u[..3] + t;
      if |u| == 8 {
        assert u[4..] == t[1..];
      }
    }
  }

  /** The pattern after its first three digits. */
  lemma MatchesAfterArea(t: string)
    ensures Matches([OptionalSeparator] + (Digits(3) + [OptionalSeparator] + Digits(4)), t) <==>
      (t != [] && IsSeparator(t[0]) && TailShape(t[1..])) || TailShape(t)
  {
    MatchesOptional(Digits(3) + [OptionalSeparator] + Digits(4), t);
    MatchesTail(t);
    if t != [] {
      MatchesTail(t[1..]);
    }
  }

  /** The whole pattern: three digits, an optional separator, then the tail. */
  lemma MatchesPhonePattern(s: string)
    ensures Matches(PhonePattern(), s) <==>
      |s| >= 3 && AllDigits(s[..3]) && ((|s| > 3 && IsSeparator(s[3]) && TailShape(s[4..])) || TailShape(s[3..]))
  {
    var rest := [OptionalSeparator] + (Digits(3) + [OptionalSeparator] + Digits(4));
    assert PhonePattern() == Digits(3) + rest;
    MatchesDigits(3, rest, s);
    if |s| >= 3 {
      MatchesAfterArea(s[3..]);
      if |s| > 3 {
        assert s[3..][1..] == s[4..];
      }
    }
  }

  lemma AllDigitsSlice(s: string, i: nat, k: nat)
    requires i <= k <= |s|
    ensures AllDigits(s[i..k]) <==> forall n :: i <= n < k ==> IsDigit(s[n])
  {
    if AllDigits(s[i..k]) {
      forall n | i <= n < k ensures IsDigit(s[n]) {
        assert s[i..k][n - i] == s[n];
      }
    }
  }

  /** The four shapes, regrouped as the pattern reads them. */
  lemma PhoneShapeRegrouped(s: string)
    ensures PhoneShape(s) <==>
      |s| >= 3 && AllDigits(s[..3]) && ((|s| > 3 && IsSeparator(s[3]) && TailShape(s[4..])) || TailShape(s[3..]))
  {
    if 10 <= |s| <= 12 {
      AllDigitsSlice(s, 0, 3);
      AllDigitsSlice(s, 0, 6);
      AllDigitsSlice(s, 0, |s|);
      AllDigitsSlice(s, 3, |s|);
      AllDigitsSlice(s, 4, |s|);
      AllDigitsSlice(s, 7, |s|);
      AllDigitsSlice(s, 8, |s|);
      AllDigitsSlice(s, 3, 6);
      AllDigitsSlice(s, 4, 7);
      var t := s[3..];
      var u := s[4..];
      assert s[..3] == s[0..3] && s[..6] == s[0..6] && s == s[0..|s|];
      assert t[..3] == s[3..6] && t[4..] == s[7..] && t[3] == s[6];
      assert u[..3] == s[4..7] && u[4..] == s[8..] && u[3] == s[7];
    }
  }

  /** The matcher over the pattern accepts exactly the four phone shapes. */
  lemma PhonePatternIsPhoneShape(s: string)
    ensures Matches(PhonePattern(), s) <==> PhoneShape(s)
  {
    MatchesPhonePattern(s);
    PhoneShapeRegrouped(s);
  }

  /** `phonePattern.test(value.trim())`. */
  function PhoneAccepted(phone: string): (ok: bool)
    ensures ok <==> PhoneShape(Trim(phone))
  {
    PhonePatternIsPhoneShape(Trim(phone));
    Matches(PhonePattern(), Trim(phone))
  }

  datatype ProfileError = MissingProfileFields | InvalidPhone

  /** The profile form's submit check: name, phone and address present, and
      the trimmed phone matching the pattern. */
  function ProfileCheck(name: string, phone: string, address: string): (r: Outcome<ProfileError>)
    ensures r == Fail(MissingProfileFields) <==> AllSpace(name) || AllSpace(phone) || AllSpace(address)
    ensures r == Pass <==> !AllSpace(name) && !AllSpace(address) && PhoneShape(Trim(phone))
  {
    TrimEmptyIffAllSpace(name);
    TrimEmptyIffAllSpace(phone);
    TrimEmptyIffAllSpace(address);
    var accepted := PhoneAccepted(phone);
    assert accepted ==> |Trim(phone)| >= 10;
    if Trim(name) == [] || Trim(phone) == [] || Trim(address) == [] then Fail(MissingProfileFields)
    else if !accepted then Fail(InvalidPhone)
    else Pass
  }
}
