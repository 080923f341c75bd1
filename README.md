# Hotel management system — a verified Dafny model of its core rules

This project models the rules at the heart of a small Flask hotel application and proves properties of them:

- **Reservation engine** (`reservations.dfy`): room availability, booking, cancellation, room search, guest profiles and room-service cancellation, from `hotel_management_system/utils/user_utils.py`.
- **Management reports** (`reports.dfy`): the occupancy and revenue reports of `admin_utils.py`.
- **Back office** (`back_office.dfy`): the inventory, supply-order, room, employee and dashboard rules of `admin_utils.py`.
- **Food-order cart** (`order_cart.dfy`): the `orderItems` cart shared by `food.js`, `food_menu.js` and `user.js`.
- **Menu pages** (`food_page.dfy`): the availability toggle, the category tabs and the menu and report form checks.
- **Guest pages** (`user_page.dfy`): `formatDate`, the booking form's date rules, the room filter, month navigation, the calendar grid and the profile form's checks.

Shared pieces:
- `tables.dfy` holds the SQLite tables as sequences of records inside a `Database` object, with keys that are assigned as SQLite assigns rowids.
- `text.dfy` holds JavaScript's white space and `trim`, decimal rendering and parsing, `padStart`, and SQLite's text order.
- `wrappers.dfy` holds `Option`, `Result` and `Outcome`.

Modelling conventions:
- Dates are integer day numbers. ISO `YYYY-MM-DD` strings compare in the same order.
- "Now" is a count of seconds whose multiples of 86400 are local midnights.
- Money is an integer where the database stores it. The JavaScript prices and the report rates are `real`.
- The server's current day, the browser's current day, the current instant and the browser's offset from UTC are parameters. The two days are kept apart, because the browser's clock and the server's can disagree.
- Each Python function that changes the database is a method with a `modifies` clause on the `Database`. Its `ensures` gives the whole new state as a function of the old one, and lemmas prove what the code promises about those functions.
- The cart is a class whose `items` field the handler methods reassign.
- Where the code as it stands cannot produce its intended result, the model has both the as-written member and the intended one. The Findings section pairs them.

The headline results:
- **Closed overlap.** `Reservations.AvailableRoomsExact` proves that the three OR-ed clauses of the availability query are a test on closed intervals. So a stay that ends on the requested check-in day, or starts on the requested check-out day, blocks the room.
- **No double booking.** `Reservations.CreateBooking` keeps `NoDoubleBooking`: no two confirmed or checked-in bookings of a room meet.
- **Revenue adds up.** The per-type revenue sums to the total (`Reports.ByTypeMatchesTotal`). The revenue nights equal the occupied room-nights of the occupancy count (`Reports.RevenueNightsAreOccupiedNights`).
- **Cart invariant and read-back.** The cart keeps ids unique and quantities at least 1. Its hidden order fields have distinct names and read back the cart (`OrderCart.OrderFieldsReadBack`).

## Model

| member | source | states |
|---|---|---|
| `Tables.First` | hotel_management_system/utils/db.py:42-55 | The first row that satisfies the condition: it is in the table and satisfies it, and no earlier row does. None iff no row satisfies it. `ItemById`, `ItemByName`, `OrderById` and `RoomById` are this lookup with their WHERE clauses. |
| `Reservations.ClausesAreClosedOverlap` | hotel_management_system/utils/user_utils.py:160-164 | For an ordered request the closed-interval test implies the three clauses. For an ordered booking the clauses imply the closed-interval test. |
| `Reservations.Eligible` | hotel_management_system/utils/user_utils.py:153-172 | A room is kept iff it has the requested type (the empty type means any) and no confirmed or checked-in booking of it meets the clauses. |
| `Reservations.SortRooms` | hotel_management_system/utils/user_utils.py:174 | The result is ordered by price, then by room number in text order, and is a permutation of its input. |
| `Reservations.AvailableRooms` | hotel_management_system/utils/user_utils.py:140-176 | The query result is sorted by price and then room number, and is a permutation of the eligible rooms. |
| `Reservations.AvailableRoomsSound` | hotel_management_system/utils/user_utils.py:153-172 | A room is returned iff it is in the table, of the requested type and not blocked by an active booking. |
| `Reservations.AvailableRoomsExact` | hotel_management_system/utils/user_utils.py:153-167 | For an ordered request over forward-running bookings, a room is returned iff no confirmed or checked-in booking of it meets the request as closed intervals. |
| `Reservations.TurnoverDayBlocks` | hotel_management_system/utils/user_utils.py:160-164 | An active booking that ends on the requested check-in day, or starts on the requested check-out day, removes its room from the result. |
| `Reservations.InactiveBookingsNeverBlock` | hotel_management_system/utils/user_utils.py:159 | Adding a pending, checked-out or cancelled booking leaves the result unchanged. |
| `Reservations.AvailablePricesAscending` | hotel_management_system/utils/user_utils.py:174 | Prices in the result never decrease. |
| `Reservations.AddingAvailableKeepsNoDoubleBooking` | hotel_management_system/utils/user_utils.py:204-219 | Adding a booking for a room the query returned keeps the no-double-booking invariant. |
| `Reservations.NoDoubleBookingHalfOpen` | hotel_management_system/utils/user_utils.py:160-164 | Under the invariant, two active bookings of one room are strictly apart: one ends before the other begins. |
| `Reservations.BookingRefusalMeaning` | hotel_management_system/utils/user_utils.py:196-208 | The refusals come in order: unordered dates, then a past check-in, then an unknown room or one held over the closed interval. Each refusal holds exactly in its case. |
| `Reservations.SetRoomStatus` | hotel_management_system/utils/user_utils.py:224-231 | Only the status of the rooms with the id changes. |
| `Reservations.RetryIsRefused` | hotel_management_system/utils/user_utils.py:204-219 | Repeating a request that succeeded is refused as "room not available". |
| `Reservations.CreateBooking` | hotel_management_system/utils/user_utils.py:178-233 | After a refusal nothing changes. Otherwise exactly one confirmed booking with the next id is appended, and the room becomes occupied iff the check-in is today. Keys, no double booking and forward-running bookings are preserved. |
| `Reservations.FindBooking` | hotel_management_system/utils/user_utils.py:115-138 | Returns the first booking with the id whose room exists, owned by the guest when the guest id is non-zero. None iff there is no such booking. |
| `Reservations.CancelRowsChangesOnlyTarget` | hotel_management_system/utils/user_utils.py:263-271 | The update marks the guest's booking with that id cancelled and leaves every other row as it was. |
| `Reservations.CancelKeepsNoDoubleBooking` | hotel_management_system/utils/user_utils.py:263-271 | Cancelling preserves the no-double-booking invariant. |
| `Reservations.CancelWithoutGuestNeverSucceeds` | hotel_management_system/utils/user_utils.py:247-271 | When every booking has a real guest, a call with guest id 0 is always refused: the lookup skips ownership, but the update matches no row. |
| `Reservations.LateCancelRefused` | hotel_management_system/utils/user_utils.py:257-261 | A confirmed booking less than a day before its check-in midnight is refused as too late. |
| `Reservations.CancelBooking` | hotel_management_system/utils/user_utils.py:235-282 | After a refusal nothing changes. Otherwise only the target row becomes cancelled, and its room becomes available iff the booking was checked in. |
| `Reservations.CancelTwiceRefused` | hotel_management_system/utils/user_utils.py:253-254 | A second cancel of the same booking is refused as not cancellable. |
| `Reservations.SearchFilter` | hotel_management_system/utils/user_utils.py:428-437 | Keeps exactly the rooms that hold the guests and cost at most the maximum. A zero guest count or maximum price skips its filter. |
| `Reservations.SearchFilterSorted` | hotel_management_system/utils/user_utils.py:428-437 | Filtering keeps the availability order. |
| `Reservations.PriceStay` | hotel_management_system/utils/user_utils.py:440-448 | Each room gets nights = check-out − check-in and total = price × nights. |
| `Reservations.SearchRooms` | hotel_management_system/utils/user_utils.py:413-450 | The intended search, with each row copied before it is priced. The two loops return the priced, filtered availability list. |
| `Reservations.SearchRoomsMeaning` | hotel_management_system/utils/user_utils.py:413-450 | Of the intended search: an offer is listed iff its room is available, of the type and passes both filters. Offers are ordered by price and room number. |
| `Reservations.SearchRoomsAsWritten` | hotel_management_system/utils/user_utils.py:427-450 | As written, the search raises iff some available room passes the filters, because pricing assigns into a read-only row. Otherwise it returns the empty list. |
| `Reservations.SearchRaisesIffRoomOffered` | hotel_management_system/utils/user_utils.py:427-448 | The filtered list is non-empty iff some room is in the table, of the type, not blocked, and passes both filters. So as written the search raises exactly when the intended search would offer a room. |
| `Reservations.SearchRaisesExample` | hotel_management_system/utils/user_utils.py:447-448 | One free double room and a party of two: the filtered list holds that room, so the search raises. |
| `Reservations.GuestOfUser` | hotel_management_system/utils/user_utils.py:21-35 | Returns some profile of the user, and None iff the user has none. |
| `Reservations.CreateGuestProfile` | hotel_management_system/utils/user_utils.py:37-68 | Returns the existing profile unchanged, or appends one with the next id. Afterwards the user's profile is the returned id, and one profile per user is preserved. |
| `Reservations.FindRequest` | hotel_management_system/utils/user_utils.py:381-393 | Returns a request with the id whose booking belongs to the guest. None iff there is none. |
| `Reservations.CancelRoomServiceRequest` | hotel_management_system/utils/user_utils.py:371-411 | Refuses an unknown or foreign request, and one not pending or in progress, changing nothing. Otherwise it marks the request cancelled. |
| `Reservations.CancelRequestSettles` | hotel_management_system/utils/user_utils.py:395-409 | After a cancel, the request cannot be cancelled again, and the other requests are unchanged. |
| `Reports.CancelledStayCountedAsWritten` | hotel_management_system/utils/admin_utils.py:589-594 | With the written WHERE, a cancelled stay of days 10–11 with its room and guest on file is a report row for the range 10..12 and counts as occupied on day 10. With the intended WHERE there are no rows. |
| `Reports.WindowsAgreeUnlessCancelled` | hotel_management_system/utils/admin_utils.py:656-661 | The written and the corrected selection agree on every booking that is not cancelled. |
| `Reports.ReportRows` | hotel_management_system/utils/admin_utils.py:584-594 | For the written selection (`AsWritten`) or the intended one (`Corrected`), a row is reported iff its booking is selected, its guest exists and its room is the room with that id. |
| `Reports.CancelledNeverReported` | hotel_management_system/utils/admin_utils.py:651-661 | With the intended selection, adding a cancelled booking never changes the report rows. |
| `Reports.SelectionsAgreeWithoutCancelled` | hotel_management_system/utils/admin_utils.py:589-594 | Without cancelled bookings, the written and the intended selections give the same report rows. |
| `Reports.Rate` | hotel_management_system/utils/admin_utils.py:617 | The rate is non-negative, is 0 without rooms, and is at most 100 iff occupied ≤ total. |
| `Reports.DaysFrom` | hotel_management_system/utils/admin_utils.py:604-624 | The days from start to end inclusive, ascending, each once. There are none when start > end. |
| `Reports.CountOccupied` | hotel_management_system/utils/admin_utils.py:608-614 | The inner loop's counter equals the stays with check-in ≤ d < check-out. |
| `Reports.DailyOccupancy` | hotel_management_system/utils/admin_utils.py:604-624 | The day loop yields the days start..end in order, and for each day its occupied count, the room total and the rate. |
| `Reports.GenerateOccupancyReport` | hotel_management_system/utils/admin_utils.py:572-637 | For the selection given, the report carries the selected rows, one entry per day of the range with its count, total and rate, and the mean of the rates. With `AsWritten` this is the code's report, cancelled stays included. |
| `Reports.AverageWithinBounds` | hotel_management_system/utils/admin_utils.py:627-628 | When every daily rate is within 0..100, so is the average. It is 0 for an empty range. |
| `Reports.SumRatesBounds` | hotel_management_system/utils/admin_utils.py:627 | The sum of the rates lies between 0 and 100 × the number of days. |
| `Reports.Nights` | hotel_management_system/utils/admin_utils.py:672-680 | The clipped nights never exceed the window's length or the stay's own length, and equal the stay's length when the stay lies inside the window. |
| `Reports.CountNights` | hotel_management_system/utils/admin_utils.py:674-680 | The day-stepping loop yields exactly max(0, min(check-out, end) − max(check-in, start)). |
| `Reports.PriceRows` | hotel_management_system/utils/admin_utils.py:664-688 | The booking loop yields each row's nights and revenue, the running total and the per-type dictionary. |
| `Reports.AddRevenueSum` | hotel_management_system/utils/admin_utils.py:684-688 | Adding an amount under a type raises the dictionary's sum by that amount. |
| `Reports.AddRevenueAmount` | hotel_management_system/utils/admin_utils.py:685-688 | Only that type's amount changes. |
| `Reports.AddRevenueKinds` | hotel_management_system/utils/admin_utils.py:686-687 | The types present afterwards are the old ones plus the added type. |
| `Reports.AddRevenueDistinct` | hotel_management_system/utils/admin_utils.py:686-688 | The dictionary never holds a type twice. |
| `Reports.ByTypeMatchesTotal` | hotel_management_system/utils/admin_utils.py:664-688 | The per-type amounts sum to the total revenue, each equals its type's revenue, the types are distinct, and the types are exactly those of the rows. |
| `Reports.GenerateRevenueReport` | hotel_management_system/utils/admin_utils.py:639-696 | The intended report: the intended selection, with each row copied before its revenue is stored. Each row has its clipped nights and nights × price, and the report also carries the total and the per-type dictionary of those rows. |
| `Reports.GenerateRevenueReportAsWritten` | hotel_management_system/utils/admin_utils.py:664-681 | As written, the report raises iff the written selection keeps any booking, because storing the revenue assigns into a read-only row. Otherwise it returns an empty report with total 0. |
| `Reports.RevenueRaisesOnAnyStay` | hotel_management_system/utils/admin_utils.py:681 | Any stay the intended report would bill is also selected as written, so the report as written raises on it. |
| `Reports.RevenueRaisesExample` | hotel_management_system/utils/admin_utils.py:681 | A confirmed stay of days 10–11 with its room and guest on file is selected for the range 10..12, so the report raises. |
| `Reports.RevenueNightsAreOccupiedNights` | hotel_management_system/utils/admin_utils.py:672-680 | The nights billed over [start, end) equal the occupied counts summed over those days. |
| `BackOffice.AdjustStock` | hotel_management_system/utils/admin_utils.py:422-426 | The result is current + change, clamped at 0. |
| `BackOffice.SetQuantity` | hotel_management_system/utils/admin_utils.py:428-438 | Only the quantity of the rows with the id changes, and the ids stay the same. |
| `BackOffice.AdjustedInventoryFacts` | hotel_management_system/utils/admin_utils.py:412-440 | Only the item's quantity changes, to the clamped value. Non-negative stock stays non-negative. |
| `BackOffice.UpdateInventoryQuantity` | hotel_management_system/utils/admin_utils.py:401-440 | Returns true iff the item exists. The inventory becomes the adjusted inventory, unchanged for an unknown item. |
| `BackOffice.AddedInventory` | hotel_management_system/utils/admin_utils.py:373-399 | The merged or extended inventory keeps the item ids a key. |
| `BackOffice.AddedInventoryFacts` | hotel_management_system/utils/admin_utils.py:366-399 | Unique item names stay unique, and looking the name up afterwards finds the returned id. |
| `BackOffice.AddInventoryItem` | hotel_management_system/utils/admin_utils.py:354-399 | Returns the stocked item's id after adding the quantity to it, or appends a new row with the next id. |
| `BackOffice.UpdateOrderStatus` | hotel_management_system/utils/admin_utils.py:487-518 | Returns true iff the order exists. It sets the status, and when the status is "received" it adds the order's quantity to stock. |
| `BackOffice.OrderByIdAfterStatus` | hotel_management_system/utils/admin_utils.py:511-516 | After the update, the order is found with the new status. |
| `BackOffice.ReceivingTwiceCountsTwice` | hotel_management_system/utils/admin_utils.py:500-509 | Marking an order received twice adds its quantity twice. |
| `BackOffice.AddRoom` | hotel_management_system/utils/admin_utils.py:193-224 | A number in use gives None and no change. Otherwise an available room with the next id is appended, and room numbers stay unique. |
| `BackOffice.RemoveEmployee` | hotel_management_system/utils/admin_utils.py:157-163 | Removes exactly the rows with the id. |
| `BackOffice.DeleteEmployee` | hotel_management_system/utils/admin_utils.py:138-163 | An employee with housekeeping tasks is kept and false is returned. Otherwise the row is deleted and the result is true iff it existed. Tasks keep referring to existing staff. |
| `BackOffice.DashboardStats` | hotel_management_system/utils/admin_utils.py:5-27 | The live-booking and pending-order counts are at most their table sizes. The occupancy rate lies in 0..100. It is 0 iff no room is occupied, and 100 iff there are rooms and all are occupied. |
| `BackOffice.CancellingLowersBookingCount` | hotel_management_system/utils/admin_utils.py:17 | Cancelling a live booking lowers the dashboard's booking count by exactly one. |
| `OrderCart.FindIndex` | hotel_management_system/static/js/food_menu.js:52 | Returns the first entry with the id, and None iff there is none. |
| `OrderCart.AddedCounts` | hotel_management_system/static/js/food.js:74-85 | Adding gives one more of the id and changes no other id. Ids stay unique and quantities stay ≥ 1. |
| `OrderCart.IncreasedCounts` | hotel_management_system/static/js/food.js:157-158 | + gives one more of that entry's id and changes nothing else. |
| `OrderCart.DecreasedCounts` | hotel_management_system/static/js/food.js:145-150 | − gives one fewer of that id, removing the entry at 1, so every quantity stays ≥ 1. Nothing else changes. |
| `OrderCart.RemovedCounts` | hotel_management_system/static/js/food.js:165-167 | × takes the id out of the cart and leaves every other id's quantity. |
| `OrderCart.RemovedKeepsOrder` | hotel_management_system/static/js/user.js:499-505 | The entries left after × keep their relative order. |
| `OrderCart.AddedTotal` | hotel_management_system/static/js/food.js:106-110 | Adding raises the total by the existing entry's price, or by the clicked price for a new entry. |
| `OrderCart.OrderFields` | hotel_management_system/static/js/food_menu.js:148-170 | One `items[i][menu_item_id]` and one `items[i][quantity]` field per entry, in list order. There is no empty-cart check. |
| `OrderCart.FieldNameInjective` | hotel_management_system/static/js/food.js:206-213 | Two field names are equal only for the same index and key. |
| `OrderCart.OrderFieldsReadBack` | hotel_management_system/static/js/food.js:203-216 | All field names are distinct, and each quantity field parses back to its entry's quantity. |
| `OrderCart.Cart.constructor` | hotel_management_system/static/js/food_menu.js:31 | The cart starts empty. |
| `OrderCart.Cart.Add` | hotel_management_system/static/js/user.js:419-430 | The find-then-increment-or-append handler. |
| `OrderCart.Cart.Increase` | hotel_management_system/static/js/food_menu.js:126-127 | The + handler keeps the invariant. |
| `OrderCart.Cart.Decrease` | hotel_management_system/static/js/user.js:479-489 | The − handler keeps the invariant. |
| `OrderCart.Cart.Remove` | hotel_management_system/static/js/food_menu.js:134-135 | The × handler keeps the invariant. |
| `OrderCart.Cart.ClearIfConfirmed` | hotel_management_system/static/js/food.js:177-183 | Empties the cart only when the user confirms. An empty cart, or a declined confirmation, leaves it unchanged. |
| `OrderCart.Cart.Clear` | hotel_management_system/static/js/user.js:509-514 | Empties the cart without asking. `orderItems = []` in food_menu.js:142-145 does the same. |
| `OrderCart.Cart.Summary` | hotel_management_system/static/js/food.js:96-131 | The summary is hidden exactly when the cart is empty. Otherwise it shows Σ price × quantity. |
| `OrderCart.Cart.PlaceOrder` | hotel_management_system/static/js/food.js:188-217 | An empty cart is refused. Otherwise the hidden field pairs are built for every entry in order. |
| `FoodPage.ToggleValue` | hotel_management_system/static/js/food.js:308 | Posts 0 iff `data-available` is "1"; anything else, a missing attribute included, posts 1. |
| `FoodPage.ClickKeepsStoredAsWritten` | hotel_management_system/routes.py:389-391 | As written, a click on an item stored as 0 or 1 stores that same value again. The button posts the negated value and the route negates it back. |
| `FoodPage.ClickFlipsStored` | hotel_management_system/static/js/food.js:308 | With a route that stores the posted value, a click flips the stored availability and a second click restores it. |
| `FoodPage.ShowMatching` | hotel_management_system/static/js/food_menu.js:16-25 | "all" shows every section; any other tab shows exactly the sections of that category. The room-type select (user.js:69-81) uses the same rule. |
| `FoodPage.MenuFormCheck` | hotel_management_system/static/js/food.js:429-439 | The form is blocked as incomplete iff a field is all white space. It is blocked as badly priced iff all fields are present and the price is NaN or ≤ 0. |
| `FoodPage.MenuFormPassMeansPositive` | hotel_management_system/static/js/food.js:452-462 | An accepted add form has visible text in name and description and a positive price. |
| `FoodPage.ReportFormCheck` | hotel_management_system/static/js/food.js:654-664 | The food sales report form is blocked iff a date is missing, and accepted iff both dates are present and start ≤ end. |
| `UserPage.FormatDateReadBack` | hotel_management_system/static/js/user.js:580-585 | For a four-digit year the string is `YYYY-MM-DD`, and its fields parse back to the year, month + 1 and day. |
| `UserPage.OpenBookingForm` | hotel_management_system/static/js/user.js:30-44 | The minimums are today and tomorrow. Empty pickers get those defaults, and set ones are kept. |
| `UserPage.NextDayAsWrittenByZone` | hotel_management_system/static/js/user.js:48-50 | The computed next day is the picked day itself west of UTC, and the day after at UTC or east of it. |
| `UserPage.WestOfUtcResetIsInvalid` | hotel_management_system/static/js/user.js:47-57 | West of UTC, the reset sets check-out to the check-in day, and the submit check then refuses those dates. |
| `UserPage.WestOfUtcExample` | hotel_management_system/static/js/user.js:48-56 | At UTC−5, check-in day 20000 resets check-out to day 20000. |
| `UserPage.EastOfUtcAgrees` | hotel_management_system/static/js/user.js:48-52 | At UTC or east of it, the written handler is the corrected one. |
| `UserPage.CheckInChangeKeepsStay` | hotel_management_system/static/js/user.js:52-57 | For the intended handler (`CheckInChange`): after a check-in change the minimum is check-in + 1, a later check-out is kept, and any check-out follows check-in. West of UTC the code as written differs (see Findings). |
| `UserPage.SubmitCheck` | hotel_management_system/static/js/user.js:84-101 | Blocked iff no room is picked, or both dates are set and check-out ≤ check-in. |
| `UserPage.SubmittedDatesAreOrdered` | hotel_management_system/static/js/user.js:94-100 | Dates the form accepts never meet create_booking's date-order refusal. |
| `UserPage.OpenedFormIsBookable` | hotel_management_system/static/js/user.js:37-44 | The browser's day and the server's day are separate. The default dates always pass the form and are never refused as out of order. The server refuses them as a past check-in iff the browser's day is behind the server's. |
| `UserPage.FilterRooms` | hotel_management_system/static/js/user.js:129-152 | A card is shown iff min ≤ price ≤ max, its capacity meets the guest count, and its type is selected. The defaults are 0, 10000 and 1, and NaN hides. |
| `UserPage.DefaultFiltersShow` | hotel_management_system/static/js/user.js:130-132 | With empty inputs and "all", exactly the cards priced 0..10000 that sleep at least one are shown. |
| `UserPage.UnreadableFiltersHideAll` | hotel_management_system/static/js/user.js:133-145 | Without a type select, or with an unreadable number, no card is shown. |
| `UserPage.FiltersNarrow` | hotel_management_system/static/js/user.js:142-143 | Raising the minimum price or the guest count only hides cards. |
| `UserPage.DataDateReadBack` | hotel_management_system/static/js/user.js:176-180 | The buttons split `data-date` back into the month and year the calendar wrote. |
| `UserPage.MonthSteps` | hotel_management_system/static/js/user.js:172-204 | Previous steps exactly one month back and next one forward, with the year wrapping and the month staying in 0..11. |
| `UserPage.NavigationInverse` | hotel_management_system/static/js/user.js:177-200 | Next after previous, and previous after next, are the identity. |
| `UserPage.NextMonthWeekday` | hotel_management_system/static/js/user.js:207-208 | The next month's first weekday is this month's shifted by its length in days. |
| `UserPage.EpochWeekday` | hotel_management_system/static/js/user.js:207 | 1 January 1970 is a Thursday. |
| `UserPage.RenderWeek` | hotel_management_system/static/js/user.js:225-256 | One row of the inner loop yields seven cells matching the grid layout, and advances the day counter. |
| `UserPage.RenderCalendar` | hotel_management_system/static/js/user.js:206-261 | Records `<month>-<year>` and emits exactly 42 cells following the grid layout. |
| `UserPage.CalendarDaysOnce` | hotel_management_system/static/js/user.js:224-257 | Days 1..n fill positions firstDay..firstDay+n−1 consecutively and fit the grid. Every other cell is blank. |
| `UserPage.TodayMarkedOnce` | hotel_management_system/static/js/user.js:242-245 | A cell is marked today iff today is in the shown month and year and the cell holds today's day. |
| `UserPage.PhonePatternIsPhoneShape` | hotel_management_system/static/js/user.js:360 | The pattern accepts ten digits with an optional dash or space after the 3rd and after the 6th digit, and nothing else. |
| `UserPage.PhoneAccepted` | hotel_management_system/static/js/user.js:361 | The test on the trimmed value holds iff it has one of those shapes. |
| `UserPage.ProfileCheck` | hotel_management_system/static/js/user.js:353-365 | Blocked as incomplete iff a field is blank. Accepted iff name and address are present and the trimmed phone has a valid shape. |

## Left out

- `routes.py`, `utils/food.py` and the app configuration are not part of this model, except the toggle route's rule for the stored availability (routes.py:389-391). Routing, sessions, templates and seed data live there. The food sales report that the report form feeds is in `utils/food.py`.
- The templates are not part of this model. `data-available` is taken to render the stored availability as "0" or "1".
- `HMS/app.py`, the legacy application, is not part of this model. Its own endpoint-only conflict test is a different predicate.
- `db.py` and `auth.py` are not part of this model beyond `query_db`: connection handling and hashing are foreign calls. The tables are in-memory sequences. `query_db(..., one=True)` is `Tables.First`. The read-only `sqlite3.Row` results appear only as the `RowError` of the two as-written members. `insert_db` returns the next rowid, and `update_db` and `delete_db` report the matching rows. Only "no row matched" is modelled as a failure.
- The storage error "Failed to create booking" and the unreachable "Failed to cancel request" are not modelled. The store never fails.
- Concurrency is not modelled. The check-then-insert of `create_booking` runs sequentially.
- `Reservations.WithinCancelWindow`: `now` is whole seconds, while `datetime.now()` has sub-second precision. When check-in midnight is exactly 86400 s after the modelled `now`, the source refuses (the true difference is just under a day) and the model lets the cancel through.
- The clock, `strptime` and JavaScript `Date` parsing are not modelled. Today, now and the UTC offset are parameters, and every date is a well-formed day. Daylight-saving changes of the offset are not modelled.
- Timestamps and display-only columns are not modelled: `created_at`, `last_updated`, `order_date` and the joined `guest_name`.
- The ORDER BY check_in of both reports is not modelled. Report rows come in table order, and so does the insertion order of the per-type dictionary.
- `Reservations.SearchRooms`: models the intended search, with each row copied before it is priced. The code as written raises on any non-empty result (Findings); `Reservations.SearchRoomsAsWritten` models that.
- `Reservations.SearchRoomsMeaning`: describes the intended search's result, which the code as written returns only when it is empty.
- `Reports.GenerateRevenueReport`: models the intended report, over the corrected selection and with rows copied. The code as written raises on any selected booking (Findings); `Reports.GenerateRevenueReportAsWritten` models that.
- `Reports.ReportRows`: the selection is a parameter; `AsWritten` is the code's WHERE and `Corrected` the intended one.
- `Reports.Rate`: the rate is an exact `real`; `round(…, 2)` is not modelled.
- `Reports.GenerateOccupancyReport`: the average is an exact `real`; `round(…, 2)` is not modelled.
- `BackOffice.DashboardStats`: the occupancy rate is an exact `real` without rounding. The counts of guests, employees, rooms and inventory are table sizes with no further contract.
- `OrderCart.Cart.Summary`: prices and totals are exact reals, not IEEE doubles. The rendered item rows are not modelled.
- `FoodPage.MenuFormCheck`: what parseFloat reads from the price is a parameter (None for NaN). parseFloat itself is not modelled.
- `UserPage.FilterRooms`: the numbers parseFloat and parseInt read from the inputs and cards are parameters. Card attributes are assumed present.
- The cart handlers take an index from a rendered row, so they require it to be in range. An out-of-range index would throw in the browser.
- DOM work, notifications, `setTimeout`, the order modal and `innerHTML` templates are not modelled.
- `UserPage.FormatDateReadBack`: covers four-digit years only.
- `UserPage.DataDateReadBack`: covers non-negative years only. A negative year would add a second `-` to `data-date`.
- `UserPage.RenderCalendar`: requires a month in 0..11. Navigation and `getMonth` always give one. The month caption text and `addEventsToCalendar` are not modelled.
- `UserPage.Weekday`: a closed formula for the proleptic Gregorian calendar that JavaScript uses. It is checked against the month lengths and one known date; the JavaScript engine is not modelled.

## Findings

| source | as written | input that shows it | evidently intended | confidence | as-written member | corrected member |
|---|---|---|---|---|---|---|
| hotel_management_system/utils/admin_utils.py:589-594 | `A OR B OR C AND status != "cancelled"` groups as `A OR B OR (C AND …)`. The same operator precedence appears at lines 656-661, so a cancelled stay whose check-in or check-out lies in the range is reported. | a cancelled booking for days 10–11 with the range 10..12 is selected and counted as an occupied room on day 10 | exclude cancelled bookings from all three clauses | high; not executed | `Reports.CancelledStayCountedAsWritten` | `Reports.CancelledNeverReported` |
| hotel_management_system/utils/user_utils.py:447-448 | `room['total_price'] = …` assigns into a row of `get_available_rooms`. That row is a read-only `sqlite3.Row` (the row factory set at db.py:16), so the assignment raises TypeError. | one free room of capacity 2, no bookings, and a search for 2 guests with no type or price filter: the first loop keeps the room and pricing it raises | copy each row into a dictionary before adding `total_price` and `nights` | high; not executed | `Reservations.SearchRoomsAsWritten` | `Reservations.SearchRoomsMeaning` |
| hotel_management_system/utils/admin_utils.py:681 | `booking['revenue'] = revenue` assigns into a read-only `sqlite3.Row` from `query_db`, so the report raises TypeError on its first selected booking | a confirmed booking of days 10–11 whose room and guest exist, with the range 10..12 | copy each row into a dictionary before storing its revenue | high; not executed | `Reports.GenerateRevenueReportAsWritten` | `Reports.GenerateRevenueReport` |
| hotel_management_system/routes.py:389-391 | The toggle button already posts the negated availability (food.js:308), and the route negates it again with `1 if available == 0 else 0`, so the stored value never changes | an item stored as available (1) renders `data-available="1"`; the click posts 0 and the route stores 1 | store the posted value, so that a click flips the availability | medium; not executed | `FoodPage.ClickKeepsStoredAsWritten` | `FoodPage.ClickFlipsStored` |
| hotel_management_system/static/js/user.js:48-56 | `new Date('YYYY-MM-DD')` is UTC midnight, but `getDate`, `setDate` and `formatDate` work in local time | at UTC−5 (offset −18000 s), check-in day 20000 with check-out on day 20000 resets check-out to day 20000, which the submit check then refuses | the minimum and reset check-out are check-in + 1 | medium; not executed | `UserPage.WestOfUtcResetIsInvalid` | `UserPage.CheckInChangeKeepsStay` |
